/** The curriculum catalog behind the AI-Labs page: its record types, the
    two read-only queries `getTopicsByCategory` and `getMomentumStarters`,
    the hand-kept category display order and the per-category lookup
    tables. Every query is modelled generically over any catalog; the shipped
    catalog itself is in module Catalog. */
module LabsData {
  import opened Seqs
  import opened Optional

  /** The closed set of seven category tags. */
  datatype Category =
    | Foundations
    | CoreArchitecture
    | Orchestration
    | Frameworks
    | DataRetrieval
    | IntegrationDeployment
    | Specializations

  datatype Status = NotStarted | InProgress | Complete

  /** A lab. Its free-text fields (title, duration, summary) are not carried;
      `prereqs` are display labels such as "A1", never resolved. */
  datatype Lab = Lab(id: string, prereqs: seq<string>, status: Status)

  /** A topic. Its free-text fields (name, description, time to mid level)
      are not carried. */
  datatype Topic = Topic(
    id: string,
    letter: string,
    category: Category,
    difficulty: int,
    jobDemand: int,
    isMomentumStarter: bool,
    momentumOrder: Option<int>,
    labs: seq<Lab>)

  /** The sort key of the momentum starters, `momentumOrder ?? 0`: an absent
      order counts as 0 only when comparing. */
  function EffectiveOrder(t: Topic): (k: int)
    ensures t.momentumOrder.Some? ==> k == t.momentumOrder.value
    ensures t.momentumOrder.None? ==> k == 0
  {
    match t.momentumOrder
    case Some(n) => n
    case None => 0
  }

  /** The callback of `getTopicsByCategory`. */
  function InCategory(c: Category): Topic -> bool
  {
    (t: Topic) => t.category == c
  }

  /** The callback of the filter in `getMomentumStarters`. */
  predicate IsStarter(t: Topic)
  {
    t.isMomentumStarter
  }

  /** Selects the topics with a given effective order; used to state that
      the sort is stable. */
  function HasOrder(k: int): Topic -> bool
  {
    (t: Topic) => EffectiveOrder(t) == k
  }

  // ---------------------------------------------------------------------
  // getTopicsByCategory

  /** `getTopicsByCategory(category)`: the topics of one category, in
      catalog order. An unused category gives the empty sequence. */
  function TopicsByCategory(topics: seq<Topic>, c: Category): (r: seq<Topic>)
    ensures |r| <= |topics|
    ensures forall i :: 0 <= i < |r| ==> r[i].category == c
    ensures forall t :: t in r <==> t in topics && t.category == c
  {
    FilterMembers(topics, InCategory(c));
    Filter(topics, InCategory(c))
  }

  /** The result holds every topic of the category as often as the catalog
      does, nothing else, and in catalog order. */
  lemma TopicsByCategoryExact(topics: seq<Topic>, c: Category)
    ensures IsSubsequence(TopicsByCategory(topics, c), topics)
    ensures forall t :: multiset(TopicsByCategory(topics, c))[t]
                        == if t.category == c then multiset(topics)[t] else 0
  {
    FilterIsSubsequence(topics, InCategory(c));
    forall t ensures multiset(TopicsByCategory(topics, c))[t]
                     == if t.category == c then multiset(topics)[t] else 0
    {
      FilterMultiplicity(topics, InCategory(c), t);
    }
  }

  /** A category section is rendered only when its topic list is non-empty,
      that is, exactly when some catalog topic carries that category. */
  lemma SectionShownIffUsed(topics: seq<Topic>, c: Category)
    ensures |TopicsByCategory(topics, c)| > 0 <==> exists i :: 0 <= i < |topics| && topics[i].category == c
  {
    FilterAllOrNone(topics, InCategory(c));
  }

  // ---------------------------------------------------------------------
  // getMomentumStarters: filter, then a stable sort on EffectiveOrder

  ghost predicate SortedByOrder(s: seq<Topic>)
  {
    forall i, j :: 0 <= i < j < |s| ==> EffectiveOrder(s[i]) <= EffectiveOrder(s[j])
  }

  /** Places `t` before the first element whose key is not smaller, so that
      it precedes every element of equal key. */
  function Insert(t: Topic, s: seq<Topic>): (r: seq<Topic>)
    requires SortedByOrder(s)
    ensures SortedByOrder(r)
    ensures multiset(r) == multiset(s) + multiset{t}
  {
    if s == [] then [t]
    else if EffectiveOrder(t) <= EffectiveOrder(s[0]) then
      SortedHeadIsLeast(s);
      LeastHeadKeepsSorted(t, s);
      [t] + s
    else
      SortedTail(s);
      var rest := Insert(t, s[1..]);
      SortedHeadIsLeast(s);
      InsertedMembers(t, s, rest);
      LeastHeadKeepsSorted(s[0], rest);
      assert s == [s[0]] + s[1..];
      [s[0]] + rest
  }

  /** What the insertion into the tail holds is `t` or an element of `s`. */
  lemma InsertedMembers(t: Topic, s: seq<Topic>, rest: seq<Topic>)
    requires s != [] && multiset(rest) == multiset(s[1..]) + multiset{t}
    ensures forall x :: x in rest ==> x == t || x in s
  {
    forall x | x in rest ensures x == t || x in s {
      assert x in multiset(rest);
      assert x in multiset(s[1..]) ==> x in s[1..];
    }
  }

  lemma SortedTail(s: seq<Topic>)
    requires s != [] && SortedByOrder(s)
    ensures SortedByOrder(s[1..])
  {
    forall i, j | 0 <= i < j < |s| - 1 ensures EffectiveOrder(s[1..][i]) <= EffectiveOrder(s[1..][j]) {
      assert s[1..][i] == s[i + 1] && s[1..][j] == s[j + 1];
    }
  }

  lemma LeastHeadKeepsSorted(h: Topic, s: seq<Topic>)
    requires SortedByOrder(s)
    requires forall x :: x in s ==> EffectiveOrder(h) <= EffectiveOrder(x)
    ensures SortedByOrder([h] + s)
  {
    forall i, j | 0 <= i < j < |s| + 1 ensures EffectiveOrder(([h] + s)[i]) <= EffectiveOrder(([h] + s)[j]) {
      assert ([h] + s)[j] == s[j - 1];
      assert s[j - 1] in s;
      if i > 0 {
        assert ([h] + s)[i] == s[i - 1];
      }
    }
  }

  lemma SortedHeadIsLeast(s: seq<Topic>)
    requires s != [] && SortedByOrder(s)
    ensures forall x :: x in s ==> EffectiveOrder(s[0]) <= EffectiveOrder(x)
  {
    forall x | x in s ensures EffectiveOrder(s[0]) <= EffectiveOrder(x) {
      var i :| 0 <= i < |s| && s[i] == x;
      assert i == 0 || EffectiveOrder(s[0]) <= EffectiveOrder(s[i]);
    }
  }

  /** The stable ascending sort that `Array.prototype.sort` performs with the
      comparator `(a.momentumOrder ?? 0) - (b.momentumOrder ?? 0)`, written as
      an insertion sort. */
  function SortByOrder(s: seq<Topic>): (r: seq<Topic>)
    ensures SortedByOrder(r)
    ensures multiset(r) == multiset(s)
  {
    if s == [] then []
    else
      assert s == [s[0]] + s[1..];
      Insert(s[0], SortByOrder(s[1..]))
  }

  /** `getMomentumStarters()`. */
  function MomentumStarters(topics: seq<Topic>): (r: seq<Topic>)
    ensures SortedByOrder(r)
    ensures multiset(r) == multiset(Filter(topics, IsStarter))
  {
    SortByOrder(Filter(topics, IsStarter))
  }

  /** Sortedness checked on neighbours only. `SortedByOrder` is the
      definition; this recursive form is what the verifier can check on a
      concrete list by unfolding it, and `OrdersAscendingSorted` carries it
      over to the definition. */
  predicate OrdersAscending(s: seq<Topic>)
  {
    |s| <= 1 || (EffectiveOrder(s[0]) <= EffectiveOrder(s[1]) && OrdersAscending(s[1..]))
  }

  lemma {:induction false} OrdersAscendingSorted(s: seq<Topic>)
    requires OrdersAscending(s)
    ensures SortedByOrder(s)
  {
    if |s| > 1 {
      OrdersAscendingSorted(s[1..]);
      assert forall j :: 1 <= j < |s| ==> s[j] == s[1..][j - 1];
    }
  }

  /** Inserting `t` puts it in front of every element that shares its key
      and disturbs no other key's order. */
  lemma {:induction false} InsertStable(t: Topic, s: seq<Topic>, k: int)
    requires SortedByOrder(s)
    ensures Filter(Insert(t, s), HasOrder(k))
            == if EffectiveOrder(t) == k then [t] + Filter(s, HasOrder(k)) else Filter(s, HasOrder(k))
  {
    if s == [] || EffectiveOrder(t) <= EffectiveOrder(s[0]) {
      assert ([t] + s)[1..] == s;
    } else {
      InsertStable(t, s[1..], k);
      var r := Insert(t, s);
      assert r[1..] == Insert(t, s[1..]);
      if EffectiveOrder(t) == k {
        assert !HasOrder(k)(s[0]);
      }
    }
  }

  /** Stability: for every key, the topics carrying that key come out of the
      sort in the order they went in. */
  lemma {:induction false} SortByOrderStable(s: seq<Topic>, k: int)
    ensures Filter(SortByOrder(s), HasOrder(k)) == Filter(s, HasOrder(k))
  {
    if s != [] {
      SortByOrderStable(s[1..], k);
      InsertStable(s[0], SortByOrder(s[1..]), k);
    }
  }

  /** In a key-sorted sequence the per-key subsequence of the first key
      starts with the first element. */
  lemma HeadOfSortedFilter(a: seq<Topic>)
    requires a != [] && SortedByOrder(a)
    ensures Filter(a, HasOrder(EffectiveOrder(a[0]))) == [a[0]] + Filter(a[1..], HasOrder(EffectiveOrder(a[0])))
  {
  }

  /** If some element of a key-sorted `b` has key `k`, then `b`'s first key is
      at most `k`. */
  lemma FirstKeyIsLeast(b: seq<Topic>, k: int)
    requires SortedByOrder(b) && Filter(b, HasOrder(k)) != []
    ensures b != [] && EffectiveOrder(b[0]) <= k
  {
    FilterMembers(b, HasOrder(k));
    var x := Filter(b, HasOrder(k))[0];
    assert x in b;
    var i :| 0 <= i < |b| && b[i] == x;
    assert i == 0 || EffectiveOrder(b[0]) <= EffectiveOrder(b[i]);
  }

  /** A sequence is empty exactly when no key selects anything from it. */
  lemma EmptyIffNoKey(s: seq<Topic>)
    ensures s == [] <==> forall k :: Filter(s, HasOrder(k)) == []
  {
    if s != [] {
      assert HasOrder(EffectiveOrder(s[0]))(s[0]);
      assert Filter(s, HasOrder(EffectiveOrder(s[0]))) != [];
    }
  }

  /** Sortedness together with the per-key subsequences fixes a sequence
      completely: any stable sort returns the same answer. */
  lemma {:induction false} SortedWithSameKeyOrderEqual(a: seq<Topic>, b: seq<Topic>)
    requires SortedByOrder(a) && SortedByOrder(b)
    requires forall k :: Filter(a, HasOrder(k)) == Filter(b, HasOrder(k))
    ensures a == b
    decreases |a| + |b|
  {
    if a == [] || b == [] {
      EmptyIffNoKey(a);
      EmptyIffNoKey(b);
    } else {
      var ka, kb := EffectiveOrder(a[0]), EffectiveOrder(b[0]);
      HeadOfSortedFilter(a);
      HeadOfSortedFilter(b);
      FirstKeyIsLeast(b, ka);
      FirstKeyIsLeast(a, kb);
      assert ka == kb;
      assert a[0] == Filter(a, HasOrder(ka))[0] == Filter(b, HasOrder(ka))[0] == b[0];
      forall k ensures Filter(a[1..], HasOrder(k)) == Filter(b[1..], HasOrder(k)) {
        FilterDropCommonHead(a, b, HasOrder(k));
      }
      SortedWithSameKeyOrderEqual(a[1..], b[1..]);
      assert a == [a[0]] + a[1..] && b == [b[0]] + b[1..];
    }
  }

  /** `SortByOrder(s)` is the one sequence that is sorted by key and keeps
      every key's topics in their input order. */
  lemma SortByOrderCharacterised(s: seq<Topic>, r: seq<Topic>)
    ensures r == SortByOrder(s) <==>
            SortedByOrder(r) && forall k :: Filter(r, HasOrder(k)) == Filter(s, HasOrder(k))
  {
    forall k ensures Filter(SortByOrder(s), HasOrder(k)) == Filter(s, HasOrder(k)) {
      SortByOrderStable(s, k);
    }
    if SortedByOrder(r) && forall k :: Filter(r, HasOrder(k)) == Filter(s, HasOrder(k)) {
      SortedWithSameKeyOrderEqual(r, SortByOrder(s));
    }
  }

  /** Sorting a sequence that is already in key order changes nothing, so
      sorting twice is the same as sorting once. */
  lemma SortByOrderKeepsSorted(s: seq<Topic>)
    requires SortedByOrder(s)
    ensures SortByOrder(s) == s
    ensures SortByOrder(SortByOrder(s)) == SortByOrder(s)
  {
    SortByOrderCharacterised(s, s);
  }

  /** When the flagged topics already stand in key order in the catalog,
      `getMomentumStarters()` lists them in catalog order. */
  lemma FlaggedInOrderAreStarters(topics: seq<Topic>)
    requires OrdersAscending(Filter(topics, IsStarter))
    ensures MomentumStarters(topics) == Filter(topics, IsStarter)
  {
    OrdersAscendingSorted(Filter(topics, IsStarter));
    SortByOrderKeepsSorted(Filter(topics, IsStarter));
  }

  /** `getMomentumStarters()` holds exactly the flagged topics, each as often
      as in the catalog, ascending by effective order, with ties in catalog
      order. */
  lemma MomentumStartersExact(topics: seq<Topic>)
    ensures forall t :: t in MomentumStarters(topics) <==> t in topics && t.isMomentumStarter
    ensures forall t :: multiset(MomentumStarters(topics))[t]
                        == if t.isMomentumStarter then multiset(topics)[t] else 0
    ensures forall k :: Filter(MomentumStarters(topics), HasOrder(k))
                        == Filter(Filter(topics, IsStarter), HasOrder(k))
  {
    var f := Filter(topics, IsStarter);
    forall t ensures multiset(MomentumStarters(topics))[t]
                     == if t.isMomentumStarter then multiset(topics)[t] else 0
    {
      FilterMultiplicity(topics, IsStarter, t);
    }
    forall t ensures t in MomentumStarters(topics) <==> t in topics && t.isMomentumStarter {
      assert t in MomentumStarters(topics) <==> t in multiset(MomentumStarters(topics));
    }
    forall k ensures Filter(MomentumStarters(topics), HasOrder(k)) == Filter(f, HasOrder(k)) {
      SortByOrderStable(f, k);
    }
  }

  /** A starter without `momentumOrder` sorts before one with order 1 (its
      key is 0), wherever the two sit in the catalog. */
  lemma UnorderedStarterFirst(topics: seq<Topic>, i: int, j: int)
    requires 0 <= i < |MomentumStarters(topics)| && 0 <= j < |MomentumStarters(topics)|
    requires MomentumStarters(topics)[i].momentumOrder == None
    requires MomentumStarters(topics)[j].momentumOrder == Some(1)
    ensures i < j
  {
    var r := MomentumStarters(topics);
    assert EffectiveOrder(r[i]) < EffectiveOrder(r[j]);
  }

  // ---------------------------------------------------------------------
  // Category display order and lookup tables

  /** `categoryOrder`: the section order of the page. */
  const CategoryOrder: seq<Category> :=
    [Foundations, CoreArchitecture, Orchestration, Frameworks,
     DataRetrieval, IntegrationDeployment, Specializations]

  /** Position of a category in `CategoryOrder`. */
  function CategoryIndex(c: Category): (k: nat)
    ensures k < |CategoryOrder| && CategoryOrder[k] == c
  {
    match c
    case Foundations => 0
    case CoreArchitecture => 1
    case Orchestration => 2
    case Frameworks => 3
    case DataRetrieval => 4
    case IntegrationDeployment => 5
    case Specializations => 6
  }

  /** `categoryOrder` lists each of the seven categories exactly once. */
  lemma CategoryOrderListsEachOnce()
    ensures |CategoryOrder| == 7
    ensures forall k :: 0 <= k < |CategoryOrder| ==> CategoryIndex(CategoryOrder[k]) == k
    ensures forall c :: c in CategoryOrder
    ensures NoDuplicates(CategoryOrder)
  {
    forall j, k | 0 <= j < k < |CategoryOrder| ensures CategoryOrder[j] != CategoryOrder[k] {
      assert CategoryIndex(CategoryOrder[j]) == j && CategoryIndex(CategoryOrder[k]) == k;
    }
    forall c ensures c in CategoryOrder {
      assert CategoryOrder[CategoryIndex(c)] == c;
    }
  }

  /** `categoryLabels`. */
  function CategoryLabel(c: Category): (text: string)
    ensures text != []
  {
    match c
    case Foundations => "Foundations"
    case CoreArchitecture => "Core Architecture"
    case Orchestration => "Orchestration"
    case Frameworks => "Frameworks"
    case DataRetrieval => "Data & Retrieval"
    case IntegrationDeployment => "Integration & Deployment"
    case Specializations => "Specializations"
  }

  /** `categoryColors`: the accent colour name of each category. */
  function CategoryColor(c: Category): (colour: string)
    ensures colour != []
  {
    match c
    case Foundations => "emerald"
    case CoreArchitecture => "sky"
    case Orchestration => "violet"
    case Frameworks => "amber"
    case DataRetrieval => "rose"
    case IntegrationDeployment => "blue"
    case Specializations => "teal"
  }

  /** Both lookup tables are total and tell every category apart. */
  lemma CategoryTablesInjective(c: Category, d: Category)
    ensures CategoryLabel(c) == CategoryLabel(d) <==> c == d
    ensures CategoryColor(c) == CategoryColor(d) <==> c == d
  {
    if c != d {
      match c
      case Foundations =>
      case CoreArchitecture =>
      case Orchestration =>
      case Frameworks =>
      case DataRetrieval =>
      case IntegrationDeployment =>
      case Specializations =>
    }
  }

  // ---------------------------------------------------------------------
  // The page's category sections

  /** The page's full roadmap: `getTopicsByCategory(c)` for each `c` of
      `cats`, one after the other. */
  function Sections(topics: seq<Topic>, cats: seq<Category>): (r: seq<Topic>)
    ensures forall t :: t in r ==> t in topics && t.category in cats
  {
    if cats == [] then []
    else TopicsByCategory(topics, cats[0]) + Sections(topics, cats[1..])
  }

  lemma {:induction false} SectionsMultiplicity(topics: seq<Topic>, cats: seq<Category>, t: Topic)
    requires NoDuplicates(cats)
    ensures multiset(Sections(topics, cats))[t] == if t.category in cats then multiset(topics)[t] else 0
  {
    if cats != [] {
      SectionsMultiplicity(topics, cats[1..], t);
      TopicsByCategoryExact(topics, cats[0]);
      assert t.category in cats <==> t.category == cats[0] || t.category in cats[1..];
      assert t.category == cats[0] ==> t.category !in cats[1..];
    }
  }

  /** Laying the sections out in `categoryOrder` shows every catalog topic
      exactly once: the roadmap is a permutation of the catalog, and each
      topic sits in the section of its own category and in no other. */
  lemma RoadmapPartitionsCatalog(topics: seq<Topic>)
    ensures multiset(Sections(topics, CategoryOrder)) == multiset(topics)
    ensures forall t, k :: t in topics && 0 <= k < |CategoryOrder| ==>
              (t in TopicsByCategory(topics, CategoryOrder[k]) <==> k == CategoryIndex(t.category))
  {
    CategoryOrderListsEachOnce();
    forall t ensures multiset(Sections(topics, CategoryOrder))[t] == multiset(topics)[t] {
      SectionsMultiplicity(topics, CategoryOrder, t);
    }
  }

  // ---------------------------------------------------------------------
  // A catalog written in category blocks

  /** `blocks[j]` holds only topics of category `cats[j]`. */
  ghost predicate InBlocks(blocks: seq<seq<Topic>>, cats: seq<Category>)
  {
    |blocks| == |cats| && forall j :: 0 <= j < |blocks| ==> AllOf(blocks[j], InCategory(cats[j]))
  }

  /** A block of one category contributes nothing to another's section. */
  lemma {:induction false} BlockOutside(block: seq<Topic>, d: Category, c: Category)
    requires AllOf(block, InCategory(d)) && d != c
    ensures TopicsByCategory(block, c) == []
  {
    if block != [] {
      BlockOutside(block[1..], d, c);
    }
  }

  lemma {:induction false} OutsideBlocks(blocks: seq<seq<Topic>>, cats: seq<Category>, c: Category)
    requires InBlocks(blocks, cats) && c !in cats
    ensures TopicsByCategory(Concat(blocks), c) == []
  {
    if blocks != [] {
      assert InBlocks(blocks[1..], cats[1..]) by {
        forall j | 0 <= j < |blocks| - 1
          ensures AllOf(blocks[1..][j], InCategory(cats[1..][j]))
        {
          assert AllOf(blocks[j + 1], InCategory(cats[j + 1]));
        }
      }
      OutsideBlocks(blocks[1..], cats[1..], c);
      assert AllOf(blocks[0], InCategory(cats[0]));
      BlockOutside(blocks[0], cats[0], c);
      FilterAppend(blocks[0], Concat(blocks[1..]), InCategory(c));
    }
  }

  /** When a catalog is written as consecutive blocks, one per category and
      no category twice, the section of `cats[i]` is exactly block `i`. */
  lemma {:induction false} BlockIsSection(blocks: seq<seq<Topic>>, cats: seq<Category>, i: nat)
    requires InBlocks(blocks, cats) && NoDuplicates(cats) && i < |cats|
    ensures TopicsByCategory(Concat(blocks), cats[i]) == blocks[i]
  {
    assert InBlocks(blocks[1..], cats[1..]) by {
      forall j | 0 <= j < |blocks| - 1
        ensures AllOf(blocks[1..][j], InCategory(cats[1..][j]))
      {
        assert AllOf(blocks[j + 1], InCategory(cats[j + 1]));
      }
    }
    assert AllOf(blocks[0], InCategory(cats[0]));
    FilterAppend(blocks[0], Concat(blocks[1..]), InCategory(cats[i]));
    if i == 0 {
      FilterKeepsAll(blocks[0], InCategory(cats[0]));
      assert cats[0] !in cats[1..] by {
        forall j | 1 <= j < |cats| ensures cats[j] != cats[0] {
          assert cats[0] != cats[j];
        }
      }
      OutsideBlocks(blocks[1..], cats[1..], cats[0]);
    } else {
      assert cats[0] != cats[i];
      BlockOutside(blocks[0], cats[0], cats[i]);
      assert NoDuplicates(cats[1..]) by {
        forall j, k | 0 <= j < k < |cats| - 1 ensures cats[1..][j] != cats[1..][k] {
          assert cats[j + 1] != cats[k + 1];
        }
      }
      BlockIsSection(blocks[1..], cats[1..], i - 1);
    }
  }

  lemma {:induction false} SectionsFromBlock(blocks: seq<seq<Topic>>, cats: seq<Category>, k: nat)
    requires InBlocks(blocks, cats) && NoDuplicates(cats) && k <= |cats|
    ensures Sections(Concat(blocks), cats[k..]) == Concat(blocks[k..])
    decreases |cats| - k
  {
    if k < |cats| {
      SectionsFromBlock(blocks, cats, k + 1);
      BlockIsSection(blocks, cats, k);
      assert cats[k..][1..] == cats[k + 1..];
      assert blocks[k..][1..] == blocks[k + 1..];
    }
  }

  /** Such a catalog is already in roadmap order: reading the sections one
      after another gives back the catalog itself. */
  lemma SectionsFollowBlocks(blocks: seq<seq<Topic>>, cats: seq<Category>)
    requires InBlocks(blocks, cats) && NoDuplicates(cats)
    ensures Sections(Concat(blocks), cats) == Concat(blocks)
  {
    SectionsFromBlock(blocks, cats, 0);
    assert cats[0..] == cats && blocks[0..] == blocks;
  }
}
