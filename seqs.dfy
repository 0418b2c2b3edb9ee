/** Order-preserving selection over sequences: the model of JavaScript's
    `Array.prototype.filter`, which builds a fresh array holding, in their
    original order, the elements for which the callback returns true. */
module Seqs {

  /** The elements of `s` satisfying `p`, in their order in `s`. */
  function Filter<T>(s: seq<T>, p: T -> bool): (r: seq<T>)
    ensures |r| <= |s|
  {
    if s == [] then []
    else (if p(s[0]) then [s[0]] else []) + Filter(s[1..], p)
  }

  /** What a filter keeps: elements satisfying `p`, and every element of
      `s` that does. */
  lemma {:induction false} FilterMembers<T(!new)>(s: seq<T>, p: T -> bool)
    ensures forall i :: 0 <= i < |Filter(s, p)| ==> p(Filter(s, p)[i])
    ensures forall x :: x in Filter(s, p) <==> x in s && p(x)
  {
    if s != [] {
      FilterMembers(s[1..], p);
      assert s == [s[0]] + s[1..];
    }
  }

  /** `r` can be obtained from `s` by deleting elements (greedy matching,
      which decides the relation exactly). */
  ghost predicate IsSubsequence<T>(r: seq<T>, s: seq<T>)
    decreases |s|
  {
    if r == [] then true
    else if s == [] then false
    else if r[0] == s[0] then IsSubsequence(r[1..], s[1..])
    else IsSubsequence(r, s[1..])
  }

  /** A filter keeps the relative order of what it keeps. */
  lemma {:induction false} FilterIsSubsequence<T(!new)>(s: seq<T>, p: T -> bool)
    ensures IsSubsequence(Filter(s, p), s)
  {
    if s != [] {
      FilterIsSubsequence(s[1..], p);
      FilterMembers(s[1..], p);
      var r := Filter(s, p);
      if !p(s[0]) && r != [] {
        assert r == Filter(s[1..], p);
        assert p(r[0]);
      }
    }
  }

  /** Two sequences that start alike and filter alike still filter alike
      once their common first element is dropped. */
  lemma FilterDropCommonHead<T>(a: seq<T>, b: seq<T>, p: T -> bool)
    requires a != [] && b != [] && a[0] == b[0]
    requires Filter(a, p) == Filter(b, p)
    ensures Filter(a[1..], p) == Filter(b[1..], p)
  {
    var fa, fb := Filter(a[1..], p), Filter(b[1..], p);
    if p(a[0]) {
      assert Filter(a, p) == [a[0]] + fa;
      assert Filter(b, p) == [a[0]] + fb;
      assert fa == ([a[0]] + fa)[1..];
      assert fb == ([a[0]] + fb)[1..];
    } else {
      assert Filter(a, p) == fa;
      assert Filter(b, p) == fb;
    }
  }

  /** Every element is kept exactly as many times as it occurs, if it
      satisfies `p`, and dropped entirely otherwise. */
  lemma {:induction false} FilterMultiplicity<T>(s: seq<T>, p: T -> bool, x: T)
    ensures multiset(Filter(s, p))[x] == if p(x) then multiset(s)[x] else 0
  {
    if s != [] {
      FilterMultiplicity(s[1..], p, x);
      assert s == [s[0]] + s[1..];
    }
  }

  /** Filtering distributes over concatenation. */
  lemma {:induction false} FilterAppend<T>(a: seq<T>, b: seq<T>, p: T -> bool)
    ensures Filter(a + b, p) == Filter(a, p) + Filter(b, p)
  {
    if a != [] {
      assert (a + b)[1..] == a[1..] + b;
      FilterAppend(a[1..], b, p);
    } else {
      assert a + b == b;
    }
  }

  /** A filter keeps everything exactly when every element satisfies the
      predicate, and keeps nothing exactly when none does. */
  lemma {:induction false} FilterAllOrNone<T(!new)>(s: seq<T>, p: T -> bool)
    ensures |Filter(s, p)| == |s| <==> forall i :: 0 <= i < |s| ==> p(s[i])
    ensures Filter(s, p) == [] <==> forall i :: 0 <= i < |s| ==> !p(s[i])
  {
    if s != [] {
      FilterAllOrNone(s[1..], p);
      FilterMembers(s, p);
      if !p(s[0]) {
        assert |Filter(s, p)| <= |s[1..]|;
      }
      assert forall i :: 1 <= i < |s| ==> s[i] == s[1..][i - 1];
    }
  }

  ghost predicate NoDuplicates<T>(s: seq<T>)
  {
    forall i, j :: 0 <= i < j < |s| ==> s[i] != s[j]
  }

  /** Every element satisfies `p`, checked one element at a time. The
      quantified form is the definition (`AllOfMeans` relates the two); this
      recursive form is what the verifier can check on a concrete list by
      unfolding it. */
  predicate AllOf<T>(s: seq<T>, p: T -> bool)
  {
    s == [] || (p(s[0]) && AllOf(s[1..], p))
  }

  lemma {:induction false} AllOfMeans<T>(s: seq<T>, p: T -> bool)
    ensures AllOf(s, p) <==> forall i :: 0 <= i < |s| ==> p(s[i])
  {
    if s != [] {
      AllOfMeans(s[1..], p);
      assert forall i :: 1 <= i < |s| ==> s[i] == s[1..][i - 1];
    }
  }

  /** A filter that rejects nothing returns its input. */
  lemma {:induction false} FilterKeepsAll<T>(s: seq<T>, p: T -> bool)
    requires AllOf(s, p)
    ensures Filter(s, p) == s
  {
    if s != [] {
      FilterKeepsAll(s[1..], p);
      assert s == [s[0]] + s[1..];
    }
  }

  /** The blocks laid end to end. */
  function Concat<T>(blocks: seq<seq<T>>): (r: seq<T>)
  {
    if blocks == [] then [] else blocks[0] + Concat(blocks[1..])
  }

  /** Laying out the blocks from `k` on puts block `k` first, then the rest. */
  lemma ConcatStep<T>(blocks: seq<seq<T>>, k: nat)
    requires k < |blocks|
    ensures Concat(blocks[k..]) == blocks[k] + Concat(blocks[k + 1..])
  {
    assert blocks[k..][1..] == blocks[k + 1..];
  }

  /** Filtering blocks laid end to end is filtering each block. */
  lemma {:induction false} FilterConcat<T>(blocks: seq<seq<T>>, p: T -> bool, kept: seq<seq<T>>)
    requires |kept| == |blocks|
    requires forall j :: 0 <= j < |blocks| ==> Filter(blocks[j], p) == kept[j]
    ensures Filter(Concat(blocks), p) == Concat(kept)
  {
    if blocks != [] {
      FilterConcat(blocks[1..], p, kept[1..]);
      FilterAppend(blocks[0], Concat(blocks[1..]), p);
    }
  }
}
