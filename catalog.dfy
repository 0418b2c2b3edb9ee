/** The catalog as shipped, cut down to the fields the queries and cards
    read (free text left out), and the facts the page relies on, checked
    against it. */
module Catalog {
  import opened Seqs
  import opened Optional
  import opened NumberText
  import opened LabsData
  import LabItem
  import TopicCard

  // ---- Foundations

  const TopicA: Topic :=
    Topic("topic-a", "A", Foundations, 2, 8, true, Some(1),
      [Lab("a1", [], NotStarted),
       Lab("a2", ["A1"], NotStarted),
       Lab("a3", ["A2"], NotStarted)])

  const TopicB: Topic :=
    Topic("topic-b", "B", Foundations, 3, 9, true, Some(2),
      [Lab("b1", [], NotStarted),
       Lab("b2", ["B1"], NotStarted),
       Lab("b3", ["B2"], NotStarted)])

  // ---- CoreArchitecture

  const TopicC: Topic :=
    Topic("topic-c", "C", CoreArchitecture, 2, 9, true, Some(3),
      [Lab("c1", ["A1"], NotStarted),
       Lab("c2", ["C1"], NotStarted),
       Lab("c3", ["C2"], NotStarted)])

  const TopicD: Topic :=
    Topic("topic-d", "D", CoreArchitecture, 2, 7, false, None,
      [Lab("d1", ["B1"], NotStarted),
       Lab("d2", ["D1", "C2"], NotStarted),
       Lab("d3", ["D2"], NotStarted)])

  const TopicE: Topic :=
    Topic("topic-e", "E", CoreArchitecture, 3, 8, true, Some(4),
      [Lab("e1", ["B1"], NotStarted),
       Lab("e2", ["E1"], NotStarted),
       Lab("e3", ["E2"], NotStarted)])

  const TopicF: Topic :=
    Topic("topic-f", "F", CoreArchitecture, 3, 8, true, Some(5),
      [Lab("f1", ["A1"], NotStarted),
       Lab("f2", ["F1", "C2"], NotStarted),
       Lab("f3", ["F2"], NotStarted)])

  // ---- Orchestration

  const TopicG: Topic :=
    Topic("topic-g", "G", Orchestration, 3, 7, false, None,
      [Lab("g1", ["C1"], NotStarted),
       Lab("g2", ["G1"], NotStarted),
       Lab("g3", ["G2"], NotStarted)])

  const TopicH: Topic :=
    Topic("topic-h", "H", Orchestration, 3, 8, false, None,
      [Lab("h1", ["B1"], NotStarted),
       Lab("h2", ["H1"], NotStarted),
       Lab("h3", ["H2"], NotStarted)])

  const TopicI: Topic :=
    Topic("topic-i", "I", Orchestration, 4, 9, false, None,
      [Lab("i1", ["G1", "C2"], NotStarted),
       Lab("i2", ["I1"], NotStarted),
       Lab("i3", ["I2"], NotStarted)])

  const TopicJ: Topic :=
    Topic("topic-j", "J", Orchestration, 3, 7, false, None,
      [Lab("j1", ["C1"], NotStarted),
       Lab("j2", ["J1", "E1"], NotStarted),
       Lab("j3", ["J2", "G2"], NotStarted)])

  // ---- Frameworks

  const TopicK: Topic :=
    Topic("topic-k", "K", Frameworks, 3, 7, false, None,
      [Lab("k1", ["C2", "E1"], NotStarted),
       Lab("k2", ["K1"], NotStarted),
       Lab("k3", ["K2", "N1"], NotStarted)])

  const TopicL: Topic :=
    Topic("topic-l", "L", Frameworks, 2, 6, false, None,
      [Lab("l1", ["I1"], NotStarted),
       Lab("l2", ["L1", "C2"], NotStarted),
       Lab("l3", ["L2", "I3"], NotStarted)])

  const TopicM: Topic :=
    Topic("topic-m", "M", Frameworks, 3, 6, false, None,
      [Lab("m1", ["I1"], NotStarted),
       Lab("m2", ["M1"], NotStarted),
       Lab("m3", ["M2", "L3"], NotStarted)])

  // ---- DataRetrieval

  const TopicN: Topic :=
    Topic("topic-n", "N", DataRetrieval, 3, 10, false, None,
      [Lab("n1", ["C1"], NotStarted),
       Lab("n2", ["N1"], NotStarted),
       Lab("n3", ["N2", "C2"], NotStarted)])

  // ---- IntegrationDeployment

  const TopicO: Topic :=
    Topic("topic-o", "O", IntegrationDeployment, 3, 7, false, None,
      [Lab("o1", [], NotStarted),
       Lab("o2", ["O1"], NotStarted),
       Lab("o3", ["O2", "C2"], NotStarted)])

  const TopicP: Topic :=
    Topic("topic-p", "P", IntegrationDeployment, 3, 8, false, None,
      [Lab("p1", ["D2"], NotStarted),
       Lab("p2", ["P1", "S1"], NotStarted),
       Lab("p3", ["P2"], NotStarted)])

  const TopicQ: Topic :=
    Topic("topic-q", "Q", IntegrationDeployment, 2, 5, false, None,
      [Lab("q1", [], NotStarted),
       Lab("q2", ["Q1", "G1"], NotStarted),
       Lab("q3", ["Q2", "H2"], NotStarted)])

  // ---- Specializations

  const TopicR: Topic :=
    Topic("topic-r", "R", Specializations, 4, 6, false, None,
      [Lab("r1", ["O2"], NotStarted),
       Lab("r2", ["R1"], NotStarted),
       Lab("r3", ["R2", "C2"], NotStarted)])

  const TopicS: Topic :=
    Topic("topic-s", "S", Specializations, 3, 8, false, None,
      [Lab("s1", ["B2"], NotStarted),
       Lab("s2", ["S1"], NotStarted),
       Lab("s3", ["S2"], NotStarted)])

  const TopicT: Topic :=
    Topic("topic-t", "T", Specializations, 3, 7, false, None,
      [Lab("t1", ["C1"], NotStarted),
       Lab("t2", ["T1", "C2"], NotStarted),
       Lab("t3", ["T2"], NotStarted)])

  const TopicU: Topic :=
    Topic("topic-u", "U", Specializations, 3, 7, false, None,
      [Lab("u1", [], NotStarted),
       Lab("u2", ["U1", "C1"], NotStarted),
       Lab("u3", ["U2"], NotStarted)])

  // ---------------------------------------------------------------------
  // The catalog lists its topics category by category, in roadmap order.

  const FoundationTopics: seq<Topic> := [TopicA, TopicB]

  const CoreArchitectureTopics: seq<Topic> := [TopicC, TopicD, TopicE, TopicF]

  const OrchestrationTopics: seq<Topic> := [TopicG, TopicH, TopicI, TopicJ]

  const FrameworkTopics: seq<Topic> := [TopicK, TopicL, TopicM]

  const DataRetrievalTopics: seq<Topic> := [TopicN]

  const IntegrationDeploymentTopics: seq<Topic> := [TopicO, TopicP, TopicQ]

  const SpecializationTopics: seq<Topic> := [TopicR, TopicS, TopicT, TopicU]

  const Blocks: seq<seq<Topic>> :=
    [FoundationTopics, CoreArchitectureTopics, OrchestrationTopics, FrameworkTopics,
     DataRetrievalTopics, IntegrationDeploymentTopics, SpecializationTopics]

  /** `topics`: the blocks one after another. */
  const Topics: seq<Topic> := Concat(Blocks)

  lemma TopicsUnrolled()
    ensures Topics == FoundationTopics + (CoreArchitectureTopics + (OrchestrationTopics +
              (FrameworkTopics + (DataRetrievalTopics + (IntegrationDeploymentTopics +
              SpecializationTopics)))))
  {
    forall k | 0 <= k < |Blocks| {
      ConcatStep(Blocks, k);
    }
    assert Blocks[|Blocks|..] == [];
  }

  // ---------------------------------------------------------------------
  // The shape of the shipped entries

  /** The `i`-th letter of the alphabet, upper and lower case. */
  function UpperLetter(i: nat): (c: char)
    requires i < 26
    ensures 'A' <= c <= 'Z'
  {
    ('A' as int + i) as char
  }

  function LowerLetter(i: nat): (c: char)
    requires i < 26
    ensures 'a' <= c <= 'z'
    ensures LabItem.IsTopicPrefix(c) <==> i < 21
  {
    ('a' as int + i) as char
  }

  /** Lab `k` of topic `i`: its id is the topic's lower-case letter followed
      by the digit `k + 1`, and it has not been started. */
  predicate LabShaped(lab: Lab, i: nat, k: nat)
    requires i < 26 && k < 9
  {
    lab.id == [LowerLetter(i), DigitChar(k + 1)] && lab.status == NotStarted
  }

  /** Topic `i` carries the `i`-th letter, the id "topic-" and that letter
      in lower case, and three labs shaped as above. */
  predicate TopicShaped(t: Topic, i: nat)
  {
    && i < 26
    && t.letter == [UpperLetter(i)]
    && t.id == "topic-" + [LowerLetter(i)]
    && |t.labs| == 3
    && LabShaped(t.labs[0], i, 0) && LabShaped(t.labs[1], i, 1) && LabShaped(t.labs[2], i, 2)
  }

  /** Every topic of `s` is shaped, counting positions from `n`. */
  predicate ShapedFrom(s: seq<Topic>, n: nat)
  {
    s == [] || (TopicShaped(s[0], n) && ShapedFrom(s[1..], n + 1))
  }

  lemma {:induction false} ShapedFromAppend(a: seq<Topic>, b: seq<Topic>, n: nat)
    requires ShapedFrom(a, n) && ShapedFrom(b, n + |a|)
    ensures ShapedFrom(a + b, n)
  {
    if a == [] {
      assert a + b == b;
    } else {
      ShapedFromAppend(a[1..], b, n + 1);
      assert (a + b)[0] == a[0];
      assert (a + b)[1..] == a[1..] + b;
    }
  }

  lemma {:induction false} ShapedFromMeans(s: seq<Topic>, n: nat)
    requires ShapedFrom(s, n)
    ensures forall i :: 0 <= i < |s| ==> TopicShaped(s[i], n + i)
  {
    if s != [] {
      ShapedFromMeans(s[1..], n + 1);
      assert forall i :: 1 <= i < |s| ==> s[i] == s[1..][i - 1];
    }
  }

  // ---------------------------------------------------------------------
  // Block by block
  //
  // The verifier unfolds a recursive definition only a step or two into a
  // constant list, so each fact about a block is established from its last
  // topic backwards: every `assert` below states the fact for one more
  // topic, and the lemma's `ensures` is the fact for the whole block.

  lemma FoundationTopicsShaped()
    ensures ShapedFrom(FoundationTopics, 0)
  {
    assert ShapedFrom([TopicB], 1);
    assert ShapedFrom([TopicA, TopicB], 0);
  }

  lemma FoundationTopicsInCategory()
    ensures AllOf(FoundationTopics, InCategory(Foundations))
  {
    assert AllOf([TopicB], InCategory(Foundations));
    assert AllOf([TopicA, TopicB], InCategory(Foundations));
  }

  lemma FoundationTopicsFlagged()
    ensures Filter(FoundationTopics, IsStarter) == [TopicA, TopicB]
  {
    assert Filter([TopicB], IsStarter) == [TopicB];
    assert Filter([TopicA, TopicB], IsStarter) == [TopicA, TopicB];
  }

  lemma CoreArchitectureTopicsShaped()
    ensures ShapedFrom(CoreArchitectureTopics, 2)
  {
    assert ShapedFrom([TopicF], 5);
    assert ShapedFrom([TopicE, TopicF], 4);
    assert ShapedFrom([TopicD, TopicE, TopicF], 3);
    assert ShapedFrom([TopicC, TopicD, TopicE, TopicF], 2);
  }

  lemma CoreArchitectureTopicsInCategory()
    ensures AllOf(CoreArchitectureTopics, InCategory(CoreArchitecture))
  {
    assert AllOf([TopicF], InCategory(CoreArchitecture));
    assert AllOf([TopicE, TopicF], InCategory(CoreArchitecture));
    assert AllOf([TopicD, TopicE, TopicF], InCategory(CoreArchitecture));
    assert AllOf([TopicC, TopicD, TopicE, TopicF], InCategory(CoreArchitecture));
  }

  lemma CoreArchitectureTopicsFlagged()
    ensures Filter(CoreArchitectureTopics, IsStarter) == [TopicC, TopicE, TopicF]
  {
    assert Filter([TopicF], IsStarter) == [TopicF];
    assert Filter([TopicE, TopicF], IsStarter) == [TopicE, TopicF];
    assert Filter([TopicD, TopicE, TopicF], IsStarter) == [TopicE, TopicF];
    assert Filter([TopicC, TopicD, TopicE, TopicF], IsStarter) == [TopicC, TopicE, TopicF];
  }

  lemma OrchestrationTopicsShaped()
    ensures ShapedFrom(OrchestrationTopics, 6)
  {
    assert ShapedFrom([TopicJ], 9);
    assert ShapedFrom([TopicI, TopicJ], 8);
    assert ShapedFrom([TopicH, TopicI, TopicJ], 7);
    assert ShapedFrom([TopicG, TopicH, TopicI, TopicJ], 6);
  }

  lemma OrchestrationTopicsInCategory()
    ensures AllOf(OrchestrationTopics, InCategory(Orchestration))
  {
    assert AllOf([TopicJ], InCategory(Orchestration));
    assert AllOf([TopicI, TopicJ], InCategory(Orchestration));
    assert AllOf([TopicH, TopicI, TopicJ], InCategory(Orchestration));
    assert AllOf([TopicG, TopicH, TopicI, TopicJ], InCategory(Orchestration));
  }

  lemma OrchestrationTopicsFlagged()
    ensures Filter(OrchestrationTopics, IsStarter) == []
  {
    assert Filter([TopicJ], IsStarter) == [];
    assert Filter([TopicI, TopicJ], IsStarter) == [];
    assert Filter([TopicH, TopicI, TopicJ], IsStarter) == [];
    assert Filter([TopicG, TopicH, TopicI, TopicJ], IsStarter) == [];
  }

  lemma FrameworkTopicsShaped()
    ensures ShapedFrom(FrameworkTopics, 10)
  {
    assert ShapedFrom([TopicM], 12);
    assert ShapedFrom([TopicL, TopicM], 11);
    assert ShapedFrom([TopicK, TopicL, TopicM], 10);
  }

  lemma FrameworkTopicsInCategory()
    ensures AllOf(FrameworkTopics, InCategory(Frameworks))
  {
    assert AllOf([TopicM], InCategory(Frameworks));
    assert AllOf([TopicL, TopicM], InCategory(Frameworks));
    assert AllOf([TopicK, TopicL, TopicM], InCategory(Frameworks));
  }

  lemma FrameworkTopicsFlagged()
    ensures Filter(FrameworkTopics, IsStarter) == []
  {
    assert Filter([TopicM], IsStarter) == [];
    assert Filter([TopicL, TopicM], IsStarter) == [];
    assert Filter([TopicK, TopicL, TopicM], IsStarter) == [];
  }

  lemma DataRetrievalTopicsShaped()
    ensures ShapedFrom(DataRetrievalTopics, 13)
  {
    assert ShapedFrom([TopicN], 13);
  }

  lemma DataRetrievalTopicsInCategory()
    ensures AllOf(DataRetrievalTopics, InCategory(DataRetrieval))
  {
    assert AllOf([TopicN], InCategory(DataRetrieval));
  }

  lemma DataRetrievalTopicsFlagged()
    ensures Filter(DataRetrievalTopics, IsStarter) == []
  {
    assert Filter([TopicN], IsStarter) == [];
  }

  lemma IntegrationDeploymentTopicsShaped()
    ensures ShapedFrom(IntegrationDeploymentTopics, 14)
  {
    assert ShapedFrom([TopicQ], 16);
    assert ShapedFrom([TopicP, TopicQ], 15);
    assert ShapedFrom([TopicO, TopicP, TopicQ], 14);
  }

  lemma IntegrationDeploymentTopicsInCategory()
    ensures AllOf(IntegrationDeploymentTopics, InCategory(IntegrationDeployment))
  {
    assert AllOf([TopicQ], InCategory(IntegrationDeployment));
    assert AllOf([TopicP, TopicQ], InCategory(IntegrationDeployment));
    assert AllOf([TopicO, TopicP, TopicQ], InCategory(IntegrationDeployment));
  }

  lemma IntegrationDeploymentTopicsFlagged()
    ensures Filter(IntegrationDeploymentTopics, IsStarter) == []
  {
    assert Filter([TopicQ], IsStarter) == [];
    assert Filter([TopicP, TopicQ], IsStarter) == [];
    assert Filter([TopicO, TopicP, TopicQ], IsStarter) == [];
  }

  lemma SpecializationTopicsShaped()
    ensures ShapedFrom(SpecializationTopics, 17)
  {
    assert ShapedFrom([TopicU], 20);
    assert ShapedFrom([TopicT, TopicU], 19);
    assert ShapedFrom([TopicS, TopicT, TopicU], 18);
    assert ShapedFrom([TopicR, TopicS, TopicT, TopicU], 17);
  }

  lemma SpecializationTopicsInCategory()
    ensures AllOf(SpecializationTopics, InCategory(Specializations))
  {
    assert AllOf([TopicU], InCategory(Specializations));
    assert AllOf([TopicT, TopicU], InCategory(Specializations));
    assert AllOf([TopicS, TopicT, TopicU], InCategory(Specializations));
    assert AllOf([TopicR, TopicS, TopicT, TopicU], InCategory(Specializations));
  }

  lemma SpecializationTopicsFlagged()
    ensures Filter(SpecializationTopics, IsStarter) == []
  {
    assert Filter([TopicU], IsStarter) == [];
    assert Filter([TopicT, TopicU], IsStarter) == [];
    assert Filter([TopicS, TopicT, TopicU], IsStarter) == [];
    assert Filter([TopicR, TopicS, TopicT, TopicU], IsStarter) == [];
  }

  // ---------------------------------------------------------------------
  // The whole catalog

  lemma LaterBlocksShaped()
    ensures ShapedFrom(FrameworkTopics + (DataRetrievalTopics + (IntegrationDeploymentTopics +
              SpecializationTopics)), 10)
  {
    var b3, b4, b5, b6 := FrameworkTopics, DataRetrievalTopics, IntegrationDeploymentTopics, SpecializationTopics;
    FrameworkTopicsShaped();
    DataRetrievalTopicsShaped();
    IntegrationDeploymentTopicsShaped();
    SpecializationTopicsShaped();
    ShapedFromAppend(b5, b6, 14);
    ShapedFromAppend(b4, b5 + b6, 13);
    ShapedFromAppend(b3, b4 + (b5 + b6), 10);
  }

  lemma EarlierBlocksShaped(rest: seq<Topic>)
    requires ShapedFrom(rest, 10)
    ensures ShapedFrom(FoundationTopics + (CoreArchitectureTopics + (OrchestrationTopics + rest)), 0)
  {
    var b0, b1, b2 := FoundationTopics, CoreArchitectureTopics, OrchestrationTopics;
    FoundationTopicsShaped();
    CoreArchitectureTopicsShaped();
    OrchestrationTopicsShaped();
    ShapedFromAppend(b2, rest, 6);
    ShapedFromAppend(b1, b2 + rest, 2);
    ShapedFromAppend(b0, b1 + (b2 + rest), 0);
  }

  lemma CatalogShapedFrom()
    ensures ShapedFrom(Topics, 0)
  {
    var rest := FrameworkTopics + (DataRetrievalTopics + (IntegrationDeploymentTopics + SpecializationTopics));
    LaterBlocksShaped();
    EarlierBlocksShaped(rest);
    TopicsUnrolled();
  }

  /** Topic `i` of the catalog is the `i`-th letter, A to U. */
  lemma CatalogShape()
    ensures |Topics| == 21
    ensures forall i :: 0 <= i < 21 ==> TopicShaped(Topics[i], i)
  {
    CatalogShapedFrom();
    TopicsUnrolled();
    ShapedFromMeans(Topics, 0);
  }

  /** 21 topics with distinct ids and distinct letters, three labs each,
      63 labs in all. */
  lemma CatalogCounts()
    ensures |Topics| == 21
    ensures forall i :: 0 <= i < |Topics| ==> |Topics[i].labs| == 3
    ensures TotalLabs(Topics) == 63
    ensures forall i, j :: 0 <= i < j < |Topics| ==> Topics[i].id != Topics[j].id
    ensures forall i, j :: 0 <= i < j < |Topics| ==> Topics[i].letter != Topics[j].letter
  {
    CatalogShape();
    TotalLabsUniform(Topics, 3);
    forall i, j | 0 <= i < j < |Topics|
      ensures Topics[i].id != Topics[j].id && Topics[i].letter != Topics[j].letter
    {
      assert Topics[i].id[6] == LowerLetter(i) && Topics[j].id[6] == LowerLetter(j);
      assert Topics[i].letter[0] == UpperLetter(i) && Topics[j].letter[0] == UpperLetter(j);
    }
  }

  /** The number of labs over all topics. */
  function TotalLabs(topics: seq<Topic>): nat
  {
    if topics == [] then 0 else |topics[0].labs| + TotalLabs(topics[1..])
  }

  lemma {:induction false} TotalLabsUniform(topics: seq<Topic>, per: nat)
    requires forall i :: 0 <= i < |topics| ==> |topics[i].labs| == per
    ensures TotalLabs(topics) == per * |topics|
  {
    if topics != [] {
      assert forall i :: 0 <= i < |topics| - 1 ==> topics[1..][i] == topics[i + 1];
      TotalLabsUniform(topics[1..], per);
    }
  }

  /** The header badge's counts, written the way the page writes numbers. */
  function CountsBadge(topics: seq<Topic>): string
  {
    IntToString(|topics|) + " Topics / " + IntToString(TotalLabs(topics)) + " Labs"
  }

  /** The badge text "21 Topics / 63 Labs", written into the page by hand,
      agrees with the catalog. */
  lemma CatalogBadge()
    ensures CountsBadge(Topics) == "21 Topics / 63 Labs"
  {
    CatalogCounts();
    BadgeNumbers();
  }

  lemma BadgeNumbers()
    ensures IntToString(21) == "21" && IntToString(63) == "63"
  {
  }

  /** Every shipped lab's heading reads "Lab ", the topic's letter, the lab's
      number and the title ("Lab A1 : ..."): the lab id starts with the
      topic's lower-case letter, which lies in a..u and is stripped. */
  lemma CatalogLabHeadings(i: nat, k: nat, title: string)
    requires i < |Topics| && k < |Topics[i].labs|
    ensures LabItem.LabHeading(Topics[i].letter, Topics[i].labs[k], title)
            == "Lab " + Topics[i].letter + IntToString(k + 1) + " : " + title
  {
    CatalogShape();
    var t := Topics[i];
    assert TopicShaped(t, i);
    assert t.labs[k].id == [LowerLetter(i), DigitChar(k + 1)] by {
      if k == 0 {
        assert LabShaped(t.labs[0], i, 0);
      } else if k == 1 {
        assert LabShaped(t.labs[1], i, 1);
      } else {
        assert LabShaped(t.labs[2], i, 2);
      }
    }
    assert LabItem.StripTopicLetter(t.labs[k].id) == [DigitChar(k + 1)] == IntToString(k + 1);
  }

  /** A topic with three labs, none of them complete, reads "0/3 labs". */
  lemma NoneCompleteProgress(t: Topic)
    requires |t.labs| == 3
    requires forall k :: 0 <= k < 3 ==> t.labs[k].status != Complete
    ensures TopicCard.CompletedLabs(t.labs) == 0
    ensures TopicCard.LabsProgress(t) == "0/3 labs"
  {
    TopicCard.CompletedLabsExtremes(t.labs);
    assert IntToString(0) == "0" && IntToString(3) == "3";
  }

  /** No shipped lab has been started, so every card reads "0/3 labs". */
  lemma CatalogProgress(i: nat)
    requires i < |Topics|
    ensures TopicCard.CompletedLabs(Topics[i].labs) == 0
    ensures TopicCard.LabsProgress(Topics[i]) == "0/3 labs"
  {
    CatalogShape();
    var t := Topics[i];
    assert TopicShaped(t, i);
    assert LabShaped(t.labs[0], i, 0) && LabShaped(t.labs[1], i, 1) && LabShaped(t.labs[2], i, 2);
    NoneCompleteProgress(t);
  }

  // ---------------------------------------------------------------------
  // Sections

  lemma CatalogBlocks()
    ensures InBlocks(Blocks, CategoryOrder)
  {
    FoundationTopicsInCategory();
    CoreArchitectureTopicsInCategory();
    OrchestrationTopicsInCategory();
    FrameworkTopicsInCategory();
    DataRetrievalTopicsInCategory();
    IntegrationDeploymentTopicsInCategory();
    SpecializationTopicsInCategory();
  }

  /** The roadmap's sections: block `i` is the section of the `i`-th
      category. */
  lemma CatalogSectionsAreBlocks()
    ensures forall i :: 0 <= i < |CategoryOrder| ==> TopicsByCategory(Topics, CategoryOrder[i]) == Blocks[i]
  {
    CatalogBlocks();
    CategoryOrderListsEachOnce();
    forall i | 0 <= i < |CategoryOrder|
      ensures TopicsByCategory(Topics, CategoryOrder[i]) == Blocks[i]
    {
      BlockIsSection(Blocks, CategoryOrder, i);
    }
  }

  /** Orchestration is G, H, I, J; no section is empty, so each is shown;
      and reading the sections in order gives back the catalog. */
  lemma CatalogSections()
    ensures TopicsByCategory(Topics, Orchestration) == [TopicG, TopicH, TopicI, TopicJ]
    ensures forall c :: TopicsByCategory(Topics, c) != []
    ensures Sections(Topics, CategoryOrder) == Topics
  {
    CatalogSectionsAreBlocks();
    assert TopicsByCategory(Topics, CategoryOrder[2]) == Blocks[2];
    forall c ensures TopicsByCategory(Topics, c) != [] {
      var i := CategoryIndex(c);
      assert TopicsByCategory(Topics, CategoryOrder[i]) == Blocks[i];
    }
    CatalogBlocks();
    CategoryOrderListsEachOnce();
    SectionsFollowBlocks(Blocks, CategoryOrder);
  }

  // ---------------------------------------------------------------------
  // Momentum starters

  /** The flagged topics, in catalog order. */
  lemma CatalogFlagged()
    ensures Filter(Topics, IsStarter) == [TopicA, TopicB, TopicC, TopicE, TopicF]
  {
    var kept := [[TopicA, TopicB], [TopicC, TopicE, TopicF], [], [], [], [], []];
    FoundationTopicsFlagged();
    CoreArchitectureTopicsFlagged();
    OrchestrationTopicsFlagged();
    FrameworkTopicsFlagged();
    DataRetrievalTopicsFlagged();
    IntegrationDeploymentTopicsFlagged();
    SpecializationTopicsFlagged();
    FilterConcat(Blocks, IsStarter, kept);
    forall k | 0 <= k < |kept| {
      ConcatStep(kept, k);
    }
    assert kept[|kept|..] == [];
  }

  /** The flagged topics carry the orders 1 to 5, in catalog order. */
  lemma FlaggedOrders()
    ensures OrdersAscending([TopicA, TopicB, TopicC, TopicE, TopicF])
    ensures forall i :: 0 <= i < 5 ==> [TopicA, TopicB, TopicC, TopicE, TopicF][i].momentumOrder == Some(i + 1)
  {
    assert OrdersAscending([TopicE, TopicF]);
    assert OrdersAscending([TopicC, TopicE, TopicF]);
    assert OrdersAscending([TopicB, TopicC, TopicE, TopicF]);
  }

  /** `getMomentumStarters()` on the shipped catalog: topics A, B, C, E and
      F, with orders 1 to 5 in that order; five of them, as the page's
      introduction to the section says. */
  lemma CatalogStarters()
    ensures MomentumStarters(Topics) == [TopicA, TopicB, TopicC, TopicE, TopicF]
    ensures |MomentumStarters(Topics)| == 5
    ensures forall i :: 0 <= i < 5 ==> MomentumStarters(Topics)[i].momentumOrder == Some(i + 1)
  {
    CatalogFlagged();
    FlaggedOrders();
    FlaggedInOrderAreStarters(Topics);
  }
}
