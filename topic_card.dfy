/** The card of one topic: difficulty dots, demand bar, completed-lab count,
    the "Start Here" badge, the accent colour and the expand/collapse
    toggle that lists the topic's labs. */
module TopicCard {
  import opened Seqs
  import opened Optional
  import opened NumberText
  import opened LabsData
  import LabItem

  // ---------------------------------------------------------------------
  // DifficultyDots

  /** Five dots; dot `i` is filled exactly when `i < level`. */
  function DifficultyDots(level: int): (dots: seq<bool>)
    ensures |dots| == 5
    ensures forall i :: 0 <= i < 5 ==> (dots[i] <==> i < level)
  {
    seq(5, i => i < level)
  }

  predicate IsFilled(dot: bool)
  {
    dot
  }

  function FilledCount(dots: seq<bool>): nat
  {
    |Filter(dots, IsFilled)|
  }

  /** `level` clamped into 0..`hi`. */
  function Clamp(level: int, hi: nat): (n: nat)
    ensures n <= hi
    ensures 0 <= level <= hi ==> n == level
  {
    if level < 0 then 0 else if level > hi then hi else level
  }

  /** A row whose dot `i` is filled exactly when `i < m` has `m` filled
      dots, clamped to the row's length. */
  lemma {:induction false} PrefixFilledCount(dots: seq<bool>, m: int)
    requires forall i :: 0 <= i < |dots| ==> (dots[i] <==> i < m)
    ensures FilledCount(dots) == Clamp(m, |dots|)
  {
    if dots != [] {
      assert forall i :: 0 <= i < |dots[1..]| ==> (dots[1..][i] <==> i < m - 1);
      PrefixFilledCount(dots[1..], m - 1);
    }
  }

  /** Whatever `level` is, there are five dots; `min(max(level, 0), 5)` of
      them are filled, and the filled ones come first. */
  lemma DifficultyDotsFilled(level: int)
    ensures FilledCount(DifficultyDots(level)) == Clamp(level, 5)
    ensures forall i, j :: 0 <= i < j < 5 && DifficultyDots(level)[j] ==> DifficultyDots(level)[i]
  {
    PrefixFilledCount(DifficultyDots(level), level);
  }

  // ---------------------------------------------------------------------
  // DemandBar

  /** The bar's `width` style, `${level * 10}%`. */
  function DemandWidth(level: int): (style: string)
    ensures style != [] && style[|style| - 1] == '%'
  {
    IntToString(level * 10) + "%"
  }

  /** The bar's caption, `{level}/10`. */
  function DemandCaption(level: int): (caption: string)
    ensures |caption| > 3 && caption[|caption| - 3..] == "/10"
  {
    IntToString(level) + "/10"
  }

  /** The width reads back as ten times the level and the caption as the
      level itself, so a level of 10 fills the bar. */
  lemma DemandBarReadsBack(level: int)
    ensures var w := DemandWidth(level);
            ParseInt(w[..|w| - 1]) == Some(level * 10)
    ensures var c := DemandCaption(level);
            ParseInt(c[..|c| - 3]) == Some(level)
    ensures DemandWidth(level) == "100%" <==> level == 10
  {
    IntToStringRoundTrip(level * 10);
    IntToStringRoundTrip(level);
    assert DemandWidth(10) == "100%";
    IntToStringInjective(level * 10, 100);
    var w := DemandWidth(level);
    assert w[..|w| - 1] == IntToString(level * 10);
    var c := DemandCaption(level);
    assert c[..|c| - 3] == IntToString(level);
  }

  // ---------------------------------------------------------------------
  // Completed labs

  predicate IsComplete(lab: Lab)
  {
    lab.status == Complete
  }

  /** `topic.labs.filter((l) => l.status === "complete").length`. */
  function CompletedLabs(labs: seq<Lab>): (n: nat)
    ensures n <= |labs|
  {
    |Filter(labs, IsComplete)|
  }

  /** All labs are counted exactly when all are complete, and none exactly
      when none is. */
  lemma CompletedLabsExtremes(labs: seq<Lab>)
    ensures CompletedLabs(labs) == |labs| <==> forall i :: 0 <= i < |labs| ==> labs[i].status == Complete
    ensures CompletedLabs(labs) == 0 <==> forall i :: 0 <= i < |labs| ==> labs[i].status != Complete
  {
    FilterAllOrNone(labs, IsComplete);
  }

  /** The count is additive: the labs of two runs together count as the
      sum of each run's count. */
  lemma CompletedLabsAppend(a: seq<Lab>, b: seq<Lab>)
    ensures CompletedLabs(a + b) == CompletedLabs(a) + CompletedLabs(b)
  {
    FilterAppend(a, b, IsComplete);
  }

  /** The card's "{completedLabs}/{labs.length} labs" text. */
  function LabsProgress(topic: Topic): (text: string)
    ensures |text| > 7 && text[|text| - 5..] == " labs"
  {
    IntToString(CompletedLabs(topic.labs)) + "/" + IntToString(|topic.labs|) + " labs"
  }

  /** The text reads back as the two counts: the digits before the only '/'
      are the completed labs, the digits after it the number of labs. */
  lemma LabsProgressReadsBack(topic: Topic)
    ensures var text := LabsProgress(topic);
            var done := |IntToString(CompletedLabs(topic.labs))|;
            && done + 6 < |text|
            && text[done] == '/'
            && (forall i :: 0 <= i < |text| - 5 && text[i] == '/' ==> i == done)
            && ParseInt(text[..done]) == Some(CompletedLabs(topic.labs))
            && ParseInt(text[done + 1..|text| - 5]) == Some(|topic.labs|)
  {
    var a := IntToString(CompletedLabs(topic.labs));
    var b := IntToString(|topic.labs|);
    var text := LabsProgress(topic);
    assert text == a + "/" + b + " labs";
    assert text[..|a|] == a;
    assert text[|a| + 1..|text| - 5] == b;
    IntToStringRoundTrip(CompletedLabs(topic.labs));
    IntToStringRoundTrip(|topic.labs|);
    forall i | 0 <= i < |text| - 5 && i != |a|
      ensures text[i] != '/'
    {
      if i < |a| {
        assert text[i] == a[i];
      } else {
        assert text[i] == b[i - |a| - 1];
      }
    }
  }

  // ---------------------------------------------------------------------
  // Badge and accent

  /** The "Start Here" badge: shown, with that text, exactly for momentum
      starters. */
  function StartHereBadge(topic: Topic): (badge: Option<string>)
    ensures badge.Some? <==> topic.isMomentumStarter
    ensures badge.Some? ==> badge.value == "Start Here"
  {
    if topic.isMomentumStarter then Some("Start Here") else None
  }

  /** A catalog topic carries the badge exactly when it is listed among the
      momentum starters. */
  lemma StartHereMatchesStarters(topics: seq<Topic>, t: Topic)
    requires t in topics
    ensures StartHereBadge(t).Some? <==> t in MomentumStarters(topics)
  {
    MomentumStartersExact(topics);
  }

  /** `categoryColors[topic.category]`. */
  function AccentColor(topic: Topic): (colour: string)
    ensures colour != []
  {
    CategoryColor(topic.category)
  }

  // ---------------------------------------------------------------------
  // The expand / collapse state

  /** The stateful part of a card: `expanded`, flipped by every click on the
      header. `clicks` counts the clicks so far. */
  class Card {
    const topic: Topic
    var expanded: bool
    ghost var clicks: nat

    ghost predicate Valid()
      reads this
    {
      expanded <==> clicks % 2 == 1
    }

    /** `useState(false)`: a new card is collapsed. */
    constructor (topic: Topic)
      ensures Valid()
      ensures this.topic == topic && !expanded && clicks == 0
    {
      this.topic := topic;
      expanded := false;
      clicks := 0;
    }

    /** `setExpanded(!expanded)`. */
    method Click()
      requires Valid()
      modifies this
      ensures Valid()
      ensures expanded == !old(expanded) && clicks == old(clicks) + 1
    {
      expanded := !expanded;
      clicks := clicks + 1;
    }

    /** The labs listed under the header: all of them, in catalog order,
        while expanded, and none while collapsed. */
    function ListedLabs(): (labs: seq<Lab>)
      reads this
      ensures expanded ==> labs == topic.labs
      ensures !expanded ==> labs == []
    {
      if expanded then topic.labs else []
    }

    /** The headings of the listed labs, given their titles. */
    function ListedHeadings(titles: seq<string>): (headings: seq<string>)
      reads this
      requires |titles| == |topic.labs|
      ensures |headings| == |ListedLabs()|
      ensures forall i :: 0 <= i < |headings| ==>
                headings[i] == LabItem.LabHeading(topic.letter, topic.labs[i], titles[i])
    {
      var labs := ListedLabs();
      seq(|labs|, i requires 0 <= i < |labs| => LabItem.LabHeading(topic.letter, labs[i], titles[i]))
    }
  }

  /** Two clicks bring a card back to where it was. */
  method ClickTwice(card: Card)
    requires card.Valid()
    modifies card
    ensures card.Valid()
    ensures card.expanded == old(card.expanded)
    ensures card.ListedLabs() == old(card.ListedLabs())
  {
    card.Click();
    card.Click();
  }
}
