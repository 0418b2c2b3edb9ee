/** One lab row of a topic card: the heading "Lab A1 : <title>", the status
    badge and the "Requires:" line. */
module LabItem {
  import opened Optional
  import opened LabsData

  /** The lower-case letters that the heading's pattern `^[a-u]` matches. */
  predicate IsTopicPrefix(c: char)
  {
    'a' <= c <= 'u'
  }

  /** `id.replace(/^[a-u]/, "")`: the pattern is anchored and has no global
      flag, so at most the first character goes, and only when it lies in
      'a'..'u'. */
  function StripTopicLetter(id: string): (r: string)
    ensures |r| == |id| || |r| == |id| - 1
    ensures |r| < |id| <==> id != [] && IsTopicPrefix(id[0])
    ensures |r| < |id| ==> r == id[1..]
    ensures |r| == |id| ==> r == id
  {
    if id != [] && IsTopicPrefix(id[0]) then id[1..] else id
  }

  /** The heading text of a lab inside the card of the topic whose letter is
      `topicLetter`. The title is free text and not carried in `Lab`, so it
      is passed in. */
  function LabHeading(topicLetter: string, lab: Lab, title: string): (h: string)
    ensures |h| == 7 + |topicLetter| + |StripTopicLetter(lab.id)| + |title|
    ensures h[..4] == "Lab " && h[4..4 + |topicLetter|] == topicLetter
    ensures h[|h| - |title|..] == title
  {
    "Lab " + topicLetter + StripTopicLetter(lab.id) + " : " + title
  }

  /** The heading reads, from left to right: "Lab ", the topic letter, the
      lab id without its topic prefix, " : " and the title. */
  lemma LabHeadingLayout(topicLetter: string, lab: Lab, title: string)
    ensures var h := LabHeading(topicLetter, lab, title);
            var code := StripTopicLetter(lab.id);
            var n := 4 + |topicLetter| + |code|;
            && |h| == n + 3 + |title|
            && h[..4] == "Lab "
            && h[4..4 + |topicLetter|] == topicLetter
            && h[4 + |topicLetter|..n] == code
            && h[n..n + 3] == " : "
            && h[n + 3..] == title
  {
  }

  /** For an id made of a topic-prefix letter and a rest, the heading shows
      the topic letter followed by exactly that rest. */
  lemma LabHeadingDropsPrefix(topicLetter: string, lab: Lab, title: string)
    requires lab.id != [] && IsTopicPrefix(lab.id[0])
    ensures LabHeading(topicLetter, lab, title) == "Lab " + topicLetter + lab.id[1..] + " : " + title
  {
  }

  /** `statusConfig[status].label`. */
  function StatusLabel(s: Status): (text: string)
    ensures text != []
  {
    match s
    case NotStarted => "Not Started"
    case InProgress => "In Progress"
    case Complete => "Complete"
  }

  /** Every status has a badge label, and no two statuses share one. */
  lemma StatusLabelInjective(s: Status, t: Status)
    ensures StatusLabel(s) == StatusLabel(t) <==> s == t
  {
  }

  function TotalLength(parts: seq<string>): nat
  {
    if parts == [] then 0 else |parts[0]| + TotalLength(parts[1..])
  }

  /** `parts.join(sep)`: joining n parts adds n - 1 separators and nothing
      else. */
  function Join(parts: seq<string>, sep: string): (r: string)
    ensures |r| == TotalLength(parts) + if parts == [] then 0 else (|parts| - 1) * |sep|
  {
    if parts == [] then ""
    else if |parts| == 1 then parts[0]
    else
      var rest := Join(parts[1..], sep);
      assert (|parts| - 1) * |sep| == |sep| + (|parts| - 2) * |sep|;
      parts[0] + sep + rest
  }

  /** Where `parts[i]` starts in `Join(parts, sep)`. */
  function Offset(parts: seq<string>, sep: string, i: nat): nat
    requires i <= |parts|
  {
    if i == 0 then 0 else Offset(parts, sep, i - 1) + |parts[i - 1]| + |sep|
  }

  lemma {:induction false} OffsetShift(parts: seq<string>, sep: string, i: nat)
    requires 1 <= i <= |parts|
    ensures Offset(parts, sep, i) == |parts[0]| + |sep| + Offset(parts[1..], sep, i - 1)
  {
    if i > 1 {
      OffsetShift(parts, sep, i - 1);
    }
  }

  /** Slicing past a known prefix. */
  lemma SliceAfterPrefix(a: string, b: string, x: nat, y: nat)
    requires x <= y <= |b|
    ensures (a + b)[|a| + x..|a| + y] == b[x..y]
  {
  }

  /** The joined text holds the parts in their given order: `parts[i]`
      sits at `Offset(parts, sep, i)`. */
  lemma {:induction false} JoinPartAt(parts: seq<string>, sep: string, i: nat)
    requires i < |parts|
    ensures Offset(parts, sep, i) + |parts[i]| <= |Join(parts, sep)|
    ensures Join(parts, sep)[Offset(parts, sep, i)..Offset(parts, sep, i) + |parts[i]|] == parts[i]
  {
    if |parts| > 1 {
      var tail := Join(parts[1..], sep);
      var head := parts[0] + sep;
      assert Join(parts, sep) == head + tail;
      if i > 0 {
        JoinPartAt(parts[1..], sep, i - 1);
        OffsetShift(parts, sep, i);
        var o := Offset(parts[1..], sep, i - 1);
        assert parts[1..][i - 1] == parts[i];
        SliceAfterPrefix(head, tail, o, o + |parts[i]|);
      }
    }
  }

  /** Between consecutive parts stands exactly one separator. */
  lemma {:induction false} JoinSeparatorAt(parts: seq<string>, sep: string, i: nat)
    requires i + 1 < |parts|
    ensures Offset(parts, sep, i) + |parts[i]| + |sep| <= |Join(parts, sep)|
    ensures Join(parts, sep)[Offset(parts, sep, i) + |parts[i]|..Offset(parts, sep, i + 1)] == sep
  {
    var tail := Join(parts[1..], sep);
    var head := parts[0] + sep;
    assert Join(parts, sep) == head + tail;
    if i == 0 {
      assert (head + tail)[|parts[0]|..|head|] == sep;
    } else {
      JoinSeparatorAt(parts[1..], sep, i - 1);
      OffsetShift(parts, sep, i);
      OffsetShift(parts, sep, i + 1);
      var o := Offset(parts[1..], sep, i - 1);
      assert parts[1..][i - 1] == parts[i];
      SliceAfterPrefix(head, tail, o + |parts[i]|, Offset(parts[1..], sep, i));
    }
  }

  /** The last part ends the joined text. */
  lemma {:induction false} JoinEndsWithLast(parts: seq<string>, sep: string)
    requires parts != []
    ensures Offset(parts, sep, |parts| - 1) + |parts[|parts| - 1]| == |Join(parts, sep)|
  {
    if |parts| > 1 {
      JoinEndsWithLast(parts[1..], sep);
      OffsetShift(parts, sep, |parts| - 1);
    }
  }

  /** The "Requires:" line of a lab: shown only when it has prerequisites,
      which are listed in their given order, separated by ", ". */
  function RequiresLine(prereqs: seq<string>): (line: Option<string>)
    ensures line.Some? <==> prereqs != []
    ensures line.Some? ==> |line.value| >= 10 && line.value[..10] == "Requires: "
  {
    if |prereqs| > 0 then Some("Requires: " + Join(prereqs, ", ")) else None
  }

  /** Prerequisite `i` of the joined list, seen after a heading `head`:
      where it sits, and what follows it. */
  lemma {:induction false} JoinedAfter(head: string, parts: seq<string>, sep: string, i: nat)
    requires i < |parts|
    ensures var line := head + Join(parts, sep);
            var o := |head| + Offset(parts, sep, i);
            && o + |parts[i]| <= |line|
            && line[o..o + |parts[i]|] == parts[i]
            && (i + 1 < |parts| ==> o + |parts[i]| + |sep| <= |line| && line[o + |parts[i]|..o + |parts[i]| + |sep|] == sep)
            && (i + 1 == |parts| ==> o + |parts[i]| == |line|)
  {
    var text := Join(parts, sep);
    var o := Offset(parts, sep, i);
    var e := o + |parts[i]|;
    JoinPartAt(parts, sep, i);
    SliceAfterPrefix(head, text, o, e);
    if i + 1 < |parts| {
      JoinSeparatorAt(parts, sep, i);
      assert Offset(parts, sep, i + 1) == e + |sep|;
      SliceAfterPrefix(head, text, e, e + |sep|);
    } else {
      JoinEndsWithLast(parts, sep);
    }
  }

  /** The line lists the prerequisites in their given order: prerequisite
      `i` starts at `10 + Offset(prereqs, ", ", i)`, right after "Requires: "
      and the earlier ones; a ", " follows it, where the next one starts,
      unless it is the last, which ends the line. */
  lemma {:induction false} RequiresLineLists(prereqs: seq<string>, i: nat)
    requires i < |prereqs|
    ensures var line := RequiresLine(prereqs).value;
            var o := 10 + Offset(prereqs, ", ", i);
            && o + |prereqs[i]| <= |line|
            && line[o..o + |prereqs[i]|] == prereqs[i]
            && (i + 1 < |prereqs| ==> o + |prereqs[i]| + 2 <= |line| && line[o + |prereqs[i]|..o + |prereqs[i]| + 2] == ", ")
            && (i + 1 == |prereqs| ==> o + |prereqs[i]| == |line|)
  {
    var head: string := "Requires: ";
    assert RequiresLine(prereqs).value == head + Join(prereqs, ", ") && |head| == 10;
    JoinedAfter(head, prereqs, ", ", i);
  }

  /** The text after "Requires: " has each prerequisite and n - 1 separators. */
  lemma RequiresLineLength(prereqs: seq<string>)
    requires prereqs != []
    ensures |RequiresLine(prereqs).value| == 10 + TotalLength(prereqs) + 2 * (|prereqs| - 1)
  {
  }
}
