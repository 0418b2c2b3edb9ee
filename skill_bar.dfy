/** A skill bar of the résumé page: a bar coloured by the skill's level,
    whose width and percentage text show `animated`, a value that starts
    at 0 and takes the level when the start-up timer fires. */
module SkillBar {
  import opened Optional
  import opened NumberText

  /** `barColor`: the colour class of the bar for a level. */
  function BarColor(level: int): (colour: string)
    ensures colour != []
  {
    if level >= 90 then "bg-emerald-500"
    else if level >= 80 then "bg-teal-500"
    else if level >= 70 then "bg-sky-500"
    else "bg-violet-500"
  }

  /** Each colour is used for exactly one band of levels; the four bands
      are disjoint and together cover every level. */
  lemma BarColorBands(level: int)
    ensures BarColor(level) == "bg-emerald-500" <==> level >= 90
    ensures BarColor(level) == "bg-teal-500" <==> 80 <= level < 90
    ensures BarColor(level) == "bg-sky-500" <==> 70 <= level < 80
    ensures BarColor(level) == "bg-violet-500" <==> level < 70
  {
    assert "bg-emerald-500"[3] == 'e' && "bg-teal-500"[3] == 't';
    assert "bg-sky-500"[3] == 's' && "bg-violet-500"[3] == 'v';
  }

  /** The display state of one bar. */
  class Bar {
    const level: int
    var animated: int

    /** `useState(0)`: before the timer fires the bar shows 0. */
    constructor (level: int)
      ensures this.level == level && animated == 0
    {
      this.level := level;
      animated := 0;
    }

    /** The timer callback `setAnimated(level)`. */
    method TimerFires()
      modifies this
      ensures animated == level
    {
      animated := level;
    }

    /** The percentage text `{animated}%`, which is also the bar's `width`
        style `${animated}%`: both read back as `animated`. */
    function Percent(): (text: string)
      reads this
      ensures |text| > 1 && text[|text| - 1] == '%'
      ensures ParseInt(text[..|text| - 1]) == Some(animated)
    {
      IntToStringRoundTrip(animated);
      var text := IntToString(animated) + "%";
      assert text[..|text| - 1] == IntToString(animated);
      text
    }
  }
}
