// Rendering a session length in minutes as "1h 30m", and a reader for that
// rendering so the round trip can be stated.

module Durations {
  import opened Wrappers
  import opened Strings

  /** JavaScript's `%` on integers: the remainder takes the sign of the dividend. */
  function JsRem(a: int, b: int): (r: int)
    requires b > 0
    ensures a >= 0 ==> 0 <= r < b
    ensures a < 0 ==> -b < r <= 0
  {
    if a >= 0 then a % b else -((-a) % b)
  }

  /** `Math.floor(a / b)` for a positive divisor. */
  function FloorDiv(a: int, b: int): (q: int)
    requires b > 0
    ensures q * b <= a < q * b + b
  {
    a / b
  }

  /** `formatDuration`: hours by floor division, minutes by JavaScript remainder. */
  function FormatDuration(minutes: int): string {
    var h := FloorDiv(minutes, 60);
    var m := JsRem(minutes, 60);
    if h == 0 then IntToString(m) + "m"
    else if m == 0 then IntToString(h) + "h"
    else IntToString(h) + "h " + IntToString(m) + "m"
  }

  /** Reads a digit string (non-empty) as a number. */
  function ReadNat(s: string): Option<nat> {
    if |s| > 0 && AllDigits(s) then Some(DigitsValue(s)) else None
  }

  /** Reads `<m>m`, `<h>h` or `<h>h <m>m` back into minutes. */
  function ParseDuration(s: string): Option<int> {
    if |s| == 0 then None
    else
      var body := s[..|s| - 1];
      if s[|s| - 1] == 'h' then
        match ReadNat(body)
        case None => None
        case Some(h) => Some(h * 60)
      else if s[|s| - 1] == 'm' then
        match IndexOfChar(body, ' ')
        case None => ReadNat(body)
        case Some(k) =>
          var hp := body[..k];
          if |hp| > 0 && hp[|hp| - 1] == 'h' then
            match (ReadNat(hp[..|hp| - 1]), ReadNat(body[k + 1..]))
            case (Some(h), Some(m)) => Some(h * 60 + m)
            case _ => None
          else None
      else None
  }

  /** A rendered number reads back as itself. */
  lemma ReadNatToString(n: nat)
    ensures ReadNat(NatToString(n)) == Some(n)
  {
    NatToStringRoundTrip(n);
  }

  /** For a non-negative length the hours and minutes recompose it, and the minutes stay below an hour. */
  lemma FormatDurationParts(minutes: int)
    requires minutes >= 0
    ensures FloorDiv(minutes, 60) >= 0 && 0 <= JsRem(minutes, 60) < 60
    ensures FloorDiv(minutes, 60) * 60 + JsRem(minutes, 60) == minutes
  {
  }

  /** Round trip: reading back the rendering of a non-negative length gives the length. */
  lemma FormatDurationRoundTrip(minutes: int)
    requires minutes >= 0
    ensures ParseDuration(FormatDuration(minutes)) == Some(minutes)
  {
    var h := FloorDiv(minutes, 60);
    var m := JsRem(minutes, 60);
    FormatDurationParts(minutes);
    var hs, ms := NatToString(h), NatToString(m);
    ReadNatToString(h);
    ReadNatToString(m);
    var s := FormatDuration(minutes);
    if h == 0 {
      assert s == ms + "m";
      assert s[..|s| - 1] == ms;
      assert ' ' !in ms;
    } else if m == 0 {
      assert s == hs + "h";
      assert s[..|s| - 1] == hs;
    } else {
      assert s == hs + "h " + ms + "m";
      var body := s[..|s| - 1];
      assert body == hs + "h " + ms;
      var k := |hs| + 1;
      assert body[k] == ' ';
      assert ' ' !in body[..k] by {
        assert body[..k] == hs + "h";
      }
      assert IndexOfChar(body, ' ') == Some(k);
      assert body[..k][..|hs|] == hs;
      assert body[k + 1..] == ms;
    }
  }

  /** The three shapes of the rendering: `0m` for zero, whole hours without minutes, both otherwise. */
  lemma FormatDurationShapes()
    ensures FormatDuration(0) == "0m"
    ensures FormatDuration(45) == "45m"
    ensures FormatDuration(120) == "2h"
    ensures FormatDuration(90) == "1h 30m"
  {
    assert NatToString(45) == "45";
    assert NatToString(30) == "30";
  }

  /**
   * A negative length renders with floored hours and a truncated remainder,
   * so the pieces no longer recompose it: -30 renders as "-1h -30m".
   */
  lemma FormatDurationNegative()
    ensures FormatDuration(-30) == "-1h -30m"
    ensures FloorDiv(-30, 60) * 60 + JsRem(-30, 60) != -30
  {
    assert NatToString(30) == "30";
  }
}
