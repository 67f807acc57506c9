// `parseExpiry` of the auth routes: a token lifetime written `<digits><unit>`
// becomes a number of seconds; anything else falls back to fifteen minutes.

module Expiry {
  import opened Wrappers
  import opened Strings

  /** The lifetime used when the text does not match `^(\d+)([smhd])$`. */
  const DEFAULT_EXPIRY_SECONDS: nat := 900

  /** The multiplier used when the unit has no entry (`?? 60`). */
  const UNKNOWN_UNIT_MULTIPLIER: nat := 60

  /** The unit table: seconds per unit. */
  function Multiplier(unit: char): (r: Option<nat>)
    ensures r.Some? <==> unit in "smhd"
  {
    match unit
    case 's' => Some(1)
    case 'm' => Some(60)
    case 'h' => Some(3600)
    case 'd' => Some(86400)
    case _ => None
  }

  /** The anchored pattern `^(\d+)([smhd])$`: one or more digits, then exactly one unit letter, nothing else. */
  predicate MatchesExpiry(s: string) {
    && |s| >= 2
    && AllDigits(s[..|s| - 1])
    && s[|s| - 1] in "smhd"
  }

  /** `parseExpiry`: digits times the unit's seconds, or 900 when the pattern fails. */
  function ParseExpiry(s: string): (r: nat)
    ensures !MatchesExpiry(s) ==> r == DEFAULT_EXPIRY_SECONDS
  {
    if !MatchesExpiry(s) then DEFAULT_EXPIRY_SECONDS
    else DigitsValue(s[..|s| - 1]) * Multiplier(s[|s| - 1]).GetOr(UNKNOWN_UNIT_MULTIPLIER)
  }

  /** Every unit the pattern admits has a multiplier, so the `?? 60` fallback is never taken. */
  lemma UnknownUnitUnreachable(s: string)
    requires MatchesExpiry(s)
    ensures Multiplier(s[|s| - 1]).Some?
    ensures ParseExpiry(s) == DigitsValue(s[..|s| - 1]) * Multiplier(s[|s| - 1]).value
  {
  }

  /** Renders `n` with a unit letter, the shape the pattern accepts. */
  function FormatExpiry(n: nat, unit: char): string {
    NatToString(n) + [unit]
  }

  /** Round trip: `<n><unit>` parses to n times the unit's seconds (1, 60, 3600 or 86400). */
  lemma ParseExpiryRoundTrip(n: nat, unit: char)
    requires unit in "smhd"
    ensures MatchesExpiry(FormatExpiry(n, unit))
    ensures ParseExpiry(FormatExpiry(n, unit)) == n * Multiplier(unit).value
    ensures unit == 's' ==> ParseExpiry(FormatExpiry(n, unit)) == n
    ensures unit == 'm' ==> ParseExpiry(FormatExpiry(n, unit)) == n * 60
    ensures unit == 'h' ==> ParseExpiry(FormatExpiry(n, unit)) == n * 3600
    ensures unit == 'd' ==> ParseExpiry(FormatExpiry(n, unit)) == n * 86400
  {
    var s := FormatExpiry(n, unit);
    assert s[..|s| - 1] == NatToString(n);
    NatToStringRoundTrip(n);
  }

  /** The pattern is anchored: a non-digit in front, or any character after the unit, forces the default. */
  lemma ParseExpiryAnchored(s: string, c: char)
    requires MatchesExpiry(s)
    ensures !IsDigit(c) ==> ParseExpiry([c] + s) == DEFAULT_EXPIRY_SECONDS
    ensures ParseExpiry(s + [c]) == DEFAULT_EXPIRY_SECONDS
  {
    var front := [c] + s;
    assert front[..|front| - 1][0] == c;
    var back := s + [c];
    assert back[..|back| - 1] == s;
    assert !IsDigit(s[|s| - 1]);
  }

  /** Some concrete lifetimes: `15m` is 900 seconds, `7d` a week, and text such as `15 m` or the empty text the default. */
  lemma ParseExpiryExamples()
    ensures ParseExpiry("15m") == 900
    ensures ParseExpiry("7d") == 604800
    ensures ParseExpiry("15 m") == 900
    ensures ParseExpiry("") == 900
    ensures ParseExpiry("1h") == 3600
  {
    assert "15m"[..2] == "15" && "15"[..1] == "1" && "1"[..0] == "";
    assert DigitsValue("15") == 15;
    assert "7d"[..1] == "7" && "7"[..0] == "";
    assert DigitsValue("7") == 7;
    assert "1h"[..1] == "1";
    assert !IsDigit("15 m"[..3][2]);
  }
}
