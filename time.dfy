/**
 * TTL parsing and duration formatting (src/utils/time.ts). The clock is a
 * parameter: every instant is an integer number of milliseconds.
 */
module Time {
  import opened Wrappers

  predicate IsDigit(c: char) { '0' <= c <= '9' }

  predicate AllDigits(s: string) { forall i :: 0 <= i < |s| ==> IsDigit(s[i]) }

  /** The TTL units accepted after the digits. */
  predicate IsUnit(c: char) { c == 's' || c == 'm' || c == 'h' || c == 'd' }

  /** Seconds per unit; the source's MULTIPLIERS table. */
  function Multiplier(unit: char): nat
  {
    match unit
    case 's' => 1
    case 'm' => 60
    case 'h' => 3600
    case 'd' => 86400
    case _ => 0
  }

  /** Decimal value of a digit string, most significant digit first (Number.parseInt with radix 10). */
  function DigitsValue(s: string): nat
    requires AllDigits(s)
  {
    if s == [] then 0 else 10 * DigitsValue(s[..|s| - 1]) + (s[|s| - 1] as int - '0' as int)
  }

  function DigitChar(d: nat): (c: char)
    requires d < 10
    ensures IsDigit(c) && c as int - '0' as int == d
  {
    (d + '0' as int) as char
  }

  /** Decimal rendering of a natural number, as a template literal prints it. */
  function NatToString(n: nat): (r: string)
    ensures |r| >= 1 && AllDigits(r)
  {
    if n < 10 then [DigitChar(n)] else NatToString(n / 10) + [DigitChar(n % 10)]
  }

  lemma {:induction false} DigitsValueOfNatToString(n: nat)
    ensures DigitsValue(NatToString(n)) == n
  {
    if n >= 10 {
      var r := NatToString(n);
      assert r[..|r| - 1] == NatToString(n / 10);
      DigitsValueOfNatToString(n / 10);
    }
  }

  /** The pattern `^(\d+)(s|m|h|d)$`. */
  predicate IsTtl(s: string)
  {
    |s| >= 2 && IsUnit(s[|s| - 1]) && AllDigits(s[..|s| - 1])
  }

  datatype TtlError = InvalidTtlFormat(ttl: string)

  /** parseTTL: the number of seconds a TTL string denotes, or "Invalid TTL format". */
  function ParseTtl(ttl: string): (r: Result<nat, TtlError>)
    ensures r.Success? <==> IsTtl(ttl)
    ensures r.Failure? ==> r.error == InvalidTtlFormat(ttl)
  {
    if IsTtl(ttl) then Success(DigitsValue(ttl[..|ttl| - 1]) * Multiplier(ttl[|ttl| - 1]))
    else Failure(InvalidTtlFormat(ttl))
  }

  /** A TTL written as the decimal number `v` followed by `unit` parses back to `v` units. */
  lemma ParseTtlOfRendered(v: nat, unit: char)
    requires IsUnit(unit)
    ensures ParseTtl(NatToString(v) + [unit]) == Success(v * Multiplier(unit))
  {
    var s := NatToString(v) + [unit];
    assert s[..|s| - 1] == NatToString(v);
    DigitsValueOfNatToString(v);
  }

  /** The rejected examples: empty, no unit, no digits, unknown unit. */
  lemma ParseTtlRejects()
    ensures ParseTtl("").Failure? && ParseTtl("10").Failure?
    ensures ParseTtl("abc").Failure? && ParseTtl("10x").Failure?
    ensures ParseTtl("s").Failure? && ParseTtl("-5m").Failure?
  {
    var neg := "-5m";
    assert neg[..2][0] == '-';
  }

  /** formatDuration's three components: whole hours, remaining minutes, remaining seconds. */
  function Hours(n: nat): nat { n / 3600 }
  function Minutes(n: nat): nat { (n % 3600) / 60 }
  function Secs(n: nat): nat { n % 60 }

  lemma ComponentsRecompose(n: nat)
    ensures Hours(n) * 3600 + Minutes(n) * 60 + Secs(n) == n
    ensures Minutes(n) < 60 && Secs(n) < 60
  {
    var r := n % 3600;
    assert n == Hours(n) * 3600 + r;
    assert r == Minutes(n) * 60 + r % 60;
    assert n % 60 == r % 60 by {
      assert n == (Hours(n) * 60 + Minutes(n)) * 60 + r % 60;
    }
  }

  /** formatDuration: "expired" for a negative count, otherwise the non-zero parts among h, m, s, and "0s" for zero. */
  function FormatDuration(seconds: int): (r: string)
    ensures seconds < 0 ==> r == "expired"
    ensures seconds >= 0 ==> |r| >= 2 && IsDigit(r[0]) && IsUnit(r[|r| - 1])
  {
    if seconds < 0 then "expired"
    else
      var h, m, s := Hours(seconds), Minutes(seconds), Secs(seconds);
      var parts := (if h > 0 then NatToString(h) + "h" else "")
                   + (if m > 0 then NatToString(m) + "m" else "");
      parts + (if s > 0 || parts == "" then NatToString(s) + "s" else "")
  }

  /** At most one of the three components is non-zero. */
  predicate SingleComponent(n: nat)
  {
    (Hours(n) == 0 && Minutes(n) == 0) || (Hours(n) == 0 && Secs(n) == 0) || (Minutes(n) == 0 && Secs(n) == 0)
  }

  /** A duration written with a single component parses back to the same number of seconds. */
  lemma FormatDurationRoundTrip(n: nat)
    requires SingleComponent(n)
    ensures ParseTtl(FormatDuration(n)) == Success(n)
  {
    ComponentsRecompose(n);
    var h, m, s := Hours(n), Minutes(n), Secs(n);
    var r := FormatDuration(n);
    if h > 0 {
      assert r == NatToString(h) + "h";
      ParseTtlOfRendered(h, 'h');
    } else if m > 0 {
      assert r == NatToString(m) + "m";
      ParseTtlOfRendered(m, 'm');
    } else {
      assert s == n;
      assert r == NatToString(n) + "s";
      ParseTtlOfRendered(n, 's');
    }
  }

  /** "expired" exactly for negative counts, "0s" exactly for zero. */
  lemma FormatDurationSpecialCases(n: int)
    ensures FormatDuration(n) == "expired" <==> n < 0
    ensures FormatDuration(n) == "0s" <==> n == 0
  {
    if n >= 0 {
      ComponentsRecompose(n);
      var r := FormatDuration(n);
      assert IsDigit(r[0]);
      if n != 0 {
        var h, m, s := Hours(n), Minutes(n), Secs(n);
        if h > 0 {
          assert r[..|NatToString(h)|] == NatToString(h);
          assert r[|NatToString(h)|] == 'h';
          assert r != "0s";
        } else if m > 0 {
          assert r[..|NatToString(m)|] == NatToString(m);
          assert r[|NatToString(m)|] == 'm';
          assert r != "0s";
        } else {
          assert r == NatToString(s) + "s";
          DigitsValueOfNatToString(s);
          assert DigitsValue("0") == 0;
        }
      }
    }
  }

  /** isExpired: the instant has been reached. */
  predicate IsExpired(expiresAt: int, now: int): (b: bool)
    ensures b ==> RemainingSeconds(expiresAt, now) == 0
  {
    expiresAt <= now
  }

  /** remainingSeconds: whole seconds left, Math.max(0, Math.floor(ms / 1000)). */
  function RemainingSeconds(expiresAt: int, now: int): (r: nat)
    ensures expiresAt - now < 1000 ==> r == 0
    ensures expiresAt - now >= 1000 ==> r * 1000 <= expiresAt - now < (r + 1) * 1000
  {
    // Dafny's `/` with a positive divisor rounds down like Math.floor.
    var q := (expiresAt - now) / 1000;
    if q > 0 then q else 0
  }

  /**
   * formatRelative: "expired" or the remaining duration. It reports "expired"
   * exactly when less than one second is left, so the last second before the
   * expiry instant reads "expired" too.
   */
  function FormatRelative(expiresAt: int, now: int): (r: string)
    ensures r == "expired" <==> expiresAt - now < 1000
  {
    var remaining := RemainingSeconds(expiresAt, now);
    if remaining <= 0 then "expired" else FormatDuration(remaining) + " remaining"
  }

  /** Every expired instant reads "expired". */
  lemma FormatRelativeExpired(expiresAt: int, now: int)
    ensures IsExpired(expiresAt, now) ==> FormatRelative(expiresAt, now) == "expired"
  {
  }
}
