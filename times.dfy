/**
 * Timestamps: the UTC date-times the backends report, Python's `max` over a change log, and
 * the `isoformat()` rendering (with `+00:00` written as `Z`) stored in the index.
 */
module Times {
  import opened Strings

  /** A UTC `datetime` with whole seconds (what `strptime` yields for the backends' formats). */
  datatype DateTime = DateTime(year: nat, month: nat, day: nat, hour: nat, minute: nat, second: nat)

  /** The ranges `datetime` enforces on its fields. */
  predicate InRange(t: DateTime) {
    && 1 <= t.year <= 9999 && 1 <= t.month <= 12 && 1 <= t.day <= 31
    && t.hour < 24 && t.minute < 60 && t.second < 60
  }

  /** Python's `a < b` on datetimes: chronological order. */
  predicate Before(a: DateTime, b: DateTime) {
    || a.year < b.year
    || (a.year == b.year && a.month < b.month)
    || (a.year == b.year && a.month == b.month && a.day < b.day)
    || (a.year == b.year && a.month == b.month && a.day == b.day && a.hour < b.hour)
    || (a.year == b.year && a.month == b.month && a.day == b.day && a.hour == b.hour && a.minute < b.minute)
    || (a.year == b.year && a.month == b.month && a.day == b.day && a.hour == b.hour && a.minute == b.minute && a.second < b.second)
  }

  /** Python's `max(log)`: the latest time in a non-empty log. */
  function Latest(log: seq<DateTime>): (t: DateTime)
    requires |log| > 0
    ensures t in log
    ensures forall u :: u in log ==> !Before(t, u)
  {
    if |log| == 1 then log[0]
    else
      var m := Latest(log[1..]);
      assert forall u :: u in log ==> u == log[0] || u in log[1..];
      if Before(log[0], m) then m else log[0]
  }

  /** The last `w` decimal digits of `n`, zero-padded to width `w`. */
  function Digits(n: nat, w: nat): (s: string)
    ensures |s| == w
    ensures forall k :: 0 <= k < w ==> '0' <= s[k] <= '9'
  {
    if w == 0 then [] else Digits(n / 10, w - 1) + [('0' as int + n % 10) as char]
  }

  /** The ISO 8601 rendering of a UTC time without microseconds, with `Z` for the offset:
      `YYYY-MM-DDTHH:MM:SSZ`. */
  function IsoZ(t: DateTime): (s: string)
    ensures |s| == 20
    ensures s[4] == '-' && s[7] == '-' && s[10] == 'T' && s[13] == ':' && s[16] == ':' && s[19] == 'Z'
  {
    Digits(t.year, 4) + "-" + Digits(t.month, 2) + "-" + Digits(t.day, 2) + "T"
      + Digits(t.hour, 2) + ":" + Digits(t.minute, 2) + ":" + Digits(t.second, 2) + "Z"
  }

  function Pow10(w: nat): (p: nat)
    ensures p >= 1
  {
    if w == 0 then 1 else 10 * Pow10(w - 1)
  }

  /** The number a string of decimal digits denotes. */
  function DecimalValue(s: string): int {
    if s == [] then 0 else 10 * DecimalValue(s[..|s| - 1]) + (s[|s| - 1] as int - '0' as int)
  }

  /** Reading the digits back gives the number modulo 10^w: the rendering loses nothing
      when the number has at most `w` digits. */
  lemma {:induction false} DigitsValue(n: nat, w: nat)
    ensures DecimalValue(Digits(n, w)) == n % Pow10(w)
  {
    if w > 0 {
      var s := Digits(n, w);
      assert s[..|s| - 1] == Digits(n / 10, w - 1);
      DigitsValue(n / 10, w - 1);
      ModSplit(n, Pow10(w - 1));
    }
  }

  /** n mod 10p, from the last digit and the rest mod p. */
  lemma ModSplit(n: nat, p: nat)
    requires p >= 1
    ensures 10 * ((n / 10) % p) + n % 10 == n % (10 * p)
  {
    var q := n / 10;
    var b := q % p;
    var a := q / p;
    assert n == 10 * q + n % 10;
    assert q == p * a + b;
    assert n == (10 * p) * a + (10 * b + n % 10);
    assert 0 <= 10 * b + n % 10 < 10 * p;
    ModUnique(n, 10 * p, a, 10 * b + n % 10);
  }

  lemma ModUnique(n: int, m: int, a: int, r: int)
    requires m > 0 && 0 <= r < m && n == m * a + r
    ensures n % m == r
  {
    var d := a - n / m;
    assert n == m * (n / m) + n % m;
    assert m * d == n % m - r;
    if d >= 1 {
      MulAtLeast(m, d);
    } else if d <= -1 {
      MulAtLeast(m, -d);
    }
  }

  lemma {:induction false} MulAtLeast(m: nat, d: int)
    requires d >= 1
    ensures m * d >= m
    decreases d
  {
    if d > 1 {
      MulAtLeast(m, d - 1);
      assert m * d == m * (d - 1) + m;
    }
  }

  /** Equal renderings of numbers below 10^w are renderings of the same number. */
  lemma DigitsInjective(x: nat, y: nat, w: nat)
    requires x < Pow10(w) && y < Pow10(w) && Digits(x, w) == Digits(y, w)
    ensures x == y
  {
    DigitsValue(x, w);
    DigitsValue(y, w);
    ModUnique(x, Pow10(w), 0, x);
    ModUnique(y, Pow10(w), 0, y);
  }

  /** The rendering shows each field of the time in its own fixed columns. */
  lemma IsoZColumns(t: DateTime)
    ensures var s := IsoZ(t);
      && s[0..4] == Digits(t.year, 4) && s[5..7] == Digits(t.month, 2) && s[8..10] == Digits(t.day, 2)
      && s[11..13] == Digits(t.hour, 2) && s[14..16] == Digits(t.minute, 2) && s[17..19] == Digits(t.second, 2)
  {
  }

  /** Two times in range with the same rendering are the same time. */
  lemma IsoZInjective(a: DateTime, b: DateTime)
    requires InRange(a) && InRange(b) && IsoZ(a) == IsoZ(b)
    ensures a == b
  {
    IsoZColumns(a);
    IsoZColumns(b);
    assert Pow10(2) == 100 && Pow10(4) == 10000;
    DigitsInjective(a.year, b.year, 4);
    DigitsInjective(a.month, b.month, 2);
    DigitsInjective(a.day, b.day, 2);
    DigitsInjective(a.hour, b.hour, 2);
    DigitsInjective(a.minute, b.minute, 2);
    DigitsInjective(a.second, b.second, 2);
  }
}
