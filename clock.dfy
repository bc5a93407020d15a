/** The `HH:MM` string both the reminder pass and the upcoming list compare
    against: `String(h).padStart(2, "0") + ":" + String(m).padStart(2, "0")`,
    with the hour and minute of the device clock as inputs. */
module Clock {
  import opened JsStrings

  /** The decimal digit character for `d`. */
  function Digit(d: nat): (c: char)
    requires d < 10
    ensures '0' <= c <= '9'
  {
    (48 + d) as char
  }

  /** `String(n)` for a non-negative integer: its decimal digits, no leading zero. */
  function DecimalString(n: nat): (r: string)
    ensures |r| >= 1
    ensures n < 10 ==> |r| == 1
    ensures n >= 10 ==> r[0] != '0'
  {
    if n < 10 then [Digit(n)] else DecimalString(n / 10) + [Digit(n % 10)]
  }

  /** Every character of `String(n)` is a decimal digit. */
  lemma {:induction false} DecimalStringDigits(n: nat)
    ensures forall i :: 0 <= i < |DecimalString(n)| ==> '0' <= DecimalString(n)[i] <= '9'
  {
    if n >= 10 {
      DecimalStringDigits(n / 10);
    }
  }

  /** The number a string of decimal digits denotes. */
  function DigitsValue(s: string): nat {
    if s == [] then 0
    else
      var c := s[|s| - 1];
      DigitsValue(s[..|s| - 1]) * 10 + (if '0' <= c <= '9' then c as int - '0' as int else 0)
  }

  /** Reading the rendered digits back gives the number again. */
  lemma {:induction false} DecimalStringValue(n: nat)
    ensures DigitsValue(DecimalString(n)) == n
  {
    var d := DecimalString(n);
    if n >= 10 {
      DecimalStringValue(n / 10);
      assert d[..|d| - 1] == DecimalString(n / 10);
    } else {
      assert d[..0] == [];
    }
  }

  /** `s.padStart(width, fill)` with a one-character pad string. */
  function PadStart(s: string, width: nat, fill: char): (r: string)
    ensures |r| == if |s| < width then width else |s|
    ensures r[|r| - |s|..] == s
    ensures forall i :: 0 <= i < |r| - |s| ==> r[i] == fill
  {
    if |s| >= width then s else seq(width - |s|, _ => fill) + s
  }

  /** Two-digit zero-padded rendering of an hour or a minute. */
  function TwoDigits(n: nat): string {
    PadStart(DecimalString(n), 2, '0')
  }

  /** Below 100 the padded rendering is the tens digit followed by the units digit. */
  lemma TwoDigitsOf(n: nat)
    requires n < 100
    ensures TwoDigits(n) == [Digit(n / 10), Digit(n % 10)]
  {
    var d := DecimalString(n);
    if n < 10 {
      assert d == [Digit(n)];
      assert n / 10 == 0 && n % 10 == n;
      var r := TwoDigits(n);
      assert r[1..] == d && r[0] == '0' == Digit(0);
      assert r == [r[0]] + r[1..];
    } else {
      assert DecimalString(n / 10) == [Digit(n / 10)];
      assert d == [Digit(n / 10)] + [Digit(n % 10)];
    }
  }

  lemma DigitOrder(d1: nat, d2: nat)
    requires d1 < 10 && d2 < 10
    ensures Digit(d1) < Digit(d2) <==> d1 < d2
    ensures Digit(d1) == Digit(d2) <==> d1 == d2
  {
  }

  lemma PlaceValueOrder(n1: nat, n2: nat)
    ensures n1 < n2 <==> n1 / 10 < n2 / 10 || (n1 / 10 == n2 / 10 && n1 % 10 < n2 % 10)
    ensures n1 == n2 <==> n1 / 10 == n2 / 10 && n1 % 10 == n2 % 10
  {
    assert n1 == 10 * (n1 / 10) + n1 % 10 && n2 == 10 * (n2 / 10) + n2 % 10;
  }

  /** Two-digit renderings below 100 compare like the numbers they render. */
  lemma DigitPairOrder(n1: nat, n2: nat)
    requires n1 < 100 && n2 < 100
    ensures LexLess([Digit(n1 / 10), Digit(n1 % 10)], [Digit(n2 / 10), Digit(n2 % 10)]) <==> n1 < n2
    ensures [Digit(n1 / 10), Digit(n1 % 10)] == [Digit(n2 / 10), Digit(n2 % 10)] <==> n1 == n2
  {
    var t1, u1, t2, u2 := Digit(n1 / 10), Digit(n1 % 10), Digit(n2 / 10), Digit(n2 % 10);
    LexLessAppend([t1], [u1], [t2], [u2]);
    assert LexLess([t1], [t2]) <==> t1 < t2;
    assert LexLess([u1], [u2]) <==> u1 < u2;
    DigitOrder(n1 / 10, n2 / 10);
    DigitOrder(n1 % 10, n2 % 10);
    PlaceValueOrder(n1, n2);
    assert [t1, u1] == [t1] + [u1] && [t2, u2] == [t2] + [u2];
  }

  /** The current-time string for hour `h` and minute `m`: the zero-padded
      hour digits, a colon, the zero-padded minute digits. */
  function ClockString(h: nat, m: nat): (r: string)
    requires h < 24 && m < 60
    ensures r == [Digit(h / 10), Digit(h % 10), ':', Digit(m / 10), Digit(m % 10)]
  {
    TwoDigitsOf(h);
    TwoDigitsOf(m);
    JoinPairs(TwoDigits(h), TwoDigits(m));
    TwoDigits(h) + ":" + TwoDigits(m)
  }

  /** Two two-character strings joined by a colon. */
  lemma JoinPairs(hh: string, mm: string)
    requires |hh| == 2 && |mm| == 2
    ensures hh + ":" + mm == [hh[0], hh[1], ':', mm[0], mm[1]]
  {
  }

  lemma MinuteOfDayOrder(h1: nat, m1: nat, h2: nat, m2: nat)
    requires m1 < 60 && m2 < 60
    ensures h1 * 60 + m1 < h2 * 60 + m2 <==> h1 < h2 || (h1 == h2 && m1 < m2)
  {
  }

  /** The order of two `HH:MM` digit strings. */
  lemma ClockDigitsOrder(h1: nat, m1: nat, h2: nat, m2: nat)
    requires h1 < 24 && m1 < 60 && h2 < 24 && m2 < 60
    ensures
      LexLess([Digit(h1 / 10), Digit(h1 % 10), ':', Digit(m1 / 10), Digit(m1 % 10)],
              [Digit(h2 / 10), Digit(h2 % 10), ':', Digit(m2 / 10), Digit(m2 % 10)])
      <==> h1 * 60 + m1 < h2 * 60 + m2
  {
    var hh1, hh2 := [Digit(h1 / 10), Digit(h1 % 10)], [Digit(h2 / 10), Digit(h2 % 10)];
    var mm1, mm2 := [Digit(m1 / 10), Digit(m1 % 10)], [Digit(m2 / 10), Digit(m2 % 10)];
    DigitPairOrder(h1, h2);
    DigitPairOrder(m1, m2);
    MinuteOfDayOrder(h1, m1, h2, m2);
    LexLessAppend(hh1, [':'] + mm1, hh2, [':'] + mm2);
    LexLessAppend([':'], mm1, [':'], mm2);
    LexLessIrreflexive([':']);
    assert [Digit(h1 / 10), Digit(h1 % 10), ':', Digit(m1 / 10), Digit(m1 % 10)] == hh1 + ([':'] + mm1);
    assert [Digit(h2 / 10), Digit(h2 % 10), ':', Digit(m2 / 10), Digit(m2 % 10)] == hh2 + ([':'] + mm2);
  }

  /** Comparing two clock strings with `<` compares the times of day: the
      lexical "overdue" test is chronological because both sides are
      zero-padded to the same width. */
  lemma ClockOrder(h1: nat, m1: nat, h2: nat, m2: nat)
    requires h1 < 24 && m1 < 60 && h2 < 24 && m2 < 60
    ensures LexLess(ClockString(h1, m1), ClockString(h2, m2)) <==> h1 * 60 + m1 < h2 * 60 + m2
  {
    ClockDigitsOrder(h1, m1, h2, m2);
  }

  /** Two `HH:MM` digit strings are equal only for the same hour and minute. */
  lemma ClockDigitsInjective(h1: nat, m1: nat, h2: nat, m2: nat)
    requires h1 < 24 && m1 < 60 && h2 < 24 && m2 < 60
    requires [Digit(h1 / 10), Digit(h1 % 10), ':', Digit(m1 / 10), Digit(m1 % 10)]
          == [Digit(h2 / 10), Digit(h2 % 10), ':', Digit(m2 / 10), Digit(m2 % 10)]
    ensures h1 == h2 && m1 == m2
  {
    DigitPairOrder(h1, h2);
    DigitPairOrder(m1, m2);
  }

  /** Two clock strings are equal exactly when they name the same minute:
      the reminder pass's `time === currentTimeStr` is a minute match. */
  lemma ClockInjective(h1: nat, m1: nat, h2: nat, m2: nat)
    requires h1 < 24 && m1 < 60 && h2 < 24 && m2 < 60
    ensures ClockString(h1, m1) == ClockString(h2, m2) <==> h1 == h2 && m1 == m2
  {
    if ClockString(h1, m1) == ClockString(h2, m2) {
      ClockDigitsInjective(h1, m1, h2, m2);
    }
  }
}
