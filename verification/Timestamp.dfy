/**
 The printed form of a time stamp. Section 5.1 of RFC 3339 wants strings whose
 character order is the time order; the zero-padded format delivers that exactly
 while the year has four digits.
 */
module Timestamp {
  import opened Prelude
  import opened Calendar

  // ---------------------------------------------------------------------
  // Zero-padded decimal formatting
  // ---------------------------------------------------------------------

  function Digit(d: int): char
    requires 0 <= d <= 9
  {
    ['0', '1', '2', '3', '4', '5', '6', '7', '8', '9'][d]
  }

  function Decimal(n: nat): string {
    if n < 10 then [Digit(n)] else Decimal(n / 10) + [Digit(n % 10)]
  }

  function Zeros(n: nat): string {
    seq(n, _ => '0')
  }

  /** Zero padding is sign aware: the minus sign counts in the width. */
  function Padded(n: int, width: nat): string {
    if n < 0 then
      "-" + Zeros(SatSub(width, |Decimal(-n)| + 1)) + Decimal(-n)
    else
      Zeros(SatSub(width, |Decimal(n)|)) + Decimal(n)
  }

  function IsoUtc(secs: int): string {
    var t := StampOf(secs);
    Padded(t.date.year, 4) + "-" + Padded(t.date.month, 2) + "-" + Padded(t.date.day, 2) + "T"
    + Padded(t.hour, 2) + ":" + Padded(t.minute, 2) + ":" + Padded(t.second, 2)
  }

  // ---------------------------------------------------------------------
  // String order
  // ---------------------------------------------------------------------

  predicate StringBefore(a: string, b: string) {
    if b == [] then false
    else if a == [] then true
    else a[0] < b[0] || (a[0] == b[0] && StringBefore(a[1..], b[1..]))
  }

  lemma {:induction false} PrefixDecides(a: string, b: string, p: string, q: string)
    requires |a| == |b|
    ensures StringBefore(a + p, b + q) <==> StringBefore(a, b) || (a == b && StringBefore(p, q))
  {
    if a == [] {
      assert a + p == p && b + q == q;
    } else {
      PrefixDecides(a[1..], b[1..], p, q);
      assert (a + p)[1..] == a[1..] + p && (b + q)[1..] == b[1..] + q;
      assert a == [a[0]] + a[1..] && b == [b[0]] + b[1..];
    }
  }

  lemma {:induction false} Irreflexive(a: string)
    ensures !StringBefore(a, a)
  {
    if a != [] {
      Irreflexive(a[1..]);
    }
  }

  // ---------------------------------------------------------------------
  // Numbers as strings
  // ---------------------------------------------------------------------

  function Power10(w: nat): nat {
    if w == 0 then 1 else 10 * Power10(w - 1)
  }

  /** The `w` low decimal digits of `n`. */
  function Fixed(n: nat, w: nat): (s: string)
    ensures |s| == w
  {
    if w == 0 then [] else Fixed(n / 10, w - 1) + [Digit(n % 10)]
  }

  lemma {:induction false} FixedZero(w: nat)
    ensures Fixed(0, w) == Zeros(w)
  {
    if w > 0 {
      FixedZero(w - 1);
    }
  }

  lemma {:induction false} DecimalLength(n: nat, w: nat)
    requires w >= 1
    ensures |Decimal(n)| <= w <==> n < Power10(w)
  {
    if w == 1 {
      assert Power10(1) == 10;
    } else if n >= 10 {
      DecimalLength(n / 10, w - 1);
    } else {
      PowerGrows(w);
    }
  }

  lemma {:induction false} PowerGrows(w: nat)
    requires w >= 1
    ensures Power10(w) >= 10
  {
    if w > 1 {
      PowerGrows(w - 1);
    }
  }

  lemma {:induction false} PaddedIsFixed(n: nat, w: nat)
    requires w >= 1 && n < Power10(w)
    ensures Padded(n, w) == Fixed(n, w)
  {
    DecimalLength(n, w);
    assert Power10(1) == 10;
    if n < 10 {
      FixedZero(w - 1);
    } else {
      PaddedIsFixed(n / 10, w - 1);
    }
  }

  lemma LastDecides(a: string, b: string, x: char, y: char)
    requires |a| == |b|
    ensures StringBefore(a + [x], b + [y]) <==> StringBefore(a, b) || (a == b && x < y)
    ensures a + [x] == b + [y] <==> a == b && x == y
  {
    PrefixDecides(a, b, [x], [y]);
    assert (a + [x])[..|a|] == a && (b + [y])[..|b|] == b;
    assert (a + [x])[|a|] == x && (b + [y])[|b|] == y;
  }

  lemma DigitOrder(i: nat, j: nat)
    requires i <= 9 && j <= 9
    ensures Digit(i) < Digit(j) <==> i < j
    ensures Digit(i) == Digit(j) <==> i == j
  {
  }

  lemma {:induction false} FixedOrder(m: nat, n: nat, w: nat)
    requires m < Power10(w) && n < Power10(w)
    ensures StringBefore(Fixed(m, w), Fixed(n, w)) <==> m < n
    ensures Fixed(m, w) == Fixed(n, w) <==> m == n
  {
    if w > 0 {
      FixedOrder(m / 10, n / 10, w - 1);
      LastDecides(Fixed(m / 10, w - 1), Fixed(n / 10, w - 1), Digit(m % 10), Digit(n % 10));
      DigitOrder(m % 10, n % 10);
    }
  }

  // ---------------------------------------------------------------------
  // The printed stamp
  // ---------------------------------------------------------------------

  /** Two digit fields: always two characters, ordered like their values. */
  lemma TwoDigits(m: nat, n: nat)
    requires m < 100 && n < 100
    ensures |Padded(m, 2)| == 2
    ensures StringBefore(Padded(m, 2), Padded(n, 2)) <==> m < n
    ensures Padded(m, 2) == Padded(n, 2) <==> m == n
  {
    assert Power10(2) == 100 by { assert Power10(1) == 10; }
    PaddedIsFixed(m, 2);
    PaddedIsFixed(n, 2);
    FixedOrder(m, n, 2);
  }

  lemma YearWidth(y: int)
    ensures |Padded(y, 4)| >= 4
    ensures |Padded(y, 4)| == 4 <==> -999 <= y <= 9999
  {
    assert Power10(3) == 1000 && Power10(4) == 10_000 by {
      assert Power10(1) == 10 && Power10(2) == 100;
    }
    if y < 0 {
      DecimalLength(-y, 3);
    } else {
      DecimalLength(y, 4);
    }
  }

  /** The stamp has its 19 characters exactly when the sign-aware year fits in four. */
  lemma IsoWidth(secs: int)
    ensures |IsoUtc(secs)| == 19 <==> -999 <= StampOf(secs).date.year <= 9999
    ensures |IsoUtc(secs)| >= 19
  {
    SecondsRoundTrip(secs);
    var t := StampOf(secs);
    YearWidth(t.date.year);
    TwoDigits(t.date.month, 0);
    TwoDigits(t.date.day, 0);
    TwoDigits(t.hour, 0);
    TwoDigits(t.minute, 0);
    TwoDigits(t.second, 0);
  }

  /** Appending a separator and a two-digit field refines the order lexicographically. */
  lemma FieldDecides(p: string, q: string, sep: char, m: nat, n: nat)
    requires |p| == |q| && m < 100 && n < 100
    ensures var a := p + [sep] + Padded(m, 2);
            var b := q + [sep] + Padded(n, 2);
            && |a| == |b|
            && (StringBefore(a, b) <==> StringBefore(p, q) || (p == q && m < n))
            && (a == b <==> p == q && m == n)
  {
    TwoDigits(m, n);
    TwoDigits(n, m);
    Irreflexive([sep]);
    PrefixDecides(p, q, [sep], [sep]);
    var ps, qs := p + [sep], q + [sep];
    PrefixDecides(ps, qs, Padded(m, 2), Padded(n, 2));
    assert ps[..|p|] == p && qs[..|q|] == q;
    var a, b := ps + Padded(m, 2), qs + Padded(n, 2);
    assert a[..|ps|] == ps && a[|ps|..] == Padded(m, 2);
    assert b[..|qs|] == qs && b[|qs|..] == Padded(n, 2);
  }

  lemma YearOrder(y: int, z: int)
    requires 0 <= y <= 9999 && 0 <= z <= 9999
    ensures |Padded(y, 4)| == |Padded(z, 4)| == 4
    ensures StringBefore(Padded(y, 4), Padded(z, 4)) <==> y < z
    ensures Padded(y, 4) == Padded(z, 4) <==> y == z
  {
    assert Power10(4) == 10_000 by { assert Power10(2) == 100; }
    PaddedIsFixed(y, 4);
    PaddedIsFixed(z, 4);
    FixedOrder(y, z, 4);
  }

  /** Prefix of the printed stamp: the date. */
  function DateText(d: Date): string {
    Padded(d.year, 4) + ['-'] + Padded(d.month, 2) + ['-'] + Padded(d.day, 2)
  }

  lemma DateTextOrder(a: Date, b: Date)
    requires ValidDate(a) && ValidDate(b)
    requires 0 <= a.year <= 9999 && 0 <= b.year <= 9999
    ensures |DateText(a)| == |DateText(b)|
    ensures StringBefore(DateText(a), DateText(b)) <==> DateBefore(a, b)
    ensures DateText(a) == DateText(b) <==> a == b
  {
    YearOrder(a.year, b.year);
    var p, q := Padded(a.year, 4), Padded(b.year, 4);
    FieldDecides(p, q, '-', a.month, b.month);
    FieldDecides(p + ['-'] + Padded(a.month, 2), q + ['-'] + Padded(b.month, 2), '-', a.day, b.day);
  }

  function ClockText(date: string, t: Stamp): string {
    date + ['T'] + Padded(t.hour, 2) + [':'] + Padded(t.minute, 2) + [':'] + Padded(t.second, 2)
  }

  lemma ClockTextOrder(p: string, q: string, a: Stamp, b: Stamp)
    requires ValidStamp(a) && ValidStamp(b) && |p| == |q|
    ensures StringBefore(ClockText(p, a), ClockText(q, b))
       <==> StringBefore(p, q)
            || (p == q && (a.hour < b.hour
                || (a.hour == b.hour && (a.minute < b.minute
                    || (a.minute == b.minute && a.second < b.second)))))
  {
    var p1, q1 := p + ['T'] + Padded(a.hour, 2), q + ['T'] + Padded(b.hour, 2);
    var p2, q2 := p1 + [':'] + Padded(a.minute, 2), q1 + [':'] + Padded(b.minute, 2);
    FieldDecides(p, q, 'T', a.hour, b.hour);
    FieldDecides(p1, q1, ':', a.minute, b.minute);
    FieldDecides(p2, q2, ':', a.second, b.second);
  }

  lemma IsoIsClockText(secs: int)
    ensures IsoUtc(secs) == ClockText(DateText(StampOf(secs).date), StampOf(secs))
  {
  }

  /** While the year has four digits, the order of the strings is the order of time. */
  lemma IsoOrderIsTimeOrder(a: int, b: int)
    requires 0 <= StampOf(a).date.year <= 9999 && 0 <= StampOf(b).date.year <= 9999
    ensures a < b <==> StringBefore(IsoUtc(a), IsoUtc(b))
  {
    var s, t := StampOf(a), StampOf(b);
    SecondsRoundTrip(a);
    SecondsRoundTrip(b);
    StampsAreMonotone(a, b);
    IsoIsClockText(a);
    IsoIsClockText(b);
    DateTextOrder(s.date, t.date);
    ClockTextOrder(DateText(s.date), DateText(t.date), s, t);
  }

  lemma {:induction false} LeadingDigit(n: nat)
    ensures |Decimal(n)| >= 1
    ensures n >= 10 ==> Decimal(n)[0] == Decimal(n / 10)[0]
  {
    if n >= 10 {
      LeadingDigit(n / 10);
    }
  }

  lemma YearHeads()
    ensures Padded(9999, 4)[..1] == "9" && Padded(10_000, 4)[..1] == "1"
  {
    YearWidth(9999);
    LeadingDigit(9999);
    LeadingDigit(999);
    LeadingDigit(99);
    DecimalLength(9999, 4);
    LeadingDigit(10_000);
    LeadingDigit(1000);
    LeadingDigit(100);
    LeadingDigit(10);
    DecimalLength(10_000, 4);
    assert Power10(4) == 10_000 by { assert Power10(2) == 100; }
    assert Decimal(9)[0] == '9' && Decimal(1)[0] == '1';
  }

  lemma LastSecondOfFourDigitYears()
    ensures StampOf(253_402_300_799) == Stamp(Date(9999, 12, 31), 23, 59, 59)
    ensures StampOf(253_402_300_800) == Stamp(Date(10_000, 1, 1), 0, 0, 0)
  {
    var last := Stamp(Date(9999, 12, 31), 23, 59, 59);
    var first := Stamp(Date(10_000, 1, 1), 0, 0, 0);
    MonthTable(9999, 12);
    MonthTable(10_000, 1);
    assert SecondsOf(last) == 253_402_300_799 && SecondsOf(first) == 253_402_300_800;
    StampRoundTrip(last);
    StampRoundTrip(first);
  }

  /** One second past year 9999 the strings run backwards. */
  lemma IsoOrderBreaksAtFiveDigits()
    ensures StringBefore(IsoUtc(253_402_300_800), IsoUtc(253_402_300_799))
  {
    LastSecondOfFourDigitYears();
    YearHeads();
    YearWidth(9999);
    YearWidth(10_000);
    IsoWidth(253_402_300_799);
    IsoWidth(253_402_300_800);
    var a, b := IsoUtc(253_402_300_800), IsoUtc(253_402_300_799);
    assert a[0] == Padded(10_000, 4)[..1][0] && b[0] == Padded(9999, 4)[..1][0];
  }

  // ---------------------------------------------------------------------
  // Reading it back
  // ---------------------------------------------------------------------

  predicate AllDigits(s: string) {
    forall k :: 0 <= k < |s| ==> '0' <= s[k] <= '9'
  }

  function ReadNat(s: string): int {
    if s == [] then 0 else 10 * ReadNat(s[..|s| - 1]) + (s[|s| - 1] as int - '0' as int)
  }

  function ReadInt(s: string): int {
    if s != [] && s[0] == '-' then -ReadNat(s[1..]) else ReadNat(s)
  }

  lemma {:induction false} DecimalReadsBack(n: nat)
    ensures AllDigits(Decimal(n)) && |Decimal(n)| >= 1 && ReadNat(Decimal(n)) == n
  {
    if n >= 10 {
      DecimalReadsBack(n / 10);
      var front := Decimal(n / 10);
      assert Decimal(n) == front + [Digit(n % 10)];
      assert (front + [Digit(n % 10)])[..|front|] == front;
    } else {
      assert Decimal(n) == [Digit(n)];
      assert ReadNat([Digit(n)][..0]) == 0;
    }
  }

  lemma {:induction false} ZerosAddNothing(k: nat, s: string)
    ensures ReadNat(Zeros(k) + s) == ReadNat(s)
  {
    if s == [] {
      assert Zeros(k) + s == Zeros(k);
      if k > 0 {
        assert Zeros(k)[..k - 1] == Zeros(k - 1);
        ZerosAddNothing(k - 1, []);
        assert Zeros(k - 1) + [] == Zeros(k - 1);
      }
    } else {
      var front := s[..|s| - 1];
      ZerosAddNothing(k, front);
      assert (Zeros(k) + s)[..k + |s| - 1] == Zeros(k) + front;
    }
  }

  /** A number behind zeros reads as itself, and does not look negative. */
  lemma ZeroPadded(k: nat, m: nat)
    ensures var text := Zeros(k) + Decimal(m);
            |text| >= 1 && text[0] != '-' && ReadNat(text) == m
  {
    DecimalReadsBack(m);
    ZerosAddNothing(k, Decimal(m));
  }

  lemma SignReads(text: string, m: int)
    requires |text| >= 1 && text[0] != '-' && ReadNat(text) == m
    ensures ReadInt(text) == m && ReadInt("-" + text) == 0 - m
  {
    assert ("-" + text)[1..] == text;
  }

  /** The text of the digits decides; how many zeros stand before them does not. */
  lemma PaddedShape(m: nat, width: nat)
    ensures Padded(m, width) == Zeros(SatSub(width, |Decimal(m)|)) + Decimal(m)
    ensures m > 0 ==> Padded(0 - m, width) == "-" + (Zeros(SatSub(width, |Decimal(m)| + 1)) + Decimal(m))
  {
    if m > 0 {
      var zeros, digits := Zeros(SatSub(width, |Decimal(m)| + 1)), Decimal(m);
      assert "-" + zeros + digits == "-" + (zeros + digits);
    }
  }

  lemma NatReadsBack(m: nat, k: nat, text: string)
    requires text == Zeros(k) + Decimal(m)
    ensures ReadInt(text) == m && ReadInt("-" + text) == 0 - m
  {
    ZeroPadded(k, m);
    SignReads(text, m);
  }

  lemma PaddedReadsBack(n: int, width: nat)
    ensures ReadInt(Padded(n, width)) == n
  {
    var m: nat := if n < 0 then -n else n;
    var length := |Decimal(m)|;
    PaddedShape(m, width);
    NatReadsBack(m, SatSub(width, length), Zeros(SatSub(width, length)) + Decimal(m));
    NatReadsBack(m, SatSub(width, length + 1), Zeros(SatSub(width, length + 1)) + Decimal(m));
  }

  /** Everything after the year has fixed positions, counted from its end. */
  const TAIL: nat := 15

  /** A hyphen before month and day, a T before the hour, colons before minute and second. */
  predicate Separated(s: string)
    requires |s| >= TAIL
  {
    var n := |s| - TAIL;
    s[n] == '-' && s[n + 3] == '-' && s[n + 6] == 'T' && s[n + 9] == ':' && s[n + 12] == ':'
  }

  function ReadStamp(s: string): Stamp
    requires |s| >= TAIL
  {
    var n := |s| - TAIL;
    Stamp(Date(ReadInt(s[..n]), ReadInt(s[n + 1..n + 3]), ReadInt(s[n + 4..n + 6])),
          ReadInt(s[n + 7..n + 9]), ReadInt(s[n + 10..n + 12]), ReadInt(s[n + 13..]))
  }

  lemma Fields(y: string, mo: string, d: string, h: string, mi: string, se: string)
    requires |mo| == |d| == |h| == |mi| == |se| == 2
    ensures var s := y + "-" + mo + "-" + d + "T" + h + ":" + mi + ":" + se;
            var n := |s| - TAIL;
            && n == |y| && Separated(s)
            && s[..n] == y && s[n + 1..n + 3] == mo && s[n + 4..n + 6] == d
            && s[n + 7..n + 9] == h && s[n + 10..n + 12] == mi && s[n + 13..] == se
  {
  }

  /**
   The printed stamp reads back, for every second: the separators stand where they should and
   the six fields are those of the stamp, so no two seconds print alike.
   */
  lemma IsoReadsBack(secs: int)
    ensures |IsoUtc(secs)| >= TAIL && Separated(IsoUtc(secs))
    ensures ReadStamp(IsoUtc(secs)) == StampOf(secs)
    ensures SecondsOf(ReadStamp(IsoUtc(secs))) == secs
  {
    SecondsRoundTrip(secs);
    var t := StampOf(secs);
    TwoDigits(t.date.month, 0);
    TwoDigits(t.date.day, 0);
    TwoDigits(t.hour, 0);
    TwoDigits(t.minute, 0);
    TwoDigits(t.second, 0);
    Fields(Padded(t.date.year, 4), Padded(t.date.month, 2), Padded(t.date.day, 2),
           Padded(t.hour, 2), Padded(t.minute, 2), Padded(t.second, 2));
    PaddedReadsBack(t.date.year, 4);
    PaddedReadsBack(t.date.month, 2);
    PaddedReadsBack(t.date.day, 2);
    PaddedReadsBack(t.hour, 2);
    PaddedReadsBack(t.minute, 2);
    PaddedReadsBack(t.second, 2);
  }
}
