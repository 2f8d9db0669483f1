/** The decimal and timestamp texts of the article format: `strconv.FormatInt`
    and `ParseInt`, and RFC 3339 (section 5.6) timestamps at second precision in
    UTC, each with the proof that reading undoes writing.

    A timestamp is read only in the form the writer gives it; offsets and
    fractions of a second are read as no timestamp at all. */
module Numerals {
  import opened Wrappers

  predicate IsDigit(c: char) { '0' <= c <= '9' }

  predicate AllDigits(s: string) { forall i :: 0 <= i < |s| ==> IsDigit(s[i]) }

  function Digit(n: nat): (c: char)
    requires n < 10
    ensures IsDigit(c) && c as int - '0' as int == n
  {
    ('0' as int + n) as char
  }

  /** The number that a run of digits denotes. */
  function FromDigits(s: string): nat
    requires AllDigits(s)
  {
    if s == "" then 0 else 10 * FromDigits(s[..|s| - 1]) + (s[|s| - 1] as int - '0' as int)
  }

  /** `n` in decimal without leading zeros. */
  function Digits(n: nat): (s: string)
    ensures s != "" && AllDigits(s) && FromDigits(s) == n
  {
    if n < 10 then [Digit(n)]
    else
      var s := Digits(n / 10) + [Digit(n % 10)];
      assert s[..|s| - 1] == Digits(n / 10);
      s
  }

  function Zeros(n: nat): (s: string)
    ensures |s| == n && AllDigits(s) && FromDigits(s) == 0
  {
    if n == 0 then "" else Zeros(n - 1) + "0"
  }

  /** `n` in decimal, filled with zeros on the left up to `w` digits. */
  function Padded(n: nat, w: nat): (s: string)
    ensures |s| >= w && s != "" && AllDigits(s) && FromDigits(s) == n
  {
    var s := Digits(n);
    if |s| >= w then s
    else
      ZerosInFront(w - |s|, s);
      Zeros(w - |s|) + s
  }

  lemma {:induction false} ZerosInFront(k: nat, s: string)
    requires AllDigits(s)
    ensures AllDigits(Zeros(k) + s) && FromDigits(Zeros(k) + s) == FromDigits(s)
  {
    if s == "" {
      assert Zeros(k) + s == Zeros(k);
    } else {
      var front := s[..|s| - 1];
      assert (Zeros(k) + s)[..k + |s| - 1] == Zeros(k) + front;
      ZerosInFront(k, front);
    }
  }

  ghost function Pow10(w: nat): nat { if w == 0 then 1 else 10 * Pow10(w - 1) }

  lemma {:induction false} DigitsWidth(n: nat, w: nat)
    requires w > 0
    ensures |Digits(n)| <= w <==> n < Pow10(w)
  {
    if n < 10 {
      PowAtLeast(w - 1);
    } else if w > 1 {
      DigitsWidth(n / 10, w - 1);
    }
  }

  lemma {:induction false} PowAtLeast(w: nat)
    ensures Pow10(w) >= 1
  {
    if w > 0 {
      PowAtLeast(w - 1);
    }
  }

  lemma TwoWide(n: nat)
    requires n < 100
    ensures |Padded(n, 2)| == 2
  {
    DigitsWidth(n, 2);
    assert Pow10(2) == 10 * Pow10(1) == 100;
  }

  lemma FourWide(n: nat)
    requires n < 10000
    ensures |Padded(n, 4)| == 4
  {
    DigitsWidth(n, 4);
    assert Pow10(4) == 10 * Pow10(3) == 10000;
  }

  // ----------------------------------------------------------------- integers

  const TWO63: int := 0x8000_0000_0000_0000

  predicate InInt64(n: int) { -TWO63 <= n < TWO63 }

  /** `strconv.FormatInt(n, 10)` */
  function FormatInt(n: int): string {
    if n < 0 then "-" + Digits(-n) else Digits(n)
  }

  /** `strconv.ParseInt(s, 10, 64)` */
  function ParseInt(s: string): Option<int> {
    var signed := s != "" && (s[0] == '-' || s[0] == '+');
    var ds := if signed then s[1..] else s;
    if ds == "" || !AllDigits(ds) then None
    else
      var n: int := if signed && s[0] == '-' then -(FromDigits(ds) as int) else FromDigits(ds);
      if InInt64(n) then Some(n) else None
  }

  lemma ParseIntInvertsFormat(n: int)
    requires InInt64(n)
    ensures ParseInt(FormatInt(n)) == Some(n)
  {
    var ds := Digits(if n < 0 then -n else n);
    assert ("-" + ds)[1..] == ds;
    assert IsDigit(ds[0]);
  }

  // --------------------------------------------------------------- timestamps

  /** A `time.Time` by its UTC fields. */
  datatype Civil = Civil(year: nat, month: nat, day: nat, hour: nat, minute: nat, second: nat)

  predicate IsLeap(year: nat) { year % 4 == 0 && (year % 100 != 0 || year % 400 == 0) }

  function DaysIn(month: nat, year: nat): nat {
    if month == 2 then (if IsLeap(year) then 29 else 28)
    else if month == 4 || month == 6 || month == 9 || month == 11 then 30
    else 31
  }

  /** A calendar instant in UTC, at second precision, in a year RFC 3339 can write. */
  predicate ValidCivil(t: Civil) {
    && t.year <= 9999 && 1 <= t.month <= 12 && 1 <= t.day <= DaysIn(t.month, t.year)
    && t.hour < 24 && t.minute < 60 && t.second < 60
  }

  /** Go's zero `time.Time`. */
  const ZERO_TIME := Civil(1, 1, 1, 0, 0, 0)

  function Stamp(y: string, mo: string, d: string, h: string, mi: string, s: string): string {
    y + "-" + mo + "-" + d + "T" + h + ":" + mi + ":" + s + "Z"
  }

  /** `t.UTC().Format(time.RFC3339)` */
  function FormatTime(t: Civil): string {
    Stamp(Padded(t.year, 4), Padded(t.month, 2), Padded(t.day, 2),
          Padded(t.hour, 2), Padded(t.minute, 2), Padded(t.second, 2))
  }

  /** The fields of a text shaped like a UTC timestamp. */
  function ParseTime(s: string): Option<Civil> {
    if |s| != 20 || s[4] != '-' || s[7] != '-' || s[10] != 'T' || s[13] != ':' || s[16] != ':' || s[19] != 'Z'
       || !AllDigits(s[0..4]) || !AllDigits(s[5..7]) || !AllDigits(s[8..10])
       || !AllDigits(s[11..13]) || !AllDigits(s[14..16]) || !AllDigits(s[17..19])
    then None
    else
      var t := Civil(FromDigits(s[0..4]), FromDigits(s[5..7]), FromDigits(s[8..10]),
                     FromDigits(s[11..13]), FromDigits(s[14..16]), FromDigits(s[17..19]));
      if ValidCivil(t) then Some(t) else None
  }

  /** A written timestamp reads back exactly when it is a calendar instant of
      the years 0 to 9999; any other one is refused. */
  lemma ParseTimeInvertsFormat(t: Civil)
    ensures ParseTime(FormatTime(t)) == if ValidCivil(t) then Some(t) else None
  {
    if ValidCivil(t) {
      assert DaysIn(t.month, t.year) <= 31;
      FourWide(t.year);
      TwoWide(t.month);
      TwoWide(t.day);
      TwoWide(t.hour);
      TwoWide(t.minute);
      TwoWide(t.second);
    }
    hide Padded, ParseTime, Stamp;
    ParseStamp(Padded(t.year, 4), Padded(t.month, 2), Padded(t.day, 2),
               Padded(t.hour, 2), Padded(t.minute, 2), Padded(t.second, 2));
  }

  lemma {:induction false} ParseStamp(y: string, mo: string, d: string, h: string, mi: string, s: string)
    requires |y| >= 4 && |mo| >= 2 && |d| >= 2 && |h| >= 2 && |mi| >= 2 && |s| >= 2
    requires AllDigits(y) && AllDigits(mo) && AllDigits(d) && AllDigits(h) && AllDigits(mi) && AllDigits(s)
    ensures var t := Civil(FromDigits(y), FromDigits(mo), FromDigits(d), FromDigits(h), FromDigits(mi), FromDigits(s));
      ParseTime(Stamp(y, mo, d, h, mi, s))
      == if |y| == 4 && |mo| == |d| == |h| == |mi| == |s| == 2 && ValidCivil(t) then Some(t) else None
  {
    StampSlices(y, mo, d, h, mi, s);
  }

  lemma DateSlices(y: string, mo: string, d: string)
    requires |y| == 4 && |mo| == |d| == 2
    ensures var a := y + "-" + mo + "-" + d;
      |a| == 10 && a[0..4] == y && a[5..7] == mo && a[8..10] == d && a[4] == '-' && a[7] == '-'
  {
  }

  lemma ClockSlices(h: string, mi: string, s: string)
    requires |h| == |mi| == |s| == 2
    ensures var b := "T" + h + ":" + mi + ":" + s + "Z";
      && |b| == 10 && b[1..3] == h && b[4..6] == mi && b[7..9] == s
      && b[0] == 'T' && b[3] == ':' && b[6] == ':' && b[9] == 'Z'
  {
  }

  lemma SliceOfEither(a: string, b: string, i: nat, j: nat)
    requires i <= j
    ensures j <= |a| ==> (a + b)[i..j] == a[i..j]
    ensures j <= |b| ==> (a + b)[|a| + i..|a| + j] == b[i..j]
  {
  }

  lemma StampSlices(y: string, mo: string, d: string, h: string, mi: string, s: string)
    requires |y| >= 4 && |mo| >= 2 && |d| >= 2 && |h| >= 2 && |mi| >= 2 && |s| >= 2
    ensures var x := Stamp(y, mo, d, h, mi, s);
      && |x| == |y| + |mo| + |d| + |h| + |mi| + |s| + 6
      && (|x| == 20 ==>
        && x[0..4] == y && x[5..7] == mo && x[8..10] == d && x[11..13] == h && x[14..16] == mi && x[17..19] == s
        && x[4] == '-' && x[7] == '-' && x[10] == 'T' && x[13] == ':' && x[16] == ':' && x[19] == 'Z')
  {
    var x := Stamp(y, mo, d, h, mi, s);
    var a, b := y + "-" + mo + "-" + d, "T" + h + ":" + mi + ":" + s + "Z";
    assert x == a + b;
    if |x| == 20 {
      DateSlices(y, mo, d);
      ClockSlices(h, mi, s);
      SliceOfEither(a, b, 0, 4);
      SliceOfEither(a, b, 5, 7);
      SliceOfEither(a, b, 8, 10);
      SliceOfEither(a, b, 1, 3);
      SliceOfEither(a, b, 4, 6);
      SliceOfEither(a, b, 7, 9);
      hide Stamp;
    }
  }
}
