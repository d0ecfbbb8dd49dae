/**
  Numbers shortened for people: the choice of the unit, and the rounding to the digits that are shown.
 */
module SlaxHumanize {
  import opened SlaxDigits

  const INT64_MAX: int := 0x7fff_ffff_ffff_ffff
  const INT64_MIN: int := -0x8000_0000_0000_0000
  const UINT64_RANGE: int := 0x1_0000_0000_0000_0000

  const MAXSCALE: nat := 7

  // HN_DECIMAL, HN_NOSPACE, HN_B and HN_DIVISOR_1000
  datatype Flags = Flags(decimal: bool, nospace: bool, b: bool, by1000: bool)

  function DividedOnce(x: nat, f: Flags): nat {
    if f.by1000 then x / 1000 else x / 1024
  }

  function Unit(k: nat, f: Flags): (p: nat)
    ensures p > 0
  {
    if k == 0 then 1 else if f.by1000 then 1000 * Unit(k - 1, f) else 1024 * Unit(k - 1, f)
  }

  function Divided(x: nat, k: nat, f: Flags): nat {
    if k == 0 then x else DividedOnce(Divided(x, k - 1, f), f)
  }

  lemma {:induction false} Monotone(a: nat, b: int, c: int)
    requires b <= c
    ensures a * b <= a * c
  {
  }

  lemma {:induction false} Regroup(a: nat, d: int, b: int)
    ensures a * (d * b) == (d * a) * b
  {
  }

  /** Dividing step by step, rounding down each time, is dividing by the whole unit. */
  lemma {:induction false} DividedByUnit(x: nat, k: nat, f: Flags)
    ensures Unit(k, f) * Divided(x, k, f) <= x < Unit(k, f) * (Divided(x, k, f) + 1)
  {
    if k > 0 {
      DividedByUnit(x, k - 1, f);
      var p, q, r := Unit(k - 1, f), Divided(x, k - 1, f), Divided(x, k, f);
      var d := if f.by1000 then 1000 else 1024;
      assert d * r <= q && q + 1 <= d * (r + 1);
      Monotone(p, d * r, q);
      Monotone(p, q + 1, d * (r + 1));
      Regroup(p, d, r);
      Regroup(p, d, r + 1);
    }
  }

  // The scale is the number of times a number can be divided before it is gone, less one.
  predicate IsScale(left: nat, scale: nat, f: Flags) {
    if left == 0 then scale == 0 else Unit(scale, f) <= left < Unit(scale + 1, f)
  }

  lemma {:induction false} DividedGone(x: nat, k: nat, f: Flags)
    ensures Divided(x, k, f) == 0 <==> x < Unit(k, f)
  {
    DividedByUnit(x, k, f);
    if Divided(x, k, f) > 0 {
      Monotone(Unit(k, f), 1, Divided(x, k, f));
    }
  }

  lemma {:induction false} DividedShrinks(x: nat, f: Flags)
    requires x > 0
    ensures DividedOnce(x, f) < x
  {
  }

  /** The loops of slaxHumanizeValue: the scale is the whole part of the logarithm. */
  method ScaleOf(number: int, f: Flags) returns (scale: nat)
    requires INT64_MIN <= number <= INT64_MAX
    ensures IsScale(if number < 0 then number + UINT64_RANGE else number, scale, f)
    ensures scale < MAXSCALE
  {
    scale := 0;
    if number != 0 {
      ghost var whole: nat := if number < 0 then number + UINT64_RANGE else number;
      var left: nat := if number < 0 then number + UINT64_RANGE else number;
      var count: nat := 0;
      while left > 0
        invariant left == Divided(whole, count, f)
        invariant count > 0 ==> Divided(whole, count - 1, f) > 0
        decreases left
      {
        DividedShrinks(left, f);
        left := DividedOnce(left, f);
        count := count + 1;
      }
      DividedGone(whole, count, f);
      DividedGone(whole, count - 1, f);
      scale := count - 1;
      SmallScale(whole, scale, f);
    }
  }

  lemma {:induction false} Units(f: Flags)
    ensures Unit(0, f) == 1
    ensures Unit(1, f) == if f.by1000 then 1000 else 1024
    ensures Unit(2, f) == if f.by1000 then 1000000 else 1048576
    ensures Unit(3, f) == if f.by1000 then 1000000000 else 1073741824
    ensures Unit(4, f) == if f.by1000 then 1000000000000 else 1099511627776
    ensures Unit(5, f) == if f.by1000 then 1000000000000000 else 1125899906842624
    ensures Unit(6, f) == if f.by1000 then 1000000000000000000 else 1152921504606846976
  {
  }

  lemma {:induction false} SevenUnits(f: Flags)
    ensures Unit(7, f) > UINT64_RANGE
    ensures 1000000000000000000 <= Unit(6, f) <= -INT64_MIN
  {
    Units(f);
  }

  lemma {:induction false} UnitGrows(j: nat, k: nat, f: Flags)
    requires j <= k
    ensures Unit(j, f) <= Unit(k, f)
    decreases k - j
  {
    if j < k { UnitGrows(j, k - 1, f); }
  }

  lemma {:induction false} SmallScale(left: nat, scale: nat, f: Flags)
    requires IsScale(left, scale, f) && left < UINT64_RANGE
    ensures scale < MAXSCALE
  {
    SevenUnits(f);
    if scale >= 7 { UnitGrows(7, scale, f); }
  }

  /** Every negative number gets the largest unit, because it is divided as an unsigned one. */
  lemma {:induction false} NegativeScale(number: int, scale: nat, f: Flags)
    requires INT64_MIN <= number < 0 && IsScale(number + UINT64_RANGE, scale, f)
    ensures scale == MAXSCALE - 1
  {
    SevenUnits(f);
    SmallScale(number + UINT64_RANGE, scale, f);
    if scale < 6 { UnitGrows(scale + 1, 6, f); }
  }

  // ----- what is shown

  // Tenths, or whole units.
  datatype Shown = Tenths(b: nat) | Whole(w: nat)

  function Letter(scale: nat, f: Flags): string
    requires scale < MAXSCALE
  {
    if scale == 0 then (if f.b then "B" else "") else ["KMGTPE"[scale - 1]]
  }

  function TextOf(negative: bool, s: Shown, scale: nat, f: Flags, suffix: string): string
    requires scale < MAXSCALE
  {
    (if negative then "-" else "")
    + (match s case Tenths(b) => Decimal(b / 10) + "." + Decimal(b % 10) case Whole(w) => Decimal(w))
    + (if f.nospace then "" else " ") + Letter(scale, f) + suffix
  }

  // What is shown is within half of its last digit of n units.
  predicate Close(s: Shown, n: int, unit: int) {
    match s
    case Tenths(b) => -unit <= 2 * (b * unit - 10 * n) <= unit
    case Whole(w) => -unit <= 2 * (w * unit - n) <= unit
  }

  lemma {:induction false} RoundTenths(n: nat, unit: nat, scaled: nat, b: nat)
    requires unit > 0 && unit * scaled <= 100 * n < unit * (scaled + 1) && b == (scaled + 5) / 10
    ensures Close(Tenths(b), n, unit)
  {
    assert scaled - 4 <= 10 * b <= scaled + 5;
    Monotone(unit, 10 * b, scaled + 5);
    Monotone(unit, scaled - 4, 10 * b);
    assert unit * (10 * b) == 10 * (b * unit);
    assert unit * (scaled + 5) == unit * scaled + 5 * unit;
    assert unit * (scaled - 4) == unit * (scaled + 1) - 5 * unit;
  }

  lemma {:induction false} RoundWhole(n: nat, unit: nat, scaled: nat, w: nat)
    requires unit > 0 && unit * scaled <= 100 * n < unit * (scaled + 1) && w == (scaled + 50) / 100
    ensures Close(Whole(w), n, unit)
  {
    assert scaled - 49 <= 100 * w <= scaled + 50;
    Monotone(unit, 100 * w, scaled + 50);
    Monotone(unit, scaled - 49, 100 * w);
    assert unit * (100 * w) == 100 * (w * unit);
    assert unit * (scaled + 50) == unit * scaled + 50 * unit;
    assert unit * (scaled - 49) == unit * (scaled + 1) - 50 * unit;
  }

  datatype Option<T> = None | Some(value: T)

  function BaseLen(negative: bool, f: Flags, suffix: string): nat {
    (if negative then 3 else 2) + (if f.nospace then 0 else 1) + |suffix|
  }

  // What snprintf leaves of a text in a buffer.
  function Cut(s: string, len: nat): string {
    if |s| < len then s else if len == 0 then "" else s[..len - 1]
  }

  // HN_AUTOSCALE and HN_GETSCALE are bits of a scale.
  predicate Explicit(scale: nat) {
    scale / 16 % 4 == 0
  }

  lemma {:induction false} DecimalLength(n: nat, k: nat)
    requires k > 0 && n < Power10(k)
    ensures 1 <= |Decimal(n)| <= k
  {
    if n >= 10 {
      DecimalLength(n / 10, k - 1);
    }
  }

  function Power10(k: nat): nat {
    if k == 0 then 1 else 10 * Power10(k - 1)
  }

  lemma {:induction false} TextLength(negative: bool, s: Shown, scale: nat, f: Flags, suffix: string)
    requires scale < MAXSCALE && (s.Tenths? ==> s.b < 100)
    ensures var digits := match s case Tenths(_) => 3 case Whole(w) => |Decimal(w)|;
      |TextOf(negative, s, scale, f, suffix)| == BaseLen(negative, f, suffix) - 2 + digits + |Letter(scale, f)|
    ensures |Letter(scale, f)| <= 1
  {
    match s {
      case Tenths(b) =>
        DecimalLength(b / 10, 1);
        DecimalLength(b % 10, 1);
      case Whole(_) =>
    }
  }

  /**
    slaxHumanizeNumber with a scale: the text of what is shown, which is never off by more than half of its
    last digit; one decimal is shown of values below 9.95 units, with one digit before it. The check for room
    allows for one digit only, so that longer whole numbers may be cut.
   */
  method HumanizeNumber(len: nat, bytes: int, suffix: string, scale: nat, f: Flags)
      returns (buf: Option<string>, ghost shown: Shown)
    requires INT64_MIN <= bytes <= INT64_MAX
    requires Explicit(scale)
    ensures scale >= MAXSCALE ==> buf == None
    ensures scale < MAXSCALE ==>
      var n: nat := if bytes < 0 then -bytes else bytes;
      && Close(shown, n, Unit(scale, f))
      && (shown.Tenths? ==> scale > 0 && f.decimal && shown.b < 100)
      && (scale > 0 && f.decimal ==> (shown.Tenths? <==> 100 * n < 995 * Unit(scale, f)))
      && buf == (if len < BaseLen(bytes < 0, f, suffix) + 1 + (if shown.Tenths? then 2 else 0) then None
                 else Some(Cut(TextOf(bytes < 0, shown, scale, f, suffix), len)))
  {
    shown := Whole(0);
    if scale >= MAXSCALE {
      return None, shown;
    }
    ghost var n: nat := if bytes < 0 then -bytes else bytes;
    var scalable, sign, baselen := bytes, 1, 2;
    if bytes < 0 {
      sign, baselen := -1, 3;
      scalable := scalable * -100;
    } else {
      scalable := scalable * 100;
    }
    var sep := "";
    if !f.nospace {
      sep := " ";
      baselen := baselen + 1;
    }
    baselen := baselen + |suffix|;
    var room := len >= baselen + 1;
    var i := 0;
    while i < scale && i < MAXSCALE
      invariant i <= scale && scalable >= 0 && scalable == Divided(100 * n, i, f)
    {
      scalable := DividedOnce(scalable, f);
      i := i + 1;
    }
    ghost var unit := Unit(scale, f);
    DividedByUnit(100 * n, scale, f);
    Threshold(n, unit, scalable);
    if scalable < 995 && i > 0 && f.decimal {
      var b := (scalable + 5) / 10;
      RoundTenths(n, unit, scalable, b);
      shown := Tenths(b);
      if !room || len < baselen + 1 + 2 {
        return None, shown;
      }
      var s1, s2 := b / 10, b % 10;
      buf := Some(Cut((if sign == -1 then "-" else "") + (Decimal(s1) + "." + Decimal(s2)) + sep + Letter(i, f)
                      + suffix, len));
    } else {
      var w := (scalable + 50) / 100;
      RoundWhole(n, unit, scalable, w);
      shown := Whole(w);
      if !room {
        return None, shown;
      }
      buf := Some(Cut((if sign == -1 then "-" else "") + Decimal(w) + sep + Letter(i, f) + suffix, len));
    }
  }

  lemma {:induction false} Threshold(n: nat, unit: nat, scaled: nat)
    requires unit > 0 && unit * scaled <= 100 * n < unit * (scaled + 1)
    ensures scaled < 995 <==> 100 * n < 995 * unit
  {
    if scaled < 995 { Monotone(unit, scaled + 1, 995); } else { Monotone(unit, 995, scaled); }
  }

  /** A value with one decimal is never cut; a whole number is, exactly if its digits leave no room for the NUL. */
  lemma {:induction false} CutIff(negative: bool, s: Shown, scale: nat, f: Flags, suffix: string, len: nat)
    requires scale < MAXSCALE && (s.Tenths? ==> s.b < 100)
    requires len >= BaseLen(negative, f, suffix) + 1 + (if s.Tenths? then 2 else 0)
    ensures var text := TextOf(negative, s, scale, f, suffix);
      Cut(text, len) == text <==>
      match s case Tenths(_) => true
      case Whole(w) => len + 2 > BaseLen(negative, f, suffix) + |Decimal(w)| + |Letter(scale, f)|
  {
    TextLength(negative, s, scale, f, suffix);
  }

  // ----- what a reader makes of it

  // The bytes that a letter stands for.
  function BytesOf(c: char, by1000: bool): nat {
    match c
    case 'K' => if by1000 then 1000 else 1024
    case 'M' => if by1000 then 1000000 else 1048576
    case 'G' => if by1000 then 1000000000 else 1073741824
    case 'T' => if by1000 then 1000000000000 else 1099511627776
    case 'P' => if by1000 then 1000000000000000 else 1125899906842624
    case 'E' => if by1000 then 1000000000000000000 else 1152921504606846976
    case _ => 1
  }

  function DigitsAt(s: string): (n: nat)
    ensures n <= |s|
  {
    if s == "" || !IsDigit(s[0]) then 0 else 1 + DigitsAt(s[1..])
  }

  function UnitAt(s: string, by1000: bool): nat {
    if s == "" then 1
    else if s[0] != ' ' then BytesOf(s[0], by1000)
    else if |s| == 1 then 1
    else BytesOf(s[1], by1000)
  }

  // Ten times the bytes that a text names: an amount with or without one decimal, then a unit.
  function ReadTenfold(s: string, by1000: bool): int {
    if s != "" && s[0] == '-' then -ReadAmount(s[1..], by1000) else ReadAmount(s, by1000)
  }

  function ReadAmount(s: string, by1000: bool): int {
    var d := DigitsAt(s);
    if d < |s| && s[d] == '.' then
      var rest := s[d + 1..];
      (10 * Leading(s, 0) + Leading(rest, 0)) * UnitAt(rest[DigitsAt(rest)..], by1000)
    else 10 * Leading(s, 0) * UnitAt(s[d..], by1000)
  }

  predicate NoDigit(s: string) {
    s == "" || !IsDigit(s[0])
  }

  lemma {:induction false} DigitsEnd(a: string, rest: string)
    requires (forall k :: 0 <= k < |a| ==> IsDigit(a[k])) && NoDigit(rest)
    ensures DigitsAt(a + rest) == |a|
  {
    if a == "" {
      assert a + rest == rest;
    } else {
      assert (a + rest)[1..] == a[1..] + rest;
      DigitsEnd(a[1..], rest);
    }
  }

  lemma {:induction false} DecimalRead(n: nat, rest: string)
    requires NoDigit(rest)
    ensures DigitsAt(Decimal(n) + rest) == |Decimal(n)| && Leading(Decimal(n) + rest, 0) == n
  {
    DecimalDigits(n);
    DigitsEnd(Decimal(n), rest);
    LeadingAll(Decimal(n), rest, 0);
    DecimalValue(n);
  }

  lemma {:induction false} LetterUnit(scale: nat, f: Flags)
    requires scale < MAXSCALE
    ensures Letter(scale, f) == "" ==> scale == 0
    ensures Letter(scale, f) != "" ==>
      && |Letter(scale, f)| == 1 && Letter(scale, f)[0] in "BKMGTPE"
      && BytesOf(Letter(scale, f)[0], f.by1000) == Unit(scale, f)
  {
    Units(f);
  }

  // The unit and what follows it, with the space before it.
  function Behind(scale: nat, f: Flags, suffix: string): string
    requires scale < MAXSCALE
  {
    (if f.nospace then "" else " ") + Letter(scale, f) + suffix
  }

  // Bytes without a letter are told from other units by what follows them.
  predicate Plain(scale: nat, f: Flags, suffix: string) {
    scale == 0 && !f.b && suffix != "" ==> suffix[0] !in "0123456789. KMGTPE"
  }

  lemma {:induction false} BehindRead(scale: nat, f: Flags, suffix: string)
    requires scale < MAXSCALE && Plain(scale, f, suffix)
    ensures var s := Behind(scale, f, suffix);
      NoDigit(s) && (s != "" ==> s[0] != '.') && UnitAt(s, f.by1000) == Unit(scale, f)
  {
    LetterUnit(scale, f);
    var s, l := Behind(scale, f, suffix), Letter(scale, f);
    if l == "" && suffix != "" {
      NoUnit(suffix[0], f.by1000);
    }
  }

  lemma {:induction false} NoUnit(c: char, by1000: bool)
    requires c !in "0123456789. KMGTPE"
    ensures !IsDigit(c) && c != '.' && c != ' ' && BytesOf(c, by1000) == 1
  {
    var chars := "0123456789. KMGTPE";
    assert chars[0] == '0' && chars[1] == '1' && chars[2] == '2' && chars[3] == '3' && chars[4] == '4'
      && chars[5] == '5' && chars[6] == '6' && chars[7] == '7' && chars[8] == '8' && chars[9] == '9' && chars[10] == '.'
      && chars[11] == ' ' && chars[12] == 'K' && chars[13] == 'M' && chars[14] == 'G' && chars[15] == 'T'
      && chars[16] == 'P' && chars[17] == 'E';
  }

  function TenthsOf(s: Shown): nat {
    match s case Tenths(b) => b case Whole(w) => 10 * w
  }

  /** The text names the value shown times the bytes of its unit. */
  lemma {:induction false} TextReads(negative: bool, s: Shown, scale: nat, f: Flags, suffix: string)
    requires scale < MAXSCALE && Plain(scale, f, suffix)
    ensures ReadTenfold(TextOf(negative, s, scale, f, suffix), f.by1000) ==
      if negative then -(TenthsOf(s) * Unit(scale, f)) else TenthsOf(s) * Unit(scale, f)
  {
    var tail := Behind(scale, f, suffix);
    BehindRead(scale, f, suffix);
    AmountRead(s, tail, f.by1000);
    SignRead(Amount(s) + tail, f.by1000);
    TextSplit(if negative then "-" else "", Amount(s), if f.nospace then "" else " ", Letter(scale, f), suffix);
  }

  function Amount(s: Shown): string {
    match s case Tenths(b) => Decimal(b / 10) + "." + Decimal(b % 10) case Whole(w) => Decimal(w)
  }

  lemma {:induction false} TextSplit(sign: string, amount: string, sep: string, letter: string, suffix: string)
    ensures sign + amount + sep + letter + suffix == sign + (amount + (sep + letter + suffix))
    ensures "" + (amount + (sep + letter + suffix)) == amount + (sep + letter + suffix)
  {
  }

  lemma {:induction false} AmountRead(s: Shown, tail: string, by1000: bool)
    requires NoDigit(tail) && (tail != "" ==> tail[0] != '.')
    ensures Amount(s) != "" && IsDigit(Amount(s)[0])
    ensures ReadAmount(Amount(s) + tail, by1000) == TenthsOf(s) * UnitAt(tail, by1000)
  {
    match s {
      case Tenths(b) =>
        assert Amount(s) + tail == Decimal(b / 10) + ("." + (Decimal(b % 10) + tail));
        TenthsRead(b, tail, by1000);
        DecimalDigits(b / 10);
      case Whole(w) =>
        WholeRead(w, tail, by1000);
        DecimalDigits(w);
    }
  }

  lemma {:induction false} SignRead(s: string, by1000: bool)
    requires s != "" && IsDigit(s[0])
    ensures ReadTenfold(s, by1000) == ReadAmount(s, by1000) && ReadTenfold("-" + s, by1000) == -ReadAmount(s, by1000)
  {
    assert ("-" + s)[1..] == s;
  }

  lemma {:induction false} WholeRead(w: nat, tail: string, by1000: bool)
    requires NoDigit(tail) && (tail != "" ==> tail[0] != '.')
    ensures ReadAmount(Decimal(w) + tail, by1000) == 10 * w * UnitAt(tail, by1000)
  {
    DecimalRead(w, tail);
    var s, d := Decimal(w) + tail, |Decimal(w)|;
    assert s[d..] == tail && (d < |s| ==> s[d] == tail[0]);
  }

  lemma {:induction false} Pieces(whole: string, rest: string)
    ensures var s := whole + ("." + rest); s[|whole|] == '.' && s[|whole| + 1..] == rest
  {
  }

  lemma {:induction false} TenthsRead(b: nat, tail: string, by1000: bool)
    requires NoDigit(tail)
    ensures ReadAmount(Decimal(b / 10) + ("." + (Decimal(b % 10) + tail)), by1000) == b * UnitAt(tail, by1000)
  {
    var whole, rest := Decimal(b / 10), Decimal(b % 10) + tail;
    DecimalRead(b / 10, "." + rest);
    DecimalRead(b % 10, tail);
    var s := whole + ("." + rest);
    Pieces(whole, rest);
    assert rest[|Decimal(b % 10)|..] == tail;
  }

  // 12345 bytes in a buffer of four: "123".
  lemma {:induction false} DigitsCut(f: Flags)
    requires f.nospace && !f.b
    ensures BaseLen(false, f, "") + 1 <= 4 && Cut(TextOf(false, Whole(12345), 0, f, ""), 4) == "123"
  {
    assert Decimal(12345) == "12345" by {
      assert Decimal(123) == "123" by { assert Decimal(12) == "12"; }
      assert Decimal(1234) == "1234";
    }
    assert TextOf(false, Whole(12345), 0, f, "") == "12345";
  }

  /** slaxHumanizeValue for a number that was read. */
  method HumanizeValue(blen: nat, number: int, suffix: string, f: Flags)
      returns (buf: Option<string>, ghost shown: Shown, ghost scale: nat)
    requires INT64_MIN <= number <= INT64_MAX
    ensures scale < MAXSCALE && (number >= 0 ==> IsScale(number, scale, f))
    ensures number >= 0 ==> Close(shown, number, Unit(scale, f))
    ensures number >= 0 && scale > 0 && shown.Tenths? ==> 10 <= shown.b < 100
    ensures number >= 0 && scale > 0 && shown.Whole? ==> 1 <= shown.w <= if f.by1000 then 1000 else 1024
    ensures buf.Some? ==> buf.value == Cut(TextOf(number < 0, shown, scale, f, suffix), blen)
    ensures blen >= |suffix| + 8 ==> buf == Some(TextOf(number < 0, shown, scale, f, suffix))
  {
    var units := ScaleOf(number, f);
    scale := units;
    buf, shown := HumanizeNumber(blen, number, suffix, units, f);
    if number >= 0 && scale > 0 {
      LeadingDigit(shown, number, scale, f);
    }
    FewDigits(shown, number, scale, f);
    TextLength(number < 0, shown, scale, f, suffix);
  }

  lemma {:induction false} AtMost(u: nat, n: nat, w: nat, k: nat)
    requires u > 0 && n <= k * u && 2 * (w * u - n) <= u
    ensures w <= k
  {
    assert w * u == u * w && k * u == u * k && u * (k + 1) == u * k + u;
    if w >= k + 1 { Monotone(u, k + 1, w); }
  }

  // At its own scale no number has more than four digits.
  lemma {:induction false} FewDigits(s: Shown, number: int, scale: nat, f: Flags)
    requires INT64_MIN <= number <= INT64_MAX && scale < MAXSCALE
    requires IsScale(if number < 0 then number + UINT64_RANGE else number, scale, f)
    requires Close(s, if number < 0 then -number else number, Unit(scale, f))
    ensures s.Whole? ==> 1 <= |Decimal(s.w)| <= 4
  {
    if s.Whole? {
      var u := Unit(scale, f);
      if number < 0 {
        NegativeScale(number, scale, f);
        SevenUnits(f);
        AtMost(u, -number, s.w, 10);
      } else if number > 0 {
        LeadingDigit(s, number, scale, f);
      } else {
        AtMost(u, 0, s.w, 0);
      }
      DecimalLength(s.w, 4);
    }
  }

  // In its own unit a number is at least one, and at most the next unit.
  lemma {:induction false} LeadingDigit(s: Shown, n: nat, scale: nat, f: Flags)
    requires IsScale(n, scale, f) && n > 0 && Close(s, n, Unit(scale, f))
    ensures s.Tenths? ==> s.b >= 10
    ensures s.Whole? ==> 1 <= s.w <= if f.by1000 then 1000 else 1024
  {
    var u, d := Unit(scale, f), if f.by1000 then 1000 else 1024;
    match s {
      case Tenths(b) => AtLeastOne(u, n, b);
      case Whole(w) => WholeRange(u, n, w, d);
    }
  }

  lemma {:induction false} AtLeastOne(u: nat, n: nat, b: nat)
    requires 0 < u <= n && -(u as int) <= 2 * (b * u - 10 * n)
    ensures b >= 10
  {
    assert b * u == u * b;
    if b <= 9 { Monotone(u, b, 9); }
  }

  lemma {:induction false} WholeRange(u: nat, n: nat, w: nat, d: nat)
    requires 0 < u <= n < d * u && -(u as int) <= 2 * (w * u - n) <= u
    ensures 1 <= w <= d
  {
    assert w * u == u * w && d * u == u * d && u * (d + 1) == u * d + u && u * 0 == 0;
    if w >= d + 1 { Monotone(u, d + 1, w); }
  }
}
