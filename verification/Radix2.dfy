/**
 Number.prototype.toString(2) for a double (jsToStringRadix2 in src/cs_data_processor-go/jsutil.go)
 against a reader of binary notation.
 */
module Radix2 {
  import opened Options
  import opened Powers

  // ---- doubles ----------------------------------------------------------------------------

  const HIDDEN_BIT: nat := 4503599627370496
  const TWO_53: nat := 9007199254740992
  const BIAS: nat := 1023

  /** The exponent of the smallest positive double, negated: every finite double is a multiple of 2^-1074. */
  const DEPTH: nat := 1074

  /** The fields of an IEEE 754 binary64 value: biased exponent below 2047 and 52-bit fraction. */
  datatype Double = NaN | Infinity(negative: bool) | Finite(negative: bool, exponent: nat, fraction: nat)
  {
    predicate Valid() {
      Finite? ==> exponent <= 2046 && fraction < HIDDEN_BIT
    }
  }

  /** The magnitude in units of 2^-1074. */
  function Units(exponent: nat, fraction: nat): nat {
    if exponent == 0 then fraction else (HIDDEN_BIT + fraction) * Pow(2, exponent - 1)
  }

  // ---- binary notation --------------------------------------------------------------------

  predicate IsBit(c: char) {
    c == '0' || c == '1'
  }

  predicate AllBits(s: string) {
    forall i :: 0 <= i < |s| ==> IsBit(s[i])
  }

  function Bits(s: string): nat {
    if s == "" then 0 else 2 * Bits(s[..|s| - 1]) + if s[|s| - 1] == '1' then 1 else 0
  }

  datatype Reading = NotANumber | Infinite(negative: bool) | Number(negative: bool, units: nat)

  /** The leading bits and what follows them. */
  function TakeBits(s: string): (r: (string, string))
    ensures s == r.0 + r.1
  {
    if s == "" || !IsBit(s[0]) then ("", s)
    else
      var (bits, rest) := TakeBits(s[1..]);
      ([s[0]] + bits, rest)
  }

  /** Whole bits, then possibly a point and at most `depth` fraction bits; the value in units of 2^-depth. */
  function ReadMagnitude(s: string, depth: nat): Option<nat> {
    var (whole, rest) := TakeBits(s);
    if whole == "" then None
    else if rest == "" then Some(Bits(whole) * Pow(2, depth))
    else if rest[0] != '.' then None
    else
      var (part, end) := TakeBits(rest[1..]);
      if part == "" || end != "" || |part| > depth then None
      else Some(Bits(whole) * Pow(2, depth) + Bits(part) * Pow(2, depth - |part|))
  }

  function Read(s: string, depth: nat): Option<Reading> {
    if s == "NaN" then Some(NotANumber)
    else if s == "Infinity" then Some(Infinite(false))
    else if s == "-Infinity" then Some(Infinite(true))
    else
      var negative := s != "" && s[0] == '-';
      var m := ReadMagnitude(if negative then s[1..] else s, depth);
      if m.None? then None else Some(Number(negative, m.value))
  }

  function Meaning(v: Double): Reading {
    match v
    case NaN => NotANumber
    case Infinity(negative) => Infinite(negative)
    case Finite(negative, e, f) => Number(negative && Units(e, f) != 0, Units(e, f))
  }

  // ---- shortest notation ------------------------------------------------------------------

  function WithPoint(whole: string, part: string): string {
    whole + if part == "" then "" else "." + part
  }

  function Compose(negative: bool, whole: string, part: string): string {
    (if negative then "-" else "") + WithPoint(whole, part)
  }

  /** No superfluous zero in front or behind, and no sign on zero. */
  predicate Shortest(negative: bool, whole: string, part: string) {
    && AllBits(whole) && AllBits(part)
    && whole != "" && (whole[0] == '0' ==> |whole| == 1)
    && (part != "" ==> part[|part| - 1] == '1')
    && (negative ==> whole != "0" || part != "")
  }

  ghost predicate Canonical(s: string) {
    s in {"NaN", "Infinity", "-Infinity"} || exists negative, whole, part ::
      Shortest(negative, whole, part) && s == Compose(negative, whole, part)
  }

  lemma {:induction false} TakesAllBits(bits: string, rest: string)
    requires AllBits(bits) && (rest == "" || !IsBit(rest[0]))
    ensures TakeBits(bits + rest) == (bits, rest)
  {
    if bits == "" {
      assert bits + rest == rest;
    } else {
      assert (bits + rest)[1..] == bits[1..] + rest;
      TakesAllBits(bits[1..], rest);
      assert [bits[0]] + bits[1..] == bits;
    }
  }

  function Magnitude(whole: string, part: string, depth: nat): nat
    requires |part| <= depth
  {
    Bits(whole) * Pow(2, depth) + Bits(part) * Pow(2, depth - |part|)
  }

  lemma MagnitudeReads(whole: string, part: string, depth: nat)
    requires AllBits(whole) && AllBits(part) && whole != ""
    ensures ReadMagnitude(WithPoint(whole, part), depth)
      == if |part| <= depth then Some(Magnitude(whole, part, depth)) else None
  {
    hide Pow, Bits, TakeBits;
    var tail := if part == "" then "" else "." + part;
    TakesAllBits(whole, tail);
    if part == "" {
      EmptyIsZero(Pow(2, depth));
    } else {
      assert tail[1..] == part == part + "";
      TakesAllBits(part, "");
    }
  }

  lemma ComposedReads(negative: bool, whole: string, part: string, depth: nat)
    requires AllBits(whole) && AllBits(part) && whole != ""
    ensures Read(Compose(negative, whole, part), depth)
      == if |part| <= depth then Some(Number(negative, Magnitude(whole, part, depth))) else None
  {
    hide Magnitude, ReadMagnitude;
    MagnitudeReads(whole, part, depth);
    var m := WithPoint(whole, part);
    var s := Compose(negative, whole, part);
    assert IsBit(whole[0]) && m[0] == whole[0];
    assert negative ==> s == "-" + m && s[1] == m[0] && s[1..] == m;
    assert !negative ==> s == m;
  }

  lemma EmptyIsZero(p: nat)
    ensures Bits("") * p == 0
  {
  }

  // ---- integers in base 2 -----------------------------------------------------------------

  /** The digits of n without superfluous zeros, as the integer formatter of the library gives them. */
  function Binary(n: nat): (s: string)
    ensures AllBits(s) && s != "" && Bits(s) == n
    ensures s[0] == '0' ==> n == 0 && s == "0"
  {
    if n == 0 then "0"
    else if n == 1 then
      assert Bits("1"[..0]) == 0;
      "1"
    else
      var s := Binary(n / 2) + [if n % 2 == 1 then '1' else '0'];
      assert s[..|s| - 1] == Binary(n / 2);
      s
  }

  function Zeros(n: nat): (s: string)
    ensures |s| == n && forall i :: 0 <= i < n ==> s[i] == '0'
  {
    seq(n, _ => '0')
  }

  lemma {:induction false} ShiftedBits(s: string, n: nat)
    ensures Bits(s + Zeros(n)) == Bits(s) * Pow(2, n)
  {
    if n == 0 {
      assert s + Zeros(0) == s;
    } else {
      var t := s + Zeros(n - 1);
      ShiftedBits(s, n - 1);
      assert Pow(2, n) == 2 * Pow(2, n - 1);
      hide Bits, Pow;
      assert s + Zeros(n) == t + "0";
      AppendBit(t);
      DoubleRight(Bits(s), Pow(2, n - 1));
    }
  }

  lemma {:induction false} BitsBelow(s: string)
    ensures Bits(s) < Pow(2, |s|)
  {
    if s != "" {
      BitsBelow(s[..|s| - 1]);
    }
  }

  // ---- the integer part -------------------------------------------------------------------

  lemma DivMod(q: nat, r: nat, m: nat)
    requires r < m
    ensures (q * m + r) / m == q && (q * m + r) % m == r
  {
    var d, e := (q * m + r) / m, (q * m + r) % m;
    assert d * m + e == q * m + r;
    Distribute(d - q, q, m);
    MulAtLeast(d - q, m);
  }

  lemma MulAtLeast(a: int, m: nat)
    ensures a >= 1 ==> a * m >= m
    ensures a <= -1 ==> a * m + m <= 0
    ensures a == 0 ==> a * m == 0
  {
  }

  lemma SmallIsBelow(e: nat, f: nat, depth: nat)
    requires f < HIDDEN_BIT && e <= depth + 1
    ensures Units(e, f) < TWO_53 * Pow(2, depth)
  {
    hide Pow;
    var scale, m := Pow(2, depth), HIDDEN_BIT + f;
    if e == 0 {
      MulMonotone(1, scale, TWO_53);
    } else {
      PowMonotone(2, e - 1, depth);
      MulMonotone(Pow(2, e - 1), scale, m);
      Distribute(m, TWO_53 - m, scale);
      MulAtLeast(TWO_53 - m, scale);
    }
  }

  /** From 2^53 on a double is a whole number, so its integer part has the very same fields. */
  lemma LargeIsWhole(e: nat, f: nat, depth: nat)
    requires f < HIDDEN_BIT && Units(e, f) / Pow(2, depth) >= TWO_53
    ensures e > depth + 1 && Units(e, f) % Pow(2, depth) == 0
    ensures Units(e, f) / Pow(2, depth) == (HIDDEN_BIT + f) * Pow(2, e - 1 - depth)
  {
    hide Pow, Units;
    var scale, m := Pow(2, depth), HIDDEN_BIT + f;
    var whole := Units(e, f) / scale;
    assert whole * scale <= Units(e, f);
    MulMonotone(TWO_53, whole, scale);
    if e <= depth + 1 {
      SmallIsBelow(e, f, depth);
    }
    LargeUnits(e, f, depth);
    DivMod(m * Pow(2, e - 1 - depth), 0, scale);
  }

  lemma LargeUnits(e: nat, f: nat, depth: nat)
    requires e > depth + 1
    ensures Units(e, f) == ((HIDDEN_BIT + f) * Pow(2, e - 1 - depth)) * Pow(2, depth)
  {
    hide Pow;
    PowAdd(2, e - 1 - depth, depth);
    MulAssociative(HIDDEN_BIT + f, Pow(2, e - 1 - depth), Pow(2, depth));
  }

  /** The two ways of printing the integer part. */
  method PrintWhole(whole: nat, e: nat, f: nat) returns (s: string)
    requires f < HIDDEN_BIT && whole == Units(e, f) / Pow(2, DEPTH)
    ensures AllBits(s) && s != "" && Bits(s) == whole && (s[0] == '0' ==> s == "0")
  {
    hide Pow, Units, Bits;
    if whole < TWO_53 {
      s := Binary(whole);
    } else {
      LargeIsWhole(e, f, DEPTH);
      var mantissa, exp := HIDDEN_BIT + f, e - BIAS - 52;
      s := Binary(mantissa);
      if exp > 0 {
        ShiftedBits(s, exp);
        s := s + Zeros(exp);
      }
    }
  }

  // ---- the fraction loop ------------------------------------------------------------------

  /**
   Doubling a fraction of `depth` bits until nothing is left; the limit on the rounds is one more
   than is ever needed.
   */
  method PrintFraction(part0: nat, depth: nat) returns (s: string)
    requires 0 < part0 < Pow(2, depth)
    ensures AllBits(s) && 0 < |s| <= depth && s[|s| - 1] == '1'
    ensures Bits(s) * Pow(2, depth - |s|) == part0
  {
    hide Pow;
    var scale := Pow(2, depth);
    var part := part0;
    s := "";
    ghost var g := part0;
    StartOfLoop(part0, scale);
    var i := 0;
    while i < depth + 1 && part > 0
      invariant i == |s| <= depth && AllBits(s)
      invariant part < scale && part == g * Pow(2, i)
      invariant Bits(s) * scale + part == part0 * Pow(2, i)
      invariant part == 0 ==> i > 0 && s[i - 1] == '1'
    {
      NotYetDone(part, g, i, depth);
      DoublingStep(s, part, part0, g, i, depth);
      part := 2 * part;
      if part >= scale {
        s := s + "1";
        part := part - scale;
        g := g - Pow(2, depth - i - 1);
      } else {
        s := s + "0";
      }
      i := i + 1;
    }
    Cancel(Bits(s), part0, |s|, depth);
  }

  lemma StartOfLoop(part: nat, scale: nat)
    ensures Pow(2, 0) == 1 && part == part * Pow(2, 0) && Bits("") * scale == 0
  {
  }

  /** A rest that is a positive multiple of 2^i below 2^depth leaves i below depth. */
  lemma NotYetDone(part: nat, g: nat, i: nat, depth: nat)
    requires 0 < part < Pow(2, depth) && part == g * Pow(2, i)
    ensures i < depth
  {
    hide Pow;
    MulAtLeast(g, Pow(2, i));
    if i >= depth {
      PowMonotone(2, depth, i);
    }
  }

  lemma DoublingStep(s: string, part: nat, part0: nat, g: nat, i: nat, depth: nat)
    requires part == g * Pow(2, i) && part < Pow(2, depth) && i < depth
    requires Bits(s) * Pow(2, depth) + part == part0 * Pow(2, i)
    ensures 2 * part == g * Pow(2, i + 1)
    ensures Bits(s + "0") * Pow(2, depth) + 2 * part == part0 * Pow(2, i + 1)
    ensures 2 * part >= Pow(2, depth) ==>
      && g >= Pow(2, depth - i - 1)
      && 2 * part - Pow(2, depth) == (g - Pow(2, depth - i - 1)) * Pow(2, i + 1)
      && Bits(s + "1") * Pow(2, depth) + (2 * part - Pow(2, depth)) == part0 * Pow(2, i + 1)
  {
    var scale, p, q := Pow(2, depth), Pow(2, i), Pow(2, depth - i - 1);
    assert Pow(2, i + 1) == 2 * p;
    AppendBit(s);
    hide Pow, Bits;
    PowAdd(2, depth - i - 1, i + 1);
    assert scale == q * (2 * p);
    DoubleRight(g, p);
    DoubleRight(part0, p);
    DoubleLeft(Bits(s), scale);
    if 2 * part >= scale {
      MulReflects(q, g, 2 * p);
      Distribute(g - q, q, 2 * p);
      Distribute(2 * Bits(s), 1, scale);
    }
  }

  lemma MulReflects(a: nat, b: nat, m: nat)
    requires a * m <= b * m && m >= 1
    ensures a <= b
  {
    Distribute(a - b, b, m);
    MulAtLeast(a - b, m);
  }

  lemma AppendBit(s: string)
    ensures Bits(s + "0") == 2 * Bits(s) && Bits(s + "1") == 2 * Bits(s) + 1
  {
    assert (s + "0")[..|s|] == s == (s + "1")[..|s|];
  }

  lemma DoubleRight(a: nat, p: nat)
    ensures a * (2 * p) == 2 * (a * p)
  {
  }

  lemma DoubleLeft(a: nat, p: nat)
    ensures (2 * a) * p == 2 * (a * p)
  {
  }

  lemma Distribute(a: int, b: int, p: nat)
    ensures (a + b) * p == a * p + b * p
  {
  }

  lemma Cancel(bits: nat, part: nat, i: nat, depth: nat)
    requires i <= depth && bits * Pow(2, depth) == part * Pow(2, i)
    ensures bits * Pow(2, depth - i) == part
  {
    hide Pow;
    PowAdd(2, depth - i, i);
    MulAssociative(bits, Pow(2, depth - i), Pow(2, i));
    CancelRight(bits * Pow(2, depth - i), part, Pow(2, i));
  }

  lemma CancelRight(a: nat, b: nat, p: nat)
    requires p >= 1 && a * p == b * p
    ensures a == b
  {
    MulReflects(a, b, p);
    MulReflects(b, a, p);
  }

  // ---- the value of a double --------------------------------------------------------------

  /**
   The notation has the value IEEE 754 gives the fields, (1 + f / 2^52) * 2^(e - 1023), or
   f / 2^52 * 2^-1022 where e is zero; both sides multiplied by 2^1023 * 2^52 and 2^|part|.
   */
  ghost predicate HasValue(whole: string, part: string, e: nat, f: nat) {
    var bits := Bits(whole) * Pow(2, |part|) + Bits(part);
    bits * Pow(2, 1023 + 52) == (if e == 0 then 2 * f else Pow(2, 52) + f) * Pow(2, e + |part|)
  }

  lemma {:induction false} HiddenBit()
    ensures Pow(2, 52) == HIDDEN_BIT
  {
    assert Pow(2, 13) == 8192;
    hide Pow;
    PowAdd(2, 13, 13);
    PowAdd(2, 26, 26);
  }

  lemma UnitsAreValue(whole: string, part: string, e: nat, f: nat, depth: nat)
    requires |part| <= depth == 1074 && Magnitude(whole, part, depth) == Units(e, f)
    ensures HasValue(whole, part, e, f)
  {
    hide Pow, Bits, Units, Magnitude;
    var p, q, r := Pow(2, |part|), Pow(2, depth), Pow(2, depth - |part|);
    var w, b := Bits(whole), Bits(part);
    PowAdd(2, depth - |part|, |part|);
    MagnitudeIs(whole, part, depth);
    UnitsTwice(e, f);
    HiddenBit();
    TwoTo(depth);
    Scale(w, b, p, q, r, Units(e, f));
    PowAdd(2, e, |part|);
    var m := if e == 0 then 2 * f else Pow(2, 52) + f;
    DoubleLeft(Units(e, f), p);
    DoubleRight(w * p + b, q);
    MulAssociative(m, Pow(2, e), p);
  }

  lemma MagnitudeIs(whole: string, part: string, depth: nat)
    requires |part| <= depth
    ensures Magnitude(whole, part, depth) == Bits(whole) * Pow(2, depth) + Bits(part) * Pow(2, depth - |part|)
  {
  }

  lemma UnitsTwice(e: nat, f: nat)
    ensures 2 * Units(e, f) == (if e == 0 then 2 * f else HIDDEN_BIT + f) * Pow(2, e)
  {
    if e > 0 {
      var p := Pow(2, e - 1);
      assert Pow(2, e) == 2 * p;
      hide Pow;
      DoubleRight(HIDDEN_BIT + f, p);
    }
  }

  lemma TwoTo(n: nat)
    ensures Pow(2, n + 1) == 2 * Pow(2, n)
  {
  }

  lemma Scale(w: nat, b: nat, p: nat, q: nat, r: nat, units: nat)
    requires q == r * p && w * q + b * r == units
    ensures (w * p + b) * q == units * p
  {
    Distribute(w * q, b * r, p);
    Distribute(w * p, b, q);
    Swap(w, p, q);
    assert (b * r) * p == b * (r * p) by {
      MulAssociative(b, r, p);
    }
  }

  lemma Swap(a: nat, b: nat, c: nat)
    ensures (a * b) * c == (a * c) * b
  {
  }

  /** Binary notation read from the left: places double, and the digits are '0' and '1'. */
  lemma {:induction false} BitsArePlaces(a: string, b: string)
    ensures Bits(a + b) == Bits(a) * Pow(2, |b|) + Bits(b)
    ensures Bits("0") == 0 && Bits("1") == 1
  {
    assert "0"[..0] == "1"[..0] == "";
    if b == "" {
      assert a + b == a;
    } else {
      var front := b[..|b| - 1];
      BitsArePlaces(a, front);
      assert (a + b)[..|a + b| - 1] == a + front;
      var p := Pow(2, |front|);
      assert Pow(2, |b|) == 2 * p;
      hide Pow;
      DoubleRight(Bits(a), p);
    }
  }

  // ---- the printer ------------------------------------------------------------------------

  /** The text of a number with this sign and these fields: exact, and in shortest notation. */
  ghost predicate Denotes(s: string, negative: bool, e: nat, f: nat) {
    exists whole, part ::
      s == Compose(negative, whole, part) && Shortest(negative, whole, part) && HasValue(whole, part, e, f)
  }

  /** What is printed is the shortest notation of exactly the double's value. */
  method ToStringRadix2(v: Double) returns (s: string)
    requires v.Valid()
    ensures Read(s, DEPTH) == Some(Meaning(v)) && Canonical(s)
    ensures v.NaN? ==> s == "NaN"
    ensures v.Infinity? ==> s == if v.negative then "-Infinity" else "Infinity"
    ensures v.Finite? ==> Denotes(s, v.negative && (v.exponent != 0 || v.fraction != 0), v.exponent, v.fraction)
  {
    if v.NaN? {
      return "NaN";
    }
    if v.Infinity? {
      return if v.negative then "-Infinity" else "Infinity";
    }
    s := PrintFinite(v.negative, v.exponent, v.fraction);
  }

  method PrintFinite(signBit: bool, e: nat, f: nat) returns (s: string)
    requires f < HIDDEN_BIT
    ensures Read(s, DEPTH) == Some(Number(signBit && Units(e, f) != 0, Units(e, f))) && Canonical(s)
    ensures Denotes(s, signBit && (e != 0 || f != 0), e, f)
  {
    hide Pow, Units, Read, Bits, Compose, Canonical, HasValue, Magnitude;
    var units := Units(e, f);
    OnlyZeroIsZero(e, f);
    var scale := Pow(2, DEPTH);
    var negative := signBit && units != 0;
    var whole, part := units / scale, units % scale;
    var wholeText := PrintWhole(whole, e, f);
    var partText := "";
    if part != 0 {
      partText := PrintFraction(part, DEPTH);
    }
    s := Compose(negative, wholeText, partText);
    ComposedReads(negative, wholeText, partText, DEPTH);
    Reassemble(units, whole, part, wholeText, partText, DEPTH);
    UnitsAreValue(wholeText, partText, e, f, DEPTH);
    ShortestIsCanonical(negative, wholeText, partText);
  }

  lemma OnlyZeroIsZero(e: nat, f: nat)
    ensures Units(e, f) == 0 <==> e == 0 && f == 0
  {
    if e != 0 {
      MulMonotone(1, Pow(2, e - 1), HIDDEN_BIT + f);
    }
  }

  lemma ShortestIsCanonical(negative: bool, whole: string, part: string)
    requires Shortest(negative, whole, part)
    ensures Canonical(Compose(negative, whole, part))
  {
    hide Compose, Shortest;
  }

  lemma Reassemble(units: nat, whole: nat, part: nat, wholeText: string, partText: string, depth: nat)
    requires whole == units / Pow(2, depth) && part == units % Pow(2, depth) && Bits(wholeText) == whole
    requires (part == 0 && partText == "")
      || (|partText| <= depth && Bits(partText) * Pow(2, depth - |partText|) == part)
    ensures Magnitude(wholeText, partText, depth) == units
    ensures units != 0 ==> wholeText != "0" || partText != ""
  {
    hide Pow;
    EmptyIsZero(Pow(2, depth));
    assert Bits("0") == 0 by {
      assert "0"[..0] == "";
    }
    MulAtLeast(0, Pow(2, depth));
    assert units == whole * Pow(2, depth) + part;
  }

  // ---- one text per value -----------------------------------------------------------------

  lemma {:induction false} SameLengthInjective(a: string, b: string)
    requires AllBits(a) && AllBits(b) && |a| == |b| && Bits(a) == Bits(b)
    ensures a == b
  {
    if a != "" {
      var n := |a| - 1;
      SameLengthInjective(a[..n], b[..n]);
      assert a == a[..n] + [a[n]] && b == b[..n] + [b[n]];
    }
  }

  lemma {:induction false} LeadingOne(s: string)
    requires s != "" && s[0] == '1'
    ensures Bits(s) >= Pow(2, |s| - 1)
  {
    if |s| > 1 {
      LeadingOne(s[..|s| - 1]);
    }
  }

  lemma WholeUnique(a: string, b: string)
    requires AllBits(a) && AllBits(b) && a != "" && b != "" && Bits(a) == Bits(b)
    requires (a[0] == '0' ==> |a| == 1) && (b[0] == '0' ==> |b| == 1)
    ensures a == b
  {
    if |a| < |b| {
      LongerIsLarger(a, b);
    } else if |b| < |a| {
      LongerIsLarger(b, a);
    }
    SameLengthInjective(a, b);
  }

  lemma LongerIsLarger(a: string, b: string)
    requires AllBits(b) && |a| < |b| && b[0] == '1'
    ensures Bits(a) < Bits(b)
  {
    hide Bits;
    BitsBelow(a);
    LeadingOne(b);
    PowMonotone(2, |a|, |b| - 1);
  }

  lemma PartUnique(a: string, b: string, depth: nat)
    requires AllBits(a) && AllBits(b) && |a| <= depth && |b| <= depth
    requires (a != "" ==> a[|a| - 1] == '1') && (b != "" ==> b[|b| - 1] == '1')
    requires Bits(a) * Pow(2, depth - |a|) == Bits(b) * Pow(2, depth - |b|)
    ensures a == b
  {
    hide Pow, Bits;
    var x, y := a + Zeros(depth - |a|), b + Zeros(depth - |b|);
    ShiftedBits(a, depth - |a|);
    ShiftedBits(b, depth - |b|);
    assert |a| < |b| ==> x[|b| - 1] == '0' && y[|b| - 1] == '1';
    assert |b| < |a| ==> y[|a| - 1] == '0' && x[|a| - 1] == '1';
    SameLengthInjective(x, y);
    assert x[..|a|] == a && y[..|b|] == b;
  }

  lemma PartBelow(part: string, depth: nat)
    requires |part| <= depth
    ensures Bits(part) * Pow(2, depth - |part|) < Pow(2, depth)
  {
    hide Pow, Bits;
    BitsBelow(part);
    PowAdd(2, |part|, depth - |part|);
    MulMonotone(Bits(part) + 1, Pow(2, |part|), Pow(2, depth - |part|));
    Distribute(Bits(part), 1, Pow(2, depth - |part|));
  }

  lemma MagnitudeParts(whole: string, part: string, depth: nat)
    requires |part| <= depth
    ensures Magnitude(whole, part, depth) / Pow(2, depth) == Bits(whole)
    ensures Magnitude(whole, part, depth) % Pow(2, depth) == Bits(part) * Pow(2, depth - |part|)
  {
    hide Pow, Bits;
    PartBelow(part, depth);
    DivMod(Bits(whole), Bits(part) * Pow(2, depth - |part|), Pow(2, depth));
  }

  /** Two shortest notations of the same value are the same text. */
  lemma ShortestUnique(n1: bool, w1: string, p1: string, n2: bool, w2: string, p2: string, depth: nat)
    requires Shortest(n1, w1, p1) && Shortest(n2, w2, p2) && |p1| <= depth && |p2| <= depth
    requires n1 == n2 && Magnitude(w1, p1, depth) == Magnitude(w2, p2, depth)
    ensures w1 == w2 && p1 == p2
  {
    hide Pow, Bits, Magnitude;
    MagnitudeParts(w1, p1, depth);
    MagnitudeParts(w2, p2, depth);
    WholeUnique(w1, w2);
    PartUnique(p1, p2, depth);
  }

  /** Hence a double has exactly one canonical text: the printer's result is determined by its contract. */
  lemma CanonicalUnique(s: string, t: string, depth: nat)
    requires Canonical(s) && Canonical(t) && Read(s, depth).Some? && Read(s, depth) == Read(t, depth)
    ensures s == t
  {
    hide Pow, Bits, ReadMagnitude;
    if Read(s, depth).value.Number? {
      var n1, w1, p1 :| Shortest(n1, w1, p1) && s == Compose(n1, w1, p1);
      var n2, w2, p2 :| Shortest(n2, w2, p2) && t == Compose(n2, w2, p2);
      ComposedReads(n1, w1, p1, depth);
      ComposedReads(n2, w2, p2, depth);
      ShortestUnique(n1, w1, p1, n2, w2, p2, depth);
    } else {
      NamesOnly(s, depth);
      NamesOnly(t, depth);
    }
  }

  lemma NamesOnly(s: string, depth: nat)
    requires Read(s, depth).Some? && !Read(s, depth).value.Number?
    ensures var r := Read(s, depth).value;
      s == if r.NotANumber? then "NaN" else if r.negative then "-Infinity" else "Infinity"
  {
  }

  /** Different doubles have different meanings, zeros apart. */
  lemma UnitsInjective(e1: nat, f1: nat, e2: nat, f2: nat)
    requires f1 < HIDDEN_BIT && f2 < HIDDEN_BIT && Units(e1, f1) == Units(e2, f2)
    ensures e1 == e2 && f1 == f2
  {
    if e1 < e2 {
      SmallerExponentIsSmaller(e1, f1, e2, f2);
    } else if e2 < e1 {
      SmallerExponentIsSmaller(e2, f2, e1, f1);
    } else if e1 != 0 {
      CancelRight(HIDDEN_BIT + f1, HIDDEN_BIT + f2, Pow(2, e1 - 1));
    }
  }

  lemma SmallerExponentIsSmaller(e1: nat, f1: nat, e2: nat, f2: nat)
    requires f1 < HIDDEN_BIT && f2 < HIDDEN_BIT && e1 < e2
    ensures Units(e1, f1) < Units(e2, f2)
  {
    if e1 == 0 {
      MulMonotone(1, Pow(2, e2 - 1), HIDDEN_BIT + f2);
    } else {
      var p, q := Pow(2, e1 - 1), Pow(2, e2 - 1);
      PowMonotone(2, e1, e2 - 1);
      assert q >= 2 * p;
      MulMonotone(HIDDEN_BIT, HIDDEN_BIT + f2, q);
      MulMonotone(HIDDEN_BIT + f1 + 1, 2 * HIDDEN_BIT, p);
      Distribute(HIDDEN_BIT + f1, 1, p);
      MulMonotone(2 * p, q, HIDDEN_BIT);
    }
  }

  /** So two doubles that print the same text are equal, or both are zero. */
  lemma PrintingIsInjective(s: string, v: Double, w: Double, depth: nat)
    requires v.Valid() && w.Valid() && Read(s, depth) == Some(Meaning(v)) == Some(Meaning(w))
    ensures v == w || (v.Finite? && w.Finite? && v.exponent == w.exponent == 0 && v.fraction == w.fraction == 0)
  {
    hide Read;
    if v.Finite? {
      UnitsInjective(v.exponent, v.fraction, w.exponent, w.fraction);
      if Units(v.exponent, v.fraction) == 0 {
        UnitsInjective(v.exponent, v.fraction, 0, 0);
      }
    }
  }
}
