/**
 Decimal numbers in text: digit sequences, the number grammar of RFC 8259 section 6 as a
 parser, and its exact value.
 */
module Decimal {
  import opened Options
  import opened Powers

  type Byte = b: int | 0 <= b < 256
  type Bytes = seq<Byte>
  type Digit = d: int | 0 <= d < 10

  const ZERO: Byte := 48
  const MINUS: Byte := 45
  const PLUS: Byte := 43
  const POINT: Byte := 46
  const LOWER_E: Byte := 101

  lemma Assoc(a: Bytes, b: Bytes, c: Bytes)
    ensures a + b + c == a + (b + c)
  {
  }

  /** The bytes of ASCII text. */
  function Ascii(s: string): (t: Bytes)
    requires forall i :: 0 <= i < |s| ==> s[i] as int < 128
    ensures |t| == |s| && forall i :: 0 <= i < |s| ==> t[i] == s[i] as int
  {
    seq(|s|, i requires 0 <= i < |s| => s[i] as int)
  }

  predicate IsDigit(b: Byte) {
    48 <= b <= 57
  }

  function Text(ds: seq<Digit>): (t: Bytes)
    ensures |t| == |ds| && forall i :: 0 <= i < |t| ==> t[i] == ZERO + ds[i]
  {
    seq(|ds|, i requires 0 <= i < |ds| => ZERO + ds[i])
  }

  /** The number a digit sequence denotes, most significant digit first. */
  function Nat(ds: seq<Digit>): nat {
    if ds == [] then 0 else Nat(ds[..|ds| - 1]) * 10 + ds[|ds| - 1]
  }

  /** The digits of n without leading zeros. */
  function Digits(n: nat): (ds: seq<Digit>)
    ensures ds != [] && Nat(ds) == n && (|ds| > 1 ==> ds[0] != 0)
  {
    if n < 10 then
      var ds: seq<Digit> := [n];
      assert ds[..0] == [];
      ds
    else
      var front := Digits(n / 10);
      var ds := front + [n % 10];
      assert ds[..|ds| - 1] == front;
      FirstDigitKept(front, n / 10);
      ds
  }

  lemma FirstDigitKept(ds: seq<Digit>, n: nat)
    requires ds != [] && Nat(ds) == n > 0 && (|ds| > 1 ==> ds[0] != 0)
    ensures ds[0] != 0
  {
    if |ds| == 1 {
      assert ds[..0] == [];
    }
  }

  function Zeros(n: nat): seq<Digit> {
    seq(n, _ => 0)
  }

  lemma {:induction false} NatConcat(a: seq<Digit>, b: seq<Digit>)
    ensures Nat(a + b) == Nat(a) * Pow(10, |b|) + Nat(b)
  {
    if b == [] {
      assert a + b == a;
    } else {
      var front := b[..|b| - 1];
      NatConcat(a, front);
      assert (a + b)[..|a + b| - 1] == a + front;
      assert Nat(a) * (10 * Pow(10, |front|)) == (Nat(a) * Pow(10, |front|)) * 10;
    }
  }

  lemma {:induction false} NatZeros(n: nat)
    ensures Nat(Zeros(n)) == 0
  {
    if n > 0 {
      NatZeros(n - 1);
      assert Zeros(n)[..n - 1] == Zeros(n - 1);
    }
  }

  lemma {:induction false} NatBelow(ds: seq<Digit>)
    ensures Nat(ds) < Pow(10, |ds|)
  {
    if ds != [] {
      NatBelow(ds[..|ds| - 1]);
    }
  }

  lemma NatAtLeast(ds: seq<Digit>)
    requires ds != [] && ds[0] != 0
    ensures Pow(10, |ds| - 1) <= Nat(ds)
  {
    var p := Pow(10, |ds| - 1);
    assert Nat(ds) == ds[0] * p + Nat(ds[1..]) by {
      assert ds == [ds[0]] + ds[1..];
      NatConcat([ds[0]], ds[1..]);
      assert [ds[0]][..0] == [];
    }
    hide Pow, Nat;
    assert ds[0] * p == p + (ds[0] - 1) * p;
  }

  /** Without leading zeros a number has one digit sequence. */
  lemma {:induction false} NatInjective(a: seq<Digit>, b: seq<Digit>)
    requires a != [] && b != [] && a[0] != 0 && b[0] != 0 && Nat(a) == Nat(b)
    ensures a == b
  {
    NatAtLeast(a);
    NatAtLeast(b);
    NatBelow(a);
    NatBelow(b);
    if |a| < |b| {
      PowMonotone(10, |a|, |b| - 1);
    } else if |b| < |a| {
      PowMonotone(10, |b|, |a| - 1);
    } else {
      SameLengthInjective(a, b);
    }
  }

  lemma {:induction false} SameLengthInjective(a: seq<Digit>, b: seq<Digit>)
    requires |a| == |b| && Nat(a) == Nat(b)
    ensures a == b
  {
    if a != [] {
      SameLengthInjective(a[..|a| - 1], b[..|b| - 1]);
      assert a == a[..|a| - 1] + [a[|a| - 1]];
      assert b == b[..|b| - 1] + [b[|b| - 1]];
    }
  }

  // ---- exact decimal values ---------------------------------------------------------------

  /** m times ten to the e. */
  datatype Dec = Dec(m: int, e: int)

  /** The same value with the trailing zeros of m moved into e; equal values become equal. */
  function Norm(m: int, e: int): Dec
    decreases if m < 0 then -m else m
  {
    if m == 0 then Dec(0, 0)
    else if m % 10 == 0 then Norm(m / 10, e + 1)
    else Dec(m, e)
  }

  lemma NormTen(p: int, e: int)
    requires p != 0
    ensures Norm(10 * p, e) == Norm(p, e + 1)
  {
  }

  lemma TenTimes(m: int, z: nat)
    requires z > 0
    ensures m * Pow(10, z) == 10 * (m * Pow(10, z - 1))
    ensures m != 0 ==> m * Pow(10, z - 1) != 0
  {
    var p := Pow(10, z - 1);
    assert Pow(10, z) == 10 * p;
    hide Pow;
    Reorder(m, p);
  }

  lemma Reorder(m: int, p: nat)
    ensures m * (10 * p) == 10 * (m * p)
    ensures m != 0 && p >= 1 ==> m * p != 0
  {
  }

  lemma NoShift(m: int)
    ensures m * Pow(10, 0) == m
  {
  }

  lemma ZeroTimes(p: nat)
    ensures 0 * p == 0
  {
  }

  lemma {:induction false} NormShift(m: int, e: int, z: nat)
    ensures Norm(m * Pow(10, z), e) == Norm(m, e + z)
    decreases z
  {
    if m == 0 {
      ZeroTimes(Pow(10, z));
    } else if z == 0 {
      NoShift(m);
    } else {
      hide Norm, Pow;
      TenTimes(m, z);
      NormTen(m * Pow(10, z - 1), e);
      NormShift(m, e + 1, z - 1);
    }
  }

  // ---- the grammar ------------------------------------------------------------------------

  /**
   The reader has the bytes of the grammar as numbers of its own. The longest run of digits at the
   front, and what follows it.
   */
  function TakeDigits(s: Bytes): (r: (seq<Digit>, Bytes))
    ensures s == Text(r.0) + r.1
  {
    if s == [] || !IsDigit(s[0]) then ([], s)
    else
      var (ds, rest) := TakeDigits(s[1..]);
      DigitTaken(s, ds, rest);
      ([s[0] - 48] + ds, rest)
  }

  lemma DigitTaken(s: Bytes, ds: seq<Digit>, rest: Bytes)
    requires s != [] && IsDigit(s[0]) && s[1..] == Text(ds) + rest
    ensures s == Text([s[0] - 48] + ds) + rest
  {
    assert Text([s[0] - 48] + ds) == [s[0]] + Text(ds);
    hide Text;
    Assoc([s[0]], Text(ds), rest);
    assert s == [s[0]] + s[1..];
  }

  function Signed(negative: bool, m: nat): int {
    if negative then 0 - m else m
  }

  function StartsWith(s: Bytes, b: Byte): (r: bool) {
    s != [] && s[0] == b
  }

  /** frac: a point and at least one digit, or nothing. */
  function ParseFraction(s: Bytes): (r: Option<(seq<Digit>, Bytes)>)
    ensures r.Some? ==> |r.value.1| <= |s|
  {
    if !StartsWith(s, 46) then Some(([], s))
    else
      var (ds, rest) := TakeDigits(s[1..]);
      if ds == [] then None else Some((ds, rest))
  }

  /** exp: e, an optional sign and at least one digit, or nothing. */
  function ParseExponent(s: Bytes): (r: Option<(int, Bytes)>)
    ensures r.Some? ==> |r.value.1| <= |s|
  {
    if !StartsWith(s, 101) && !StartsWith(s, 69) then Some((0, s))
    else
      var negative := StartsWith(s[1..], 45);
      var t := if negative || StartsWith(s[1..], 43) then s[2..] else s[1..];
      var (ds, rest) := TakeDigits(t);
      if ds == [] then None else Some((Signed(negative, Nat(ds)), rest))
  }

  /** number = [ minus ] int [ frac ] [ exp ], with no leading zero in int. */
  function ParseNumber(s: Bytes): (r: Option<(Dec, Bytes)>)
    ensures r.Some? ==> |r.value.1| < |s|
  {
    var negative := StartsWith(s, 45);
    var (ip, s1) := TakeDigits(if negative then s[1..] else s);
    if ip == [] || (|ip| > 1 && ip[0] == 0) then None
    else
      var fraction := ParseFraction(s1);
      if fraction.None? then None
      else
        var (fp, s2) := fraction.value;
        var exponent := ParseExponent(s2);
        if exponent.None? then None
        else
          var (e, s3) := exponent.value;
          Some((Norm(Signed(negative, Nat(ip + fp)), e - |fp|), s3))
  }

  /** What follows a number does not continue it. */
  predicate EndsNumber(rest: Bytes) {
    rest != [] ==> !IsDigit(rest[0]) && rest[0] != 46 && rest[0] != 101 && rest[0] != 69
  }

  lemma {:induction false} TakeDigitsTakesAll(ds: seq<Digit>, rest: Bytes)
    requires rest != [] ==> !IsDigit(rest[0])
    ensures TakeDigits(Text(ds) + rest) == (ds, rest)
  {
    var s := Text(ds) + rest;
    if ds == [] {
      assert s == rest;
    } else {
      assert s[1..] == Text(ds[1..]) + rest;
      TakeDigitsTakesAll(ds[1..], rest);
      assert [ds[0]] + ds[1..] == ds;
    }
  }

  // ---- numbers of the printed shapes ------------------------------------------------------

  function Sign(negative: bool): Bytes {
    if negative then [MINUS] else []
  }

  function FractionText(fp: seq<Digit>): Bytes {
    if fp == [] then [] else [POINT] + Text(fp)
  }

  function ExponentText(e: Option<int>): Bytes {
    if e.None? then []
    else [LOWER_E, if e.value < 0 then MINUS else PLUS] + Text(Digits(if e.value < 0 then -e.value else e.value))
  }

  /** The parts a number is read in, one after the other. */
  lemma ParsesParts(s: Bytes, ip: seq<Digit>, s1: Bytes, fp: seq<Digit>, s2: Bytes, e: int, s3: Bytes)
    requires ip != [] && (|ip| > 1 ==> ip[0] != 0)
    requires TakeDigits(if StartsWith(s, MINUS) then s[1..] else s) == (ip, s1)
    requires ParseFraction(s1) == Some((fp, s2)) && ParseExponent(s2) == Some((e, s3))
    ensures ParseNumber(s) == Some((Norm(Signed(StartsWith(s, MINUS), Nat(ip + fp)), e - |fp|), s3))
  {
    hide Norm, Nat, Signed, ParseFraction, ParseExponent, TakeDigits, Text;
  }

  /** Reading back sign, integer digits, fraction digits and exponent gives their exact value. */
  lemma ParsesShape(negative: bool, ip: seq<Digit>, fp: seq<Digit>, e: Option<int>, rest: Bytes)
    requires ip != [] && (|ip| > 1 ==> ip[0] != 0) && EndsNumber(rest)
    ensures ParseNumber(Sign(negative) + (Text(ip) + (FractionText(fp) + (ExponentText(e) + rest))))
      == Some((Norm(Signed(negative, Nat(ip + fp)), (if e.Some? then e.value else 0) - |fp|), rest))
  {
    hide Norm, Nat, Signed, Digits, ParseFraction, ParseExponent, TakeDigits, ParseNumber;
    hide FractionText, ExponentText, Text, Sign, StartsWith;
    var tail3 := ExponentText(e) + rest;
    var tail2 := FractionText(fp) + tail3;
    StripSign(negative, ip, tail2);
    AfterExponent(e, rest);
    AfterFraction(fp, tail3);
    ParsesExponent(e, rest);
    ParsesFraction(fp, tail3);
    TakeDigitsTakesAll(ip, tail2);
    ParsesParts(Sign(negative) + (Text(ip) + tail2), ip, tail2, fp, tail3, if e.Some? then e.value else 0, rest);
  }

  /** The reader's values: minus twelve and a half times ten to the third is -125 times ten squared. */
  lemma ReadsAsWritten()
    ensures ParseNumber(Ascii("-12.5e+3")) == Some((Dec(-125, 2), []))
  {
    hide ParseNumber;
    ParsesShape(true, [1, 2], [5], Some(3), []);
    var digits: seq<Digit> := [1, 2, 5];
    assert [1, 2] + [5] == digits && digits[..2] == [1, 2] && digits[..2][..1] == [1] && digits[..2][..1][..0] == [];
    assert Nat(digits) == 125;
    assert ExponentText(Some(3)) == [101, 43, 51];
    assert Ascii("-12.5e+3") == Sign(true) + (Text([1, 2]) + (FractionText([5]) + (ExponentText(Some(3)) + [])));
  }

  lemma StripSign(negative: bool, ip: seq<Digit>, tail: Bytes)
    requires ip != []
    ensures var s := Sign(negative) + (Text(ip) + tail);
      StartsWith(s, MINUS) == negative && (if negative then s[1..] else s) == Text(ip) + tail
  {
    var body := Text(ip) + tail;
    assert body[0] == Text(ip)[0];
    if negative {
      assert ([MINUS] + body)[1..] == body;
    } else {
      assert [] + body == body;
    }
  }

  lemma AfterExponent(e: Option<int>, rest: Bytes)
    requires EndsNumber(rest)
    ensures var tail := ExponentText(e) + rest; tail != [] ==> !IsDigit(tail[0]) && tail[0] != POINT
  {
  }

  lemma AfterFraction(fp: seq<Digit>, rest: Bytes)
    requires rest != [] ==> !IsDigit(rest[0]) && rest[0] != POINT
    ensures var tail := FractionText(fp) + rest; tail != [] ==> !IsDigit(tail[0])
  {
  }

  lemma AfterFirst(b: Byte, t: Bytes, tail: Bytes)
    ensures var s := ([b] + t) + tail; StartsWith(s, b) && s[1..] == t + tail
  {
    Assoc([b], t, tail);
    assert ([b] + (t + tail))[1..] == t + tail;
  }

  lemma ParsesFraction(fp: seq<Digit>, tail: Bytes)
    requires tail != [] ==> !IsDigit(tail[0]) && tail[0] != POINT
    ensures ParseFraction(FractionText(fp) + tail) == Some((fp, tail))
  {
    hide TakeDigits, Text;
    if fp == [] {
      assert [] + tail == tail;
    } else {
      AfterFirst(POINT, Text(fp), tail);
      TakeDigitsTakesAll(fp, tail);
    }
  }

  lemma ParsesExponent(e: Option<int>, rest: Bytes)
    requires EndsNumber(rest)
    ensures ParseExponent(ExponentText(e) + rest) == Some((if e.Some? then e.value else 0, rest))
  {
    hide TakeDigits, Nat, Digits, Text;
    var s := ExponentText(e) + rest;
    if e.None? {
      assert s == rest;
    } else {
      var ds := Digits(if e.value < 0 then -e.value else e.value);
      var sign: Byte := if e.value < 0 then MINUS else PLUS;
      Assoc([LOWER_E, sign], Text(ds), rest);
      ExponentDigits(sign, Text(ds) + rest);
      TakeDigitsTakesAll(ds, rest);
    }
  }

  lemma ExponentDigits(sign: Byte, body: Bytes)
    ensures var s := [LOWER_E, sign] + body;
      StartsWith(s, 101) && (StartsWith(s[1..], sign)) && s[2..] == body && s[1] == sign && |s[1..]| > 0
  {
    var s := [LOWER_E, sign] + body;
    assert s[1..] == [sign] + body;
  }
}
