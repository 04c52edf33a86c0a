/**
 Number::toString for base 10 (ECMA-262 section 6.1.6.1.20), jsNumberToString in
 src/cs_data_processor-go/jsutil.go.  A finite non-zero number is given by its shortest
 decimal digits and the position n of the decimal point: 0.d1...dk times ten to the n.
 */
module NumberLayout {
  import opened Options
  import opened Powers
  import opened Decimal

  datatype JsNumber =
    | NaN
    | Infinity(negative: bool)
    | Zero(negative: bool)
    | Finite(negative: bool, digits: seq<Digit>, n: int)

  /** Shortest digits have no zero at either end. */
  predicate Normal(v: JsNumber) {
    v.Finite? ==> v.digits != [] && v.digits[0] != 0 && v.digits[|v.digits| - 1] != 0
  }

  const NAN_TEXT: Bytes := [78, 97, 78]
  const INFINITY_TEXT: Bytes := [73, 110, 102, 105, 110, 105, 116, 121]
  const NULL_TEXT: Bytes := [110, 117, 108, 108]

  function NumberToString(v: JsNumber): Bytes
    requires Normal(v)
  {
    match v
    case NaN => NAN_TEXT
    case Infinity(negative) => Sign(negative) + INFINITY_TEXT
    case Zero(_) => [ZERO]
    case Finite(negative, digits, n) => Sign(negative) + Layout(digits, n)
  }

  function Layout(digits: seq<Digit>, n: int): Bytes
    requires digits != []
  {
    var k := |digits|;
    if k <= n <= 21 then Text(digits) + Text(Zeros(n - k))
    else if 0 < n <= 21 then Text(digits[..n]) + [POINT] + Text(digits[n..])
    else if -6 < n <= 0 then [ZERO, POINT] + Text(Zeros(-n)) + Text(digits)
    else
      var expPart := n - 1;
      var expSign := if expPart < 0 then MINUS else PLUS;
      var exponent := Text(Digits(if expPart < 0 then -expPart else expPart));
      if k == 1 then Text(digits) + [LOWER_E] + [expSign] + exponent
      else Text(digits[..1]) + [POINT] + Text(digits[1..]) + [LOWER_E] + [expSign] + exponent
  }

  /** JSON.stringify of a number: what is not finite becomes null. */
  function JsonNumber(v: JsNumber): Bytes
    requires Normal(v)
  {
    if v.NaN? || v.Infinity? then NULL_TEXT else NumberToString(v)
  }

  /** The exact value of a finite number. */
  function Value(v: JsNumber): Dec
    requires v.Finite? || v.Zero?
  {
    if v.Zero? then Dec(0, 0) else Dec(Signed(v.negative, Nat(v.digits)), v.n - |v.digits|)
  }

  // ---- round trip -------------------------------------------------------------------------

  /** Integer digits, fraction digits and exponent of each layout. */
  ghost function Parts(digits: seq<Digit>, n: int): (seq<Digit>, seq<Digit>, Option<int>)
    requires digits != []
  {
    var k := |digits|;
    if k <= n <= 21 then (digits + Zeros(n - k), [], None)
    else if 0 < n <= 21 then (digits[..n], digits[n..], None)
    else if -6 < n <= 0 then ([0], Zeros(-n) + digits, None)
    else (digits[..1], digits[1..], Some(n - 1))
  }

  lemma TextConcat(a: seq<Digit>, b: seq<Digit>)
    ensures Text(a + b) == Text(a) + Text(b)
  {
  }

  lemma LayoutHasParts(digits: seq<Digit>, n: int, rest: Bytes)
    requires digits != []
    ensures var (ip, fp, e) := Parts(digits, n);
      Layout(digits, n) + rest == Text(ip) + (FractionText(fp) + (ExponentText(e) + rest))
  {
    var k := |digits|;
    assert [] + rest == rest;
    if k <= n <= 21 {
      TextConcat(digits, Zeros(n - k));
    } else if 0 < n <= 21 {
      Regroup(Text(digits[..n]), [POINT], Text(digits[n..]), rest);
    } else if -6 < n <= 0 {
      hide Text;
      TextConcat(Zeros(-n), digits);
      ZeroText();
      Regroup([ZERO], [POINT], Text(Zeros(-n)) + Text(digits), rest);
      assert [ZERO, POINT] + Text(Zeros(-n)) + Text(digits) == [ZERO] + [POINT] + (Text(Zeros(-n)) + Text(digits));
    } else {
      ExponentHasParts(digits, n, rest);
    }
  }

  lemma ZeroText()
    ensures Text([0]) == [ZERO]
  {
  }

  lemma Regroup(a: Bytes, b: Bytes, c: Bytes, rest: Bytes)
    ensures a + b + c + rest == a + ((b + c) + rest)
  {
    Assoc(a, b, c);
    Assoc(a, b + c, rest);
  }

  lemma ExponentHasParts(digits: seq<Digit>, n: int, rest: Bytes)
    requires digits != [] && !(-6 < n <= 21)
    ensures Layout(digits, n) + rest
      == Text(digits[..1]) + (FractionText(digits[1..]) + (ExponentText(Some(n - 1)) + rest))
  {
    hide Text, Digits;
    var expSign: Byte := if n - 1 < 0 then MINUS else PLUS;
    var x := Text(Digits(if n - 1 < 0 then -(n - 1) else n - 1));
    var e := [LOWER_E, expSign] + x;
    assert ExponentText(Some(n - 1)) == e;
    var i, f := Text(digits[..1]), FractionText(digits[1..]);
    if |digits| == 1 {
      assert digits[..1] == digits && digits[1..] == [];
      NothingBetween(i, e);
    } else {
      Assoc(i, [POINT], Text(digits[1..]));
    }
    assert Layout(digits, n) == (i + f) + [LOWER_E] + [expSign] + x;
    Assoc(i + f, [LOWER_E], [expSign]);
    assert [LOWER_E] + [expSign] == [LOWER_E, expSign];
    Assoc(i + f, [LOWER_E, expSign], x);
    Assoc(i + f, e, rest);
    Assoc(i, f, e + rest);
  }

  lemma NothingBetween(a: Bytes, b: Bytes)
    ensures a + [] == a && [] + b == b
  {
  }

  /** Every layout keeps the digits and the place of the point. */
  lemma PartsKeepValue(digits: seq<Digit>, n: int, negative: bool)
    requires Normal(Finite(negative, digits, n)) && digits != []
    ensures var (ip, fp, e) := Parts(digits, n);
      && ip != [] && (|ip| > 1 ==> ip[0] != 0)
      && Norm(Signed(negative, Nat(ip + fp)), (if e.Some? then e.value else 0) - |fp|)
         == Norm(Signed(negative, Nat(digits)), n - |digits|)
  {
    hide Norm, Nat;
    var k := |digits|;
    var (ip, fp, e) := Parts(digits, n);
    if k <= n <= 21 {
      assert ip + fp == digits + Zeros(n - k);
      PaddedValue(digits, n - k, negative);
    } else if 0 < n <= 21 {
      assert ip + fp == digits;
    } else if -6 < n <= 0 {
      assert ip + fp == Zeros(1 - n) + digits;
      NatConcat(Zeros(1 - n), digits);
      NatZeros(1 - n);
    } else {
      assert ip + fp == digits;
    }
  }

  lemma PaddedValue(digits: seq<Digit>, z: nat, negative: bool)
    ensures Norm(Signed(negative, Nat(digits + Zeros(z))), 0) == Norm(Signed(negative, Nat(digits)), z)
  {
    hide Nat, Norm;
    NatConcat(digits, Zeros(z));
    NatZeros(z);
    SignedProduct(negative, Nat(digits), Pow(10, z));
    NormShift(Signed(negative, Nat(digits)), 0, z);
  }

  lemma SignedProduct(negative: bool, a: nat, b: nat)
    ensures Signed(negative, a * b) == Signed(negative, a) * b
  {
  }

  lemma NormalIsNorm(negative: bool, digits: seq<Digit>, e: int)
    requires digits != [] && digits[|digits| - 1] != 0
    ensures Norm(Signed(negative, Nat(digits)), e) == Dec(Signed(negative, Nat(digits)), e)
  {
    assert Nat(digits) % 10 == digits[|digits| - 1];
  }

  /** Number layout round trip: the printed text parses back to exactly the number's value. */
  lemma PrintedNumberParses(v: JsNumber, rest: Bytes)
    requires Normal(v) && (v.Finite? || v.Zero?) && EndsNumber(rest)
    ensures ParseNumber(NumberToString(v) + rest) == Some((Value(v), rest))
  {
    hide Norm, Layout, ParseNumber, Parts, Text, FractionText, ExponentText, Nat;
    if v.Zero? {
      PrintedZeroParses(rest);
    } else {
      var (ip, fp, e) := Parts(v.digits, v.n);
      PartsKeepValue(v.digits, v.n, v.negative);
      NormalIsNorm(v.negative, v.digits, v.n - |v.digits|);
      LayoutHasParts(v.digits, v.n, rest);
      ParsesShape(v.negative, ip, fp, e, rest);
      var l := Layout(v.digits, v.n);
      Assoc(Sign(v.negative), l, rest);
    }
  }

  lemma PrintedZeroParses(rest: Bytes)
    requires EndsNumber(rest)
    ensures ParseNumber([ZERO] + rest) == Some((Dec(0, 0), rest))
  {
    hide ParseNumber;
    ParsesShape(false, [0], [], None, rest);
    ZeroText();
    NothingBetween([ZERO], rest);
    NothingBetween([ZERO], [ZERO] + rest);
    assert [0] + [] == [0] && [0][..0] == [] && Nat([0]) == 0;
  }

  /** The names of the numbers that are not finite, and JSON's word for them. */
  lemma NamesOfNumbers(negative: bool)
    ensures NumberToString(NaN) == Ascii("NaN") && NumberToString(Zero(negative)) == Ascii("0")
    ensures NumberToString(Infinity(false)) == Ascii("Infinity")
    ensures NumberToString(Infinity(true)) == Ascii("-Infinity")
    ensures JsonNumber(NaN) == JsonNumber(Infinity(negative)) == Ascii("null")
  {
  }

  /** Different numbers print differently; the two zeros are the one exception. */
  lemma DistinctNumbersPrintDistinctly(u: JsNumber, v: JsNumber)
    requires Normal(u) && Normal(v) && (u.Finite? || u.Zero?) && (v.Finite? || v.Zero?)
    requires NumberToString(u) == NumberToString(v)
    ensures u == v || (u.Zero? && v.Zero?)
  {
    PrintedNumberParses(u, []);
    PrintedNumberParses(v, []);
    if u.Finite? {
      NatAtLeast(u.digits);
    }
    if v.Finite? {
      NatAtLeast(v.digits);
    }
    if u.Finite? && v.Finite? {
      NatInjective(u.digits, v.digits);
    }
  }

  /**
   Which layout is chosen: an exponent (byte 101) outside -6 < n <= 21, with its sign (43 or 45), and a
   point (byte 46) when digits follow it; and no byte more than these take.
   */
  lemma LayoutChoice(digits: seq<Digit>, n: int)
    requires digits != []
    ensures 101 in Layout(digits, n) <==> !(-6 < n <= 21)
    ensures 46 in Layout(digits, n) <==> if -6 < n <= 21 then n < |digits| else |digits| > 1
    ensures |digits| <= n <= 21 ==> |Layout(digits, n)| == n
    ensures 0 < n < |digits| && n <= 21 ==> |Layout(digits, n)| == |digits| + 1 && Layout(digits, n)[n] == 46
    ensures -6 < n <= 0 ==> |Layout(digits, n)| == |digits| + 2 - n && Layout(digits, n)[0] == 48
    ensures !(-6 < n <= 21) ==>
      var p := if |digits| == 1 then 1 else |digits| + 1;
      && |Layout(digits, n)| == p + 2 + |Digits(if n > 0 then n - 1 else 1 - n)|
      && Layout(digits, n)[p] == 101 && Layout(digits, n)[p + 1] == if n > 0 then 43 else 45
  {
    hide Digits, Nat;
    var k := |digits|;
    if k <= n <= 21 {
    } else if 0 < n <= 21 {
      assert Layout(digits, n)[n] == POINT;
    } else if -6 < n <= 0 {
      assert Layout(digits, n)[1] == POINT;
    } else {
      ExponentLayout(digits, n);
    }
  }

  lemma ExponentLayout(digits: seq<Digit>, n: int)
    requires digits != [] && !(-6 < n <= 21)
    ensures var p := if |digits| == 1 then 1 else |digits| + 1;
      var l := Layout(digits, n);
      && |l| == p + 2 + |Digits(if n > 0 then n - 1 else 1 - n)|
      && l[p] == 101 && l[p + 1] == (if n > 0 then 43 else 45)
      && (46 in l <==> |digits| > 1)
  {
    hide Digits, Nat;
    if |digits| > 1 {
      assert Layout(digits, n)[1] == POINT;
    }
  }
}
