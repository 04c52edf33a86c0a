/**
 JSON string literals (RFC 8259 section 7): jsJSONString in src/cs_data_processor-go/jsutil.go
 against a reader of escapes written from the grammar.
 */
module JsonText {
  import opened Options
  import opened Decimal

  const QUOTE: Byte := 34
  const BACKSLASH: Byte := 92
  const LOWER_U: Byte := 117

  /** The replacement character U+FFFD in UTF-8. */
  const REPLACEMENT: Bytes := [0xEF, 0xBF, 0xBD]

  predicate Continues(b: Byte) {
    0x80 <= b <= 0xBF
  }

  /** The length of the well-formed multi-byte sequence at the front; 0 if there is none. */
  function RuneSize(s: Bytes): (n: nat)
    requires s != [] && s[0] >= 0x80
    ensures n <= |s| && n <= 4 && forall i :: 0 <= i < n ==> s[i] >= 0x80
  {
    var b := s[0];
    if 0xC2 <= b <= 0xDF then
      if |s| >= 2 && Continues(s[1]) then 2 else 0
    else if 0xE0 <= b <= 0xEF then
      var lo := if b == 0xE0 then 0xA0 else 0x80;
      var hi := if b == 0xED then 0x9F else 0xBF;
      if |s| >= 3 && lo <= s[1] <= hi && Continues(s[2]) then 3 else 0
    else if 0xF0 <= b <= 0xF4 then
      var lo := if b == 0xF0 then 0x90 else 0x80;
      var hi := if b == 0xF4 then 0x8F else 0xBF;
      if |s| >= 4 && lo <= s[1] <= hi && Continues(s[2]) && Continues(s[3]) then 4 else 0
    else 0
  }

  /** How many bytes are taken together: one for ASCII and for a byte that starts nothing valid. */
  function StepSize(s: Bytes): (n: nat)
    requires s != []
    ensures 1 <= n <= |s|
  {
    if s[0] < 0x80 || RuneSize(s) == 0 then 1 else RuneSize(s)
  }

  predicate Malformed(s: Bytes)
    requires s != []
  {
    s[0] >= 0x80 && RuneSize(s) == 0
  }

  predicate ValidUtf8(s: Bytes) {
    s == [] || (!Malformed(s) && ValidUtf8(s[StepSize(s)..]))
  }

  /** s with every malformed byte replaced. */
  function Sanitize(s: Bytes): (t: Bytes)
    ensures |t| >= |s|
  {
    if s == [] then []
    else (if Malformed(s) then REPLACEMENT else s[..StepSize(s)]) + Sanitize(s[StepSize(s)..])
  }

  lemma {:induction false} SanitizeKeepsExactlyUtf8(s: Bytes)
    ensures ValidUtf8(s) <==> Sanitize(s) == s
  {
    if s != [] {
      var n := StepSize(s);
      SanitizeKeepsExactlyUtf8(s[n..]);
      assert s == s[..n] + s[n..];
      if Malformed(s) {
        assert |Sanitize(s)| > |s|;
      } else if Sanitize(s) == s {
        assert s[..n] + Sanitize(s[n..]) == s[..n] + s[n..];
        assert Sanitize(s)[n..] == s[n..];
      }
    }
  }

  // ---- Unicode ----------------------------------------------------------------------------

  /** UTF-8 of a Unicode scalar value (section 3 of RFC 3629); a surrogate has none. */
  function Utf8(cp: nat): Option<Bytes> {
    if cp < 0x80 then Some([cp])
    else if cp < 0x800 then Some([0xC0 + cp / 64, 0x80 + cp % 64])
    else if 0xD800 <= cp < 0xE000 || cp >= 0x110000 then None
    else if cp < 0x10000 then Some([0xE0 + cp / 4096, 0x80 + cp / 64 % 64, 0x80 + cp % 64])
    else Some([0xF0 + cp / 262144, 0x80 + cp / 4096 % 64, 0x80 + cp / 64 % 64, 0x80 + cp % 64])
  }

  ghost predicate Encodes(cps: seq<nat>, s: Bytes) {
    if cps == [] then s == []
    else
      var u := Utf8(cps[0]);
      u.Some? && u.value <= s && Encodes(cps[1..], s[|u.value|..])
  }

  lemma TwoBytes(a: int, b: int)
    requires 2 <= a < 32 && 0 <= b < 64
    ensures var cp := a * 64 + b; 0x80 <= cp < 0x800 && cp / 64 == a && cp % 64 == b
  {
  }

  lemma ThreeBytes(a: int, b: int, c: int)
    requires 0 <= a < 16 && 0 <= b < 64 && 0 <= c < 64
    ensures var cp := a * 4096 + b * 64 + c; cp / 4096 == a && cp / 64 % 64 == b && cp % 64 == c
  {
    assert (a * 4096 + b * 64 + c) / 64 == a * 64 + b;
  }

  lemma FourBytes(a: int, b: int, c: int, d: int)
    requires 0 <= a < 8 && 0 <= b < 64 && 0 <= c < 64 && 0 <= d < 64
    ensures var cp := a * 262144 + b * 4096 + c * 64 + d;
      cp / 262144 == a && cp / 4096 % 64 == b && cp / 64 % 64 == c && cp % 64 == d
  {
    assert (a * 262144 + b * 4096 + c * 64 + d) / 64 == a * 4096 + b * 64 + c;
    assert (a * 262144 + b * 4096 + c * 64 + d) / 4096 == a * 64 + b;
  }

  /** A sequence of more than one byte at the front is the encoding of a scalar value. */
  lemma SequenceIsScalar(s: Bytes) returns (cp: nat)
    requires s != [] && s[0] >= 0x80 && RuneSize(s) > 0
    ensures Utf8(cp).Some? && Utf8(cp).value == s[..RuneSize(s)]
  {
    var n := RuneSize(s);
    var b: seq<int> := s;
    if n == 2 {
      TwoBytes(b[0] - 0xC0, b[1] - 0x80);
      cp := (b[0] - 0xC0) * 64 + (b[1] - 0x80);
    } else if n == 3 {
      ThreeBytes(b[0] - 0xE0, b[1] - 0x80, b[2] - 0x80);
      cp := (b[0] - 0xE0) * 4096 + (b[1] - 0x80) * 64 + (b[2] - 0x80);
    } else {
      FourBytes(b[0] - 0xF0, b[1] - 0x80, b[2] - 0x80, b[3] - 0x80);
      cp := (b[0] - 0xF0) * 262144 + (b[1] - 0x80) * 4096 + (b[2] - 0x80) * 64 + (b[3] - 0x80);
    }
  }

  /** The encoding of a scalar value at the front is taken as one sequence. */
  lemma ScalarIsSequence(cp: nat, s: Bytes)
    requires Utf8(cp).Some? && Utf8(cp).value <= s
    ensures s != [] && !Malformed(s) && StepSize(s) == |Utf8(cp).value|
  {
    var u := Utf8(cp).value;
    assert forall i :: 0 <= i < |u| ==> s[i] == u[i];
  }

  /** Is the text that of some sequence of scalar values? */
  ghost predicate IsUnicode(s: Bytes) {
    exists cps: seq<nat> :: Encodes(cps, s)
  }

  /** Well-formed text is exactly what encodes a sequence of Unicode scalar values. */
  lemma WellFormedIsUnicode(s: Bytes)
    ensures ValidUtf8(s) <==> IsUnicode(s)
  {
    hide ValidUtf8, Encodes;
    if ValidUtf8(s) {
      var cps := Decoded(s);
    }
    if IsUnicode(s) {
      var cps: seq<nat> :| Encodes(cps, s);
      EncodedIsValid(cps, s);
    }
  }

  lemma {:induction false} Decoded(s: Bytes) returns (cps: seq<nat>)
    requires ValidUtf8(s)
    ensures Encodes(cps, s)
  {
    if s == [] {
      cps := [];
    } else {
      var n := StepSize(s);
      var rest := Decoded(s[n..]);
      var cp: nat := s[0];
      if s[0] >= 0x80 {
        cp := SequenceIsScalar(s);
      }
      assert Utf8(cp).Some? && Utf8(cp).value == s[..n];
      cps := [cp] + rest;
      assert cps[1..] == rest;
    }
  }

  lemma {:induction false} EncodedIsValid(cps: seq<nat>, s: Bytes)
    requires Encodes(cps, s)
    ensures ValidUtf8(s)
  {
    if cps != [] {
      ScalarIsSequence(cps[0], s);
      EncodedIsValid(cps[1..], s[StepSize(s)..]);
    }
  }

  // ---- writing ----------------------------------------------------------------------------

  function HexDigit(n: nat): Byte
    requires n < 16
  {
    if n < 10 then ZERO + n else 97 + n - 10
  }

  function EscapeAscii(c: Byte): (t: Bytes)
    requires c < 0x80
  {
    if c == QUOTE then [BACKSLASH, QUOTE]
    else if c == BACKSLASH then [BACKSLASH, BACKSLASH]
    else if c == 8 then [BACKSLASH, 98]
    else if c == 12 then [BACKSLASH, 102]
    else if c == 10 then [BACKSLASH, 110]
    else if c == 13 then [BACKSLASH, 114]
    else if c == 9 then [BACKSLASH, 116]
    else if c < 0x20 then [BACKSLASH, LOWER_U, ZERO, ZERO, HexDigit(c / 16), HexDigit(c % 16)]
    else [c]
  }

  /** The text of the first step: an escape, the bytes themselves, or \ufffd. */
  function EscapeStep(s: Bytes): Bytes
    requires s != []
  {
    if s[0] < 0x80 then EscapeAscii(s[0])
    else if Malformed(s) then [BACKSLASH, LOWER_U, 102, 102, 102, 100]
    else s[..StepSize(s)]
  }

  function Escape(s: Bytes): Bytes {
    if s == [] then [] else EscapeStep(s) + Escape(s[StepSize(s)..])
  }

  function Quoted(s: Bytes): Bytes {
    [QUOTE] + Escape(s) + [QUOTE]
  }

  method JsonString(s: Bytes) returns (t: Bytes)
    ensures t == Quoted(s)
  {
    hide RuneSize, EscapeAscii, Escape;
    t := [QUOTE];
    var i := 0;
    assert s[0..] == s;
    while i < |s|
      invariant 0 <= i <= |s|
      invariant t + Escape(s[i..]) == [QUOTE] + Escape(s)
    {
      ghost var step := EscapeStep(s[i..]);
      ghost var tail := Escape(s[i + StepSize(s[i..])..]);
      Unfold(s, i);
      Assoc(t, step, tail);
      if s[i] < 0x80 {
        t := t + EscapeAscii(s[i]);
        i := i + 1;
      } else if Malformed(s[i..]) {
        t := t + [BACKSLASH, LOWER_U, 102, 102, 102, 100];
        i := i + 1;
      } else {
        var n := StepSize(s[i..]);
        t := t + s[i..i + n];
        i := i + n;
      }
    }
    assert s[i..] == [];
    EscapeNothing();
    t := t + [QUOTE];
  }

  lemma EscapeNothing()
    ensures Escape([]) == []
  {
  }

  lemma Unfold(s: Bytes, i: nat)
    requires i < |s|
    ensures Escape(s[i..]) == EscapeStep(s[i..]) + Escape(s[i + StepSize(s[i..])..])
    ensures s[i..][..StepSize(s[i..])] == s[i..i + StepSize(s[i..])]
  {
    assert s[i..][StepSize(s[i..])..] == s[i + StepSize(s[i..])..];
  }

  // ---- reading ----------------------------------------------------------------------------

  function HexValue(b: Byte): Option<nat> {
    if 48 <= b <= 57 then Some(b - 48)
    else if 97 <= b <= 102 then Some(b - 97 + 10)
    else if 65 <= b <= 70 then Some(b - 65 + 10)
    else None
  }

  function Hex4(s: Bytes): Option<nat>
    requires |s| >= 4
  {
    var a, b, c, d := HexValue(s[0]), HexValue(s[1]), HexValue(s[2]), HexValue(s[3]);
    if a.None? || b.None? || c.None? || d.None? then None
    else Some(((a.value * 16 + b.value) * 16 + c.value) * 16 + d.value)
  }

  function SimpleEscape(b: Byte): Option<Byte> {
    if b == 34 || b == 92 || b == 47 then Some(b)
    else if b == 98 then Some(8)
    else if b == 102 then Some(12)
    else if b == 110 then Some(10)
    else if b == 114 then Some(13)
    else if b == 116 then Some(9)
    else None
  }

  function Prepend(front: Bytes, r: Option<(Bytes, Bytes)>): (r': Option<(Bytes, Bytes)>)
    ensures r'.Some? <==> r.Some?
    ensures r.Some? ==> r'.value == (front + r.value.0, r.value.1)
  {
    if r.None? then None else Some((front + r.value.0, r.value.1))
  }

  /** The characters up to the closing quote, and what follows it. */
  function ParseStringBody(s: Bytes): (r: Option<(Bytes, Bytes)>)
    ensures r.Some? ==> |r.value.1| < |s|
  {
    if s == [] then None
    else if s[0] == 34 then Some(([], s[1..]))
    else if s[0] == 92 then
      if |s| < 2 then None
      else if s[1] == 117 then
        if |s| < 6 || Hex4(s[2..]).None? || Utf8(Hex4(s[2..]).value).None? then None
        else Prepend(Utf8(Hex4(s[2..]).value).value, ParseStringBody(s[6..]))
      else if SimpleEscape(s[1]).None? then None
      else Prepend([SimpleEscape(s[1]).value], ParseStringBody(s[2..]))
    else if s[0] < 0x20 then None
    else Prepend([s[0]], ParseStringBody(s[1..]))
  }

  lemma {:induction false} ParsesVerbatim(bs: Bytes, tail: Bytes)
    requires forall i :: 0 <= i < |bs| ==> bs[i] >= 0x80
    ensures ParseStringBody(bs + tail) == Prepend(bs, ParseStringBody(tail))
  {
    if bs == [] {
      assert bs + tail == tail;
      var r := ParseStringBody(tail);
      assert r.Some? ==> [] + r.value.0 == r.value.0;
    } else {
      assert (bs + tail)[1..] == bs[1..] + tail;
      ParsesVerbatim(bs[1..], tail);
      var r := ParseStringBody(tail);
      assert r.Some? ==> [bs[0]] + (bs[1..] + r.value.0) == bs + r.value.0;
    }
  }

  lemma ParsesAscii(c: Byte, tail: Bytes)
    requires c < 0x80
    ensures ParseStringBody(EscapeAscii(c) + tail) == Prepend([c], ParseStringBody(tail))
  {
    var e := EscapeAscii(c);
    var s := e + tail;
    assert s[|e|..] == tail;
    if |e| == 6 {
      assert s[2..][0] == ZERO && s[2..][1] == ZERO && s[2..][2] == HexDigit(c / 16) && s[2..][3] == HexDigit(c % 16);
      assert Hex4(s[2..]) == Some(c);
    }
  }

  lemma ParsesReplacement(tail: Bytes)
    ensures ParseStringBody([BACKSLASH, LOWER_U, 102, 102, 102, 100] + tail)
      == Prepend(REPLACEMENT, ParseStringBody(tail))
  {
    var s := [BACKSLASH, LOWER_U, 102, 102, 102, 100] + tail;
    assert s[6..] == tail;
    assert s[2..][0] == 102 && s[2..][1] == 102 && s[2..][2] == 102 && s[2..][3] == 100;
    assert Hex4(s[2..]) == Some(0xFFFD);
  }

  /** String round trip: what was written reads back as the same text, malformed bytes replaced. */
  lemma {:induction false} EscapedStringParses(s: Bytes, rest: Bytes)
    ensures ParseStringBody(Escape(s) + ([QUOTE] + rest)) == Some((Sanitize(s), rest))
  {
    hide EscapeAscii, RuneSize, Hex4;
    var tail := [QUOTE] + rest;
    if s == [] {
      assert [] + tail == tail && tail[1..] == rest;
    } else {
      var n := StepSize(s);
      EscapedStringParses(s[n..], rest);
      assert Escape(s) + tail == EscapeStep(s) + (Escape(s[n..]) + tail);
      if s[0] < 0x80 {
        ParsesAscii(s[0], Escape(s[n..]) + tail);
        assert s[..1] == [s[0]];
      } else if Malformed(s) {
        ParsesReplacement(Escape(s[n..]) + tail);
      } else {
        ParsesVerbatim(s[..n], Escape(s[n..]) + tail);
      }
    }
  }

  // ---- the output is UTF-8 whatever the input ---------------------------------------------

  lemma {:induction false} ValidConcat(a: Bytes, b: Bytes)
    requires ValidUtf8(a) && ValidUtf8(b)
    ensures ValidUtf8(a + b)
  {
    if a == [] {
      assert a + b == b;
    } else {
      var n := StepSize(a);
      assert (a + b)[n..] == a[n..] + b;
      ValidConcat(a[n..], b);
    }
  }

  lemma {:induction false} ValidAscii(s: Bytes)
    requires forall i :: 0 <= i < |s| ==> s[i] < 0x80
    ensures ValidUtf8(s)
  {
    if s != [] {
      ValidAscii(s[1..]);
    }
  }

  lemma {:induction false} WrittenStringIsUtf8(s: Bytes)
    ensures ValidUtf8(Escape(s))
  {
    if s != [] {
      var n := StepSize(s);
      WrittenStringIsUtf8(s[n..]);
      if s[0] < 0x80 || Malformed(s) {
        ValidAscii(EscapeStep(s));
      } else {
        assert s[..n][n..] == [];
        assert RuneSize(s[..n]) == n;
      }
      ValidConcat(EscapeStep(s), Escape(s[n..]));
    }
  }

  /** JSON.stringify's own choice of escapes: letters where there are any, else four hexadecimal digits. */
  lemma EscapesAreThoseOfStringify(c: Byte)
    requires c < 0x80
    ensures Escape([c]) ==
      if c == 34 then [92, 34] else if c == 92 then [92, 92]
      else if c == 8 then [92, 98] else if c == 9 then [92, 116] else if c == 10 then [92, 110]
      else if c == 12 then [92, 102] else if c == 13 then [92, 114]
      else if c < 10 then [92, 117, 48, 48, 48, 48 + c] else if c < 16 then [92, 117, 48, 48, 48, 87 + c]
      else if c < 26 then [92, 117, 48, 48, 49, 32 + c] else if c < 32 then [92, 117, 48, 48, 49, 71 + c]
      else [c]
  {
    hide RuneSize;
    assert [c][1..] == [];
    assert Escape([c]) == EscapeAscii(c) + [] == EscapeAscii(c);
  }

  /** What is malformed is written as an escape, and the text stays between quotation marks. */
  lemma MalformedIsEscaped(s: Bytes)
    requires s != [] && Malformed(s)
    ensures Escape(s) == [92, 117, 102, 102, 102, 100] + Escape(s[1..])
    ensures Quoted(s) == [34] + Escape(s) + [34]
  {
    hide RuneSize;
  }

  /** No quote, backslash, control character or malformed byte. */
  predicate Plain(s: Bytes) {
    s == [] || (s[0] >= 0x20 && s[0] != 34 && s[0] != 92 && !Malformed(s) && Plain(s[StepSize(s)..]))
  }

  /** A step that needs no escape is written as it is, any other one longer. */
  lemma StepIsPlain(s: Bytes)
    requires s != []
    ensures var plain := s[0] >= 0x20 && s[0] != 34 && s[0] != 92 && !Malformed(s);
      if plain then EscapeStep(s) == s[..StepSize(s)] else |EscapeStep(s)| > StepSize(s)
  {
    hide RuneSize;
  }

  /** Only the mandatory escapes: text that needs none is written as it is, and no other text is. */
  lemma {:induction false} EscapesOnlyWhatItMust(s: Bytes)
    ensures |Escape(s)| >= |s|
    ensures Escape(s) == s <==> Plain(s)
  {
    hide EscapeStep, RuneSize, StepSize;
    if s != [] {
      var n := StepSize(s);
      EscapesOnlyWhatItMust(s[n..]);
      StepIsPlain(s);
      SameParts(s[..n], s[n..], EscapeStep(s), Escape(s[n..]));
      assert s == s[..n] + s[n..];
    }
  }

  lemma SameParts(a: Bytes, b: Bytes, c: Bytes, d: Bytes)
    requires |c| >= |a| && |d| >= |b|
    ensures c + d == a + b <==> c == a && d == b
  {
    if c + d == a + b {
      assert |c + d| == |a + b|;
      assert (c + d)[..|c|] == c && (a + b)[..|a|] == a;
      assert (c + d)[|c|..] == d && (a + b)[|a|..] == b;
    }
  }
}
