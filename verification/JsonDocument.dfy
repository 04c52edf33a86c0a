/**
 JSON of BSON documents (bsonDocToJSON and bsonValueToJSON in src/cs_data_processor-go/jsutil.go)
 against a reader of RFC 8259 values without insignificant white space.
 */
module JsonDocument {
  import opened Options
  import opened Decimal
  import opened NumberLayout
  import opened JsonText

  // ---- documents --------------------------------------------------------------------------

  /** Dates, object ids, decimals, binaries and patterns are given by their text. */
  datatype Bson =
    | Double(number: JsNumber)
    | Integer(value: int)
    | String(text: Bytes)
    | Boolean(flag: bool)
    | Null
    | Rendered(text: Bytes)
    | Embedded(elements: seq<Element>)
    | Array(items: seq<Bson>)
    | Decimal128(digits: Bytes)
    | Binary(base64: Bytes, subtype: Bytes)
    | Timestamp(t: nat, i: nat)

  datatype Element = Element(key: Bytes, value: Bson)

  predicate NormalNumbers(v: Bson)
    decreases v, 1
  {
    match v
    case Double(number) => Normal(number)
    case Embedded(elements) => NormalElements(elements)
    case Array(items) => NormalItems(items)
    case _ => true
  }

  predicate NormalElements(es: seq<Element>)
    decreases es, 0
  {
    es == [] || (NormalNumbers(es[0].value) && NormalElements(es[1..]))
  }

  predicate NormalItems(vs: seq<Bson>)
    decreases vs, 0
  {
    vs == [] || (NormalNumbers(vs[0]) && NormalItems(vs[1..]))
  }

  // ---- JSON trees -------------------------------------------------------------------------

  datatype Tree =
    | JNull
    | JBool(flag: bool)
    | JNumber(value: Dec)
    | JString(text: Bytes)
    | JArray(items: seq<Tree>)
    | JObject(members: seq<Member>)

  datatype Member = Member(key: Bytes, value: Tree)

  /** The tree a value stands for; text is UTF-8 with malformed bytes replaced. */
  function TreeOf(v: Bson): Tree
    requires NormalNumbers(v)
    decreases v, 1
  {
    match v
    case Double(number) => if number.Finite? || number.Zero? then JNumber(Value(number)) else JNull
    case Integer(n) => JNumber(Norm(n, 0))
    case String(text) => JString(Sanitize(text))
    case Boolean(flag) => JBool(flag)
    case Null => JNull
    case Rendered(text) => JString(Sanitize(text))
    case Embedded(elements) => JObject(MembersOf(elements))
    case Array(items) => JArray(TreesOf(items))
    case Decimal128(digits) => JObject([Member(Ascii("$numberDecimal"), JString(Sanitize(digits)))])
    case Binary(base64, subtype) =>
      JObject([Member(Ascii("$binary"),
        JObject([Member(Ascii("base64"), JString(Sanitize(base64))),
                 Member(Ascii("subType"), JString(Sanitize(subtype)))]))])
    case Timestamp(t, i) =>
      JObject([Member(Ascii("$timestamp"),
        JObject([Member(Ascii("t"), JNumber(Norm(t, 0))), Member(Ascii("i"), JNumber(Norm(i, 0)))]))])
  }

  function MembersOf(es: seq<Element>): seq<Member>
    requires NormalElements(es)
    decreases es, 0
  {
    if es == [] then [] else [Member(Sanitize(es[0].key), TreeOf(es[0].value))] + MembersOf(es[1..])
  }

  function TreesOf(vs: seq<Bson>): seq<Tree>
    requires NormalItems(vs)
    decreases vs, 0
  {
    if vs == [] then [] else [TreeOf(vs[0])] + TreesOf(vs[1..])
  }

  // ---- printing ---------------------------------------------------------------------------

  const NUMBER_DECIMAL: Bytes := [36, 110, 117, 109, 98, 101, 114, 68, 101, 99, 105, 109, 97, 108]
  const BINARY: Bytes := [36, 98, 105, 110, 97, 114, 121]
  const BASE64: Bytes := [98, 97, 115, 101, 54, 52]
  const SUB_TYPE: Bytes := [115, 117, 98, 84, 121, 112, 101]
  const TIMESTAMP: Bytes := [36, 116, 105, 109, 101, 115, 116, 97, 109, 112]
  const LETTER_T: Bytes := [116]
  const LETTER_I: Bytes := [105]

  const COMMA: Byte := 44
  const COLON: Byte := 58
  const OPEN_BRACKET: Byte := 91
  const CLOSE_BRACKET: Byte := 93
  const OPEN_BRACE: Byte := 123
  const CLOSE_BRACE: Byte := 125
  const TRUE_TEXT: Bytes := [116, 114, 117, 101]
  const FALSE_TEXT: Bytes := [102, 97, 108, 115, 101]

  /** A member about to be written: its key and the text of its value. */
  datatype Field = Field(key: Bytes, text: Bytes)

  function FieldText(f: Field): Bytes {
    Quoted(f.key) + [COLON] + f.text
  }

  function JoinFields(fs: seq<Field>): Bytes {
    if fs == [] then []
    else if |fs| == 1 then FieldText(fs[0])
    else FieldText(fs[0]) + [COMMA] + JoinFields(fs[1..])
  }

  function ObjectText(fs: seq<Field>): Bytes {
    [OPEN_BRACE] + JoinFields(fs) + [CLOSE_BRACE]
  }

  function JoinItems(texts: seq<Bytes>): Bytes {
    if texts == [] then []
    else if |texts| == 1 then texts[0]
    else texts[0] + [COMMA] + JoinItems(texts[1..])
  }

  function ArrayText(texts: seq<Bytes>): Bytes {
    [OPEN_BRACKET] + JoinItems(texts) + [CLOSE_BRACKET]
  }

  function FormatInt(n: int): Bytes {
    if n < 0 then [MINUS] + Text(Digits(-n)) else Text(Digits(n))
  }

  /** A member with a key that is written as it is. */
  function LiteralField(key: Bytes, text: Bytes): Bytes {
    [QUOTE] + key + [QUOTE, COLON] + text
  }

  function ValueToJson(v: Bson): Bytes
    requires NormalNumbers(v)
    decreases v, 1
  {
    match v
    case Double(number) => JsonNumber(number)
    case Integer(n) => FormatInt(n)
    case String(text) => Quoted(text)
    case Boolean(flag) => if flag then TRUE_TEXT else FALSE_TEXT
    case Null => NULL_TEXT
    case Rendered(text) => Quoted(text)
    case Embedded(elements) => ObjectText(FieldsOf(elements))
    case Array(items) => ArrayText(TextsOf(items))
    case Decimal128(digits) => [OPEN_BRACE] + LiteralField(NUMBER_DECIMAL, Quoted(digits)) + [CLOSE_BRACE]
    case Binary(base64, subtype) =>
      [OPEN_BRACE] + LiteralField(BINARY,
        [OPEN_BRACE]
        + (LiteralField(BASE64, Quoted(base64)) + [COMMA] + LiteralField(SUB_TYPE, Quoted(subtype)))
        + [CLOSE_BRACE])
      + [CLOSE_BRACE]
    case Timestamp(t, i) =>
      [OPEN_BRACE] + LiteralField(TIMESTAMP,
        [OPEN_BRACE]
        + (LiteralField(LETTER_T, FormatInt(t)) + [COMMA] + LiteralField(LETTER_I, FormatInt(i)))
        + [CLOSE_BRACE])
      + [CLOSE_BRACE]
  }

  function FieldsOf(es: seq<Element>): (fs: seq<Field>)
    requires NormalElements(es)
    ensures |fs| == |es|
    decreases es, 0
  {
    if es == [] then [] else [Field(es[0].key, ValueToJson(es[0].value))] + FieldsOf(es[1..])
  }

  function TextsOf(vs: seq<Bson>): (texts: seq<Bytes>)
    requires NormalItems(vs)
    ensures |texts| == |vs|
    decreases vs, 0
  {
    if vs == [] then [] else [ValueToJson(vs[0])] + TextsOf(vs[1..])
  }

  // ---- reading ----------------------------------------------------------------------------

  function ParseValue(s: Bytes): (r: Option<(Tree, Bytes)>)
    ensures r.Some? ==> |r.value.1| < |s|
    decreases |s|, 0
  {
    if s == [] then None
    else if s[0] == 34 then
      var r := ParseStringBody(s[1..]);
      if r.None? then None else Some((JString(r.value.0), r.value.1))
    else if s[0] == 91 then
      if StartsWith(s[1..], 93) then Some((JArray([]), s[2..]))
      else
        var r := ParseItems(s[1..]);
        if r.None? then None else Some((JArray(r.value.0), r.value.1))
    else if s[0] == 123 then
      if StartsWith(s[1..], 125) then Some((JObject([]), s[2..]))
      else
        var r := ParseMembers(s[1..]);
        if r.None? then None else Some((JObject(r.value.0), r.value.1))
    else if Ascii("true") <= s then Some((JBool(true), s[4..]))
    else if Ascii("false") <= s then Some((JBool(false), s[5..]))
    else if Ascii("null") <= s then Some((JNull, s[4..]))
    else
      var r := ParseNumber(s);
      if r.None? then None else Some((JNumber(r.value.0), r.value.1))
  }

  function ParseItems(s: Bytes): (r: Option<(seq<Tree>, Bytes)>)
    ensures r.Some? ==> |r.value.1| < |s|
    decreases |s|, 1
  {
    var v := ParseValue(s);
    if v.None? then None
    else
      var (tree, rest) := v.value;
      if StartsWith(rest, 93) then Some(([tree], rest[1..]))
      else if StartsWith(rest, 44) then
        var more := ParseItems(rest[1..]);
        if more.None? then None else Some(([tree] + more.value.0, more.value.1))
      else None
  }

  function ParseMembers(s: Bytes): (r: Option<(seq<Member>, Bytes)>)
    ensures r.Some? ==> |r.value.1| < |s|
    decreases |s|, 1
  {
    if !StartsWith(s, 34) then None
    else
      var k := ParseStringBody(s[1..]);
      if k.None? || !StartsWith(k.value.1, 58) then None
      else
        var v := ParseValue(k.value.1[1..]);
        if v.None? then None
        else
          var (tree, rest) := v.value;
          var member := Member(k.value.0, tree);
          if StartsWith(rest, 125) then Some(([member], rest[1..]))
          else if StartsWith(rest, 44) then
            var more := ParseMembers(rest[1..]);
            if more.None? then None else Some(([member] + more.value.0, more.value.1))
          else None
  }

  // ---- round trip -------------------------------------------------------------------------

  predicate EndsValue(rest: Bytes) {
    rest != [] ==> rest[0] in {44, 93, 125}
  }

  /** In front of anything that may follow a value, the text reads as the tree. */
  ghost predicate ReadsAs(text: Bytes, tree: Tree) {
    && text != [] && text[0] != 93
    && forall rest :: EndsValue(rest) ==> ParseValue(text + rest) == Some((tree, rest))
  }

  lemma UseReadsAs(text: Bytes, tree: Tree, rest: Bytes)
    requires ReadsAs(text, tree) && EndsValue(rest)
    ensures ParseValue(text + rest) == Some((tree, rest))
  {
  }

  lemma StringReads(s: Bytes)
    ensures ReadsAs(Quoted(s), JString(Sanitize(s)))
  {
    hide Escape, Sanitize, ParseStringBody;
    forall rest | EndsValue(rest) ensures ParseValue(Quoted(s) + rest) == Some((JString(Sanitize(s)), rest)) {
      EscapedStringParses(s, rest);
      var body := Escape(s) + ([QUOTE] + rest);
      Assoc([QUOTE], Escape(s), [QUOTE]);
      Assoc([QUOTE], Escape(s) + [QUOTE], rest);
      Assoc(Escape(s), [QUOTE], rest);
      assert ([QUOTE] + body)[1..] == body;
    }
  }

  lemma {:induction false} ItemsRead(texts: seq<Bytes>, trees: seq<Tree>, rest: Bytes)
    requires |texts| == |trees| > 0 && forall i :: 0 <= i < |texts| ==> ReadsAs(texts[i], trees[i])
    ensures ParseItems(JoinItems(texts) + ([CLOSE_BRACKET] + rest)) == Some((trees, rest))
  {
    hide ReadsAs, ParseValue;
    var tail := [CLOSE_BRACKET] + rest;
    var s := JoinItems(texts) + tail;
    if |texts| == 1 {
      UseReadsAs(texts[0], trees[0], tail);
      assert tail[1..] == rest && [trees[0]] == trees;
    } else {
      var after := [COMMA] + (JoinItems(texts[1..]) + tail);
      Assoc(texts[0], [COMMA], JoinItems(texts[1..]));
      Assoc(texts[0], [COMMA] + JoinItems(texts[1..]), tail);
      Assoc([COMMA], JoinItems(texts[1..]), tail);
      assert s == texts[0] + after;
      UseReadsAs(texts[0], trees[0], after);
      assert after[1..] == JoinItems(texts[1..]) + tail;
      ItemsRead(texts[1..], trees[1..], rest);
      assert [trees[0]] + trees[1..] == trees;
    }
  }

  function MembersWith(fs: seq<Field>, trees: seq<Tree>): seq<Member>
    requires |fs| == |trees|
  {
    if fs == [] then [] else [Member(Sanitize(fs[0].key), trees[0])] + MembersWith(fs[1..], trees[1..])
  }

  /** One member in front of what follows it. */
  lemma MemberReads(f: Field, tree: Tree, after: Bytes)
    requires ReadsAs(f.text, tree) && EndsValue(after)
    ensures var s := FieldText(f) + after;
      && StartsWith(s, QUOTE)
      && ParseStringBody(s[1..]) == Some((Sanitize(f.key), [COLON] + (f.text + after)))
      && ParseValue(([COLON] + (f.text + after))[1..]) == Some((tree, after))
  {
    hide ReadsAs, ParseValue, ParseStringBody;
    var valueText := [COLON] + (f.text + after);
    var body := Escape(f.key) + ([QUOTE] + valueText);
    Assoc(Quoted(f.key), [COLON], f.text);
    Assoc(Quoted(f.key), [COLON] + f.text, after);
    Assoc([COLON], f.text, after);
    Assoc([QUOTE], Escape(f.key), [QUOTE]);
    Assoc([QUOTE], Escape(f.key) + [QUOTE], valueText);
    Assoc(Escape(f.key), [QUOTE], valueText);
    assert FieldText(f) + after == [QUOTE] + body;
    assert ([QUOTE] + body)[1..] == body;
    EscapedStringParses(f.key, valueText);
    assert valueText[1..] == f.text + after;
    UseReadsAs(f.text, tree, after);
  }

  lemma {:induction false} FieldsRead(fs: seq<Field>, trees: seq<Tree>, rest: Bytes)
    requires |fs| == |trees| > 0 && forall i :: 0 <= i < |fs| ==> ReadsAs(fs[i].text, trees[i])
    ensures ParseMembers(JoinFields(fs) + ([CLOSE_BRACE] + rest)) == Some((MembersWith(fs, trees), rest))
  {
    hide ReadsAs, ParseValue, ParseStringBody, FieldText;
    var tail := [CLOSE_BRACE] + rest;
    var member := Member(Sanitize(fs[0].key), trees[0]);
    if |fs| == 1 {
      MemberReads(fs[0], trees[0], tail);
      assert tail[1..] == rest;
      assert MembersWith(fs, trees) == [member] + MembersWith(fs[1..], trees[1..]) == [member];
    } else {
      var more := JoinFields(fs[1..]) + tail;
      var after := [COMMA] + more;
      Assoc(FieldText(fs[0]), [COMMA], JoinFields(fs[1..]));
      Assoc(FieldText(fs[0]), [COMMA] + JoinFields(fs[1..]), tail);
      Assoc([COMMA], JoinFields(fs[1..]), tail);
      MemberReads(fs[0], trees[0], after);
      assert after[1..] == more;
      FieldsRead(fs[1..], trees[1..], rest);
    }
  }

  lemma ObjectReads(fs: seq<Field>, trees: seq<Tree>)
    requires |fs| == |trees| && forall i :: 0 <= i < |fs| ==> ReadsAs(fs[i].text, trees[i])
    ensures ReadsAs(ObjectText(fs), JObject(MembersWith(fs, trees)))
  {
    forall rest | EndsValue(rest)
      ensures ParseValue(ObjectText(fs) + rest) == Some((JObject(MembersWith(fs, trees)), rest))
    {
      ObjectParses(fs, trees, rest);
    }
  }

  lemma ObjectParses(fs: seq<Field>, trees: seq<Tree>, rest: Bytes)
    requires |fs| == |trees| && forall i :: 0 <= i < |fs| ==> ReadsAs(fs[i].text, trees[i])
    ensures ParseValue(ObjectText(fs) + rest) == Some((JObject(MembersWith(fs, trees)), rest))
  {
    hide ReadsAs, ParseMembers, FieldText;
    var tail := [CLOSE_BRACE] + rest;
    var s := ObjectText(fs) + rest;
    Assoc([OPEN_BRACE], JoinFields(fs), [CLOSE_BRACE]);
    Assoc([OPEN_BRACE], JoinFields(fs) + [CLOSE_BRACE], rest);
    Assoc(JoinFields(fs), [CLOSE_BRACE], rest);
    assert s[1..] == JoinFields(fs) + tail;
    if fs == [] {
      assert [] + tail == tail && s[2..] == tail[1..] == rest;
    } else {
      FieldsRead(fs, trees, rest);
      JoinStartsQuoted(fs, tail);
    }
  }

  lemma JoinStartsQuoted(fs: seq<Field>, tail: Bytes)
    requires fs != []
    ensures StartsWith(JoinFields(fs) + tail, QUOTE)
  {
    assert Quoted(fs[0].key)[0] == QUOTE;
    assert FieldText(fs[0])[0] == QUOTE;
  }

  lemma ArrayReads(texts: seq<Bytes>, trees: seq<Tree>)
    requires |texts| == |trees| && forall i :: 0 <= i < |texts| ==> ReadsAs(texts[i], trees[i])
    ensures ReadsAs(ArrayText(texts), JArray(trees))
  {
    forall rest | EndsValue(rest) ensures ParseValue(ArrayText(texts) + rest) == Some((JArray(trees), rest)) {
      ArrayParses(texts, trees, rest);
    }
  }

  lemma ArrayParses(texts: seq<Bytes>, trees: seq<Tree>, rest: Bytes)
    requires |texts| == |trees| && forall i :: 0 <= i < |texts| ==> ReadsAs(texts[i], trees[i])
    ensures ParseValue(ArrayText(texts) + rest) == Some((JArray(trees), rest))
  {
    var tail := [CLOSE_BRACKET] + rest;
    var s := ArrayText(texts) + rest;
    Assoc([OPEN_BRACKET], JoinItems(texts), [CLOSE_BRACKET]);
    Assoc([OPEN_BRACKET], JoinItems(texts) + [CLOSE_BRACKET], rest);
    Assoc(JoinItems(texts), [CLOSE_BRACKET], rest);
    assert s[1..] == JoinItems(texts) + tail;
    if texts == [] {
      assert [] + tail == tail && s[2..] == tail[1..] == rest;
    } else {
      ItemsRead(texts, trees, rest);
      assert ReadsAs(texts[0], trees[0]);
      assert (JoinItems(texts) + tail)[0] == texts[0][0];
    }
  }

  lemma IntegerReads(n: int)
    ensures ReadsAs(FormatInt(n), JNumber(Norm(n, 0)))
  {
    hide Digits, Nat, Norm, ParseNumber, Text;
    var m := if n < 0 then -n else n;
    var ds := Digits(m);
    assert [] + Text(ds) == Text(ds) && ds + [] == ds;
    assert FormatInt(n) == Sign(n < 0) + Text(ds);
    forall rest | EndsValue(rest) ensures ParseNumber(FormatInt(n) + rest) == Some((Norm(n, 0), rest)) {
      ParsesShape(n < 0, ds, [], None, rest);
      assert [] + ([] + rest) == rest;
      Assoc(Sign(n < 0), Text(ds), rest);
    }
    assert IsDigit(Text(ds)[0]);
    NumberTextReads(FormatInt(n), Norm(n, 0));
  }

  lemma DoubleReads(v: JsNumber)
    requires Normal(v) && (v.Finite? || v.Zero?)
    ensures ReadsAs(NumberToString(v), JNumber(Value(v)))
  {
    forall rest | EndsValue(rest) ensures ParseNumber(NumberToString(v) + rest) == Some((Value(v), rest)) {
      PrintedNumberParses(v, rest);
    }
    StartsAsNumber(v);
    NumberTextReads(NumberToString(v), Value(v));
  }

  lemma StartsAsNumber(v: JsNumber)
    requires Normal(v) && (v.Finite? || v.Zero?)
    ensures var s := NumberToString(v); s != [] && (IsDigit(s[0]) || s[0] == MINUS)
  {
    hide Digits;
  }

  lemma Words()
    ensures Ascii("true") == [116, 114, 117, 101] && Ascii("false") == [102, 97, 108, 115, 101]
    ensures Ascii("null") == [110, 117, 108, 108]
  {
  }

  /** What begins as a number is read as one. */
  lemma NumberIsNoWord(s: Bytes)
    requires s != [] && (IsDigit(s[0]) || s[0] == MINUS)
    ensures ParseValue(s)
      == var r := ParseNumber(s); if r.None? then None else Some((JNumber(r.value.0), r.value.1))
  {
    Words();
    hide ParseNumber, Ascii, ParseStringBody, ParseItems, ParseMembers;
  }

  lemma NumberTextReads(text: Bytes, d: Dec)
    requires text != [] && (IsDigit(text[0]) || text[0] == MINUS)
    requires forall rest :: EndsValue(rest) ==> ParseNumber(text + rest) == Some((d, rest))
    ensures ReadsAs(text, JNumber(d))
  {
    hide ParseNumber, ParseValue, EndsValue;
    forall rest | EndsValue(rest) ensures ParseValue(text + rest) == Some((JNumber(d), rest)) {
      assert (text + rest)[0] == text[0];
      NumberIsNoWord(text + rest);
    }
  }

  lemma WordReads(text: Bytes, tree: Tree)
    requires (text, tree) in {(TRUE_TEXT, JBool(true)), (FALSE_TEXT, JBool(false)), (NULL_TEXT, JNull)}
    ensures ReadsAs(text, tree)
  {
    Words();
    hide Ascii, ParseNumber, ParseStringBody, ParseItems, ParseMembers;
    forall rest | EndsValue(rest) ensures ParseValue(text + rest) == Some((tree, rest)) {
      var s := text + rest;
      assert s[..|text|] == text && s[|text|..] == rest;
      assert s[0] == text[0];
    }
  }

  /** Keys of plain ASCII are quoted without escapes. */
  lemma {:induction false} LiteralKey(key: Bytes, text: Bytes)
    requires forall i :: 0 <= i < |key| ==> 0x20 <= key[i] < 0x80 && key[i] != QUOTE && key[i] != BACKSLASH
    ensures LiteralField(key, text) == FieldText(Field(key, text))
    ensures Sanitize(key) == key
  {
    PlainAscii(key);
    EscapesOnlyWhatItMust(key);
    ValidAscii(key);
    SanitizeKeepsExactlyUtf8(key);
    assert [QUOTE] + key + [QUOTE, COLON] + text == [QUOTE] + key + [QUOTE] + [COLON] + text;
  }

  lemma {:induction false} PlainAscii(s: Bytes)
    requires forall i :: 0 <= i < |s| ==> 0x20 <= s[i] < 0x80 && s[i] != QUOTE && s[i] != BACKSLASH
    ensures Plain(s)
  {
    if s != [] {
      PlainAscii(s[1..]);
    }
  }

  lemma OneLiteralReads(key: Bytes, text: Bytes, tree: Tree)
    requires forall i :: 0 <= i < |key| ==> 0x20 <= key[i] < 0x80 && key[i] != QUOTE && key[i] != BACKSLASH
    requires ReadsAs(text, tree)
    ensures ReadsAs([OPEN_BRACE] + LiteralField(key, text) + [CLOSE_BRACE], JObject([Member(key, tree)]))
  {
    hide ReadsAs, FieldText, LiteralField;
    LiteralKey(key, text);
    var f := Field(key, text);
    ObjectReads([f], [tree]);
    assert JoinFields([f]) == FieldText(f);
    OneMember(f, tree);
  }

  lemma OneMember(f: Field, tree: Tree)
    ensures MembersWith([f], [tree]) == [Member(Sanitize(f.key), tree)]
  {
    assert MembersWith([f][1..], [tree][1..]) == [];
  }

  lemma TwoLiteralsRead(k1: Bytes, t1: Bytes, v1: Tree, k2: Bytes, t2: Bytes, v2: Tree)
    requires forall i :: 0 <= i < |k1| ==> 0x20 <= k1[i] < 0x80 && k1[i] != QUOTE && k1[i] != BACKSLASH
    requires forall i :: 0 <= i < |k2| ==> 0x20 <= k2[i] < 0x80 && k2[i] != QUOTE && k2[i] != BACKSLASH
    requires ReadsAs(t1, v1) && ReadsAs(t2, v2)
    ensures ReadsAs([OPEN_BRACE] + (LiteralField(k1, t1) + [COMMA] + LiteralField(k2, t2)) + [CLOSE_BRACE],
                    JObject([Member(k1, v1), Member(k2, v2)]))
  {
    hide ReadsAs, FieldText, LiteralField;
    LiteralKey(k1, t1);
    LiteralKey(k2, t2);
    var f1, f2 := Field(k1, t1), Field(k2, t2);
    ObjectReads([f1, f2], [v1, v2]);
    assert [f1, f2][1..] == [f2] && [v1, v2][1..] == [v2];
    assert JoinFields([f1, f2]) == FieldText(f1) + [COMMA] + JoinFields([f2]);
    assert JoinFields([f2]) == FieldText(f2);
    OneMember(f2, v2);
    assert MembersWith([f1, f2], [v1, v2]) == [Member(k1, v1)] + [Member(k2, v2)];
    assert [Member(k1, v1)] + [Member(k2, v2)] == [Member(k1, v1), Member(k2, v2)];
  }

  /** JSON round trip: the text of any nested value reads back as its tree, in order. */
  lemma {:induction false} PrintedValueReads(v: Bson)
    requires NormalNumbers(v)
    ensures ReadsAs(ValueToJson(v), TreeOf(v))
    decreases v, 1
  {
    hide ReadsAs, Quoted, Norm, FormatInt, LiteralField, JsonNumber, Value;
    match v {
      case Double(number) => DoubleOrNullReads(number);
      case Integer(n) => IntegerReads(n);
      case String(text) => StringReads(text);
      case Boolean(flag) => WordReads(if flag then TRUE_TEXT else FALSE_TEXT, JBool(flag));
      case Null => WordReads(NULL_TEXT, JNull);
      case Rendered(text) => StringReads(text);
      case Embedded(elements) => PrintedFieldsRead(elements);
      case Array(items) => PrintedItemsRead(items);
      case Decimal128(digits) =>
        StringReads(digits);
        KeyNames();
        OneLiteralReads(NUMBER_DECIMAL, Quoted(digits), JString(Sanitize(digits)));
      case Binary(base64, subtype) => BinaryReads(base64, subtype);
      case Timestamp(t, i) => TimestampReads(t, i);
    }
  }

  lemma DoubleOrNullReads(number: JsNumber)
    requires Normal(number)
    ensures ReadsAs(JsonNumber(number), if number.Finite? || number.Zero? then JNumber(Value(number)) else JNull)
  {
    if number.Finite? || number.Zero? {
      DoubleReads(number);
    } else {
      WordReads(NULL_TEXT, JNull);
    }
  }

  lemma KeyNames()
    ensures NUMBER_DECIMAL == Ascii("$numberDecimal")
    ensures BINARY == Ascii("$binary") && BASE64 == Ascii("base64") && SUB_TYPE == Ascii("subType")
    ensures TIMESTAMP == Ascii("$timestamp") && LETTER_T == Ascii("t") && LETTER_I == Ascii("i")
  {
  }

  lemma BinaryReads(base64: Bytes, subtype: Bytes)
    ensures ReadsAs(ValueToJson(Binary(base64, subtype)), TreeOf(Binary(base64, subtype)))
  {
    hide ReadsAs, Quoted, LiteralField;
    KeyNames();
    StringReads(base64);
    StringReads(subtype);
    TwoLiteralsRead(BASE64, Quoted(base64), JString(Sanitize(base64)),
                    SUB_TYPE, Quoted(subtype), JString(Sanitize(subtype)));
    var inner := [OPEN_BRACE]
      + (LiteralField(BASE64, Quoted(base64)) + [COMMA] + LiteralField(SUB_TYPE, Quoted(subtype)))
      + [CLOSE_BRACE];
    OneLiteralReads(BINARY, inner,
      JObject([Member(BASE64, JString(Sanitize(base64))), Member(SUB_TYPE, JString(Sanitize(subtype)))]));
  }

  lemma TimestampReads(t: nat, i: nat)
    ensures ReadsAs(ValueToJson(Timestamp(t, i)), TreeOf(Timestamp(t, i)))
  {
    hide ReadsAs, LiteralField, FormatInt, Norm;
    KeyNames();
    IntegerReads(t);
    IntegerReads(i);
    TwoLiteralsRead(LETTER_T, FormatInt(t), JNumber(Norm(t, 0)), LETTER_I, FormatInt(i), JNumber(Norm(i, 0)));
    var inner := [OPEN_BRACE]
      + (LiteralField(LETTER_T, FormatInt(t)) + [COMMA] + LiteralField(LETTER_I, FormatInt(i)))
      + [CLOSE_BRACE];
    OneLiteralReads(TIMESTAMP, inner,
      JObject([Member(LETTER_T, JNumber(Norm(t, 0))), Member(LETTER_I, JNumber(Norm(i, 0)))]));
  }

  /** The trees of the values of the elements, in order. */
  function ElementTrees(es: seq<Element>): (trees: seq<Tree>)
    requires NormalElements(es)
    ensures |trees| == |es|
  {
    if es == [] then [] else [TreeOf(es[0].value)] + ElementTrees(es[1..])
  }

  lemma {:induction false} MembersOfElements(es: seq<Element>)
    requires NormalElements(es)
    ensures MembersWith(FieldsOf(es), ElementTrees(es)) == MembersOf(es)
  {
    hide ValueToJson, TreeOf;
    if es != [] {
      MembersOfElements(es[1..]);
    }
  }

  lemma {:induction false} PrintedFieldsRead(es: seq<Element>)
    requires NormalElements(es)
    ensures ReadsAs(ObjectText(FieldsOf(es)), JObject(MembersOf(es)))
    decreases es, 0, 1
  {
    EachFieldReads(es);
    MembersOfElements(es);
    hide ReadsAs;
    ObjectReads(FieldsOf(es), ElementTrees(es));
  }

  lemma {:induction false} EachFieldReads(es: seq<Element>)
    requires NormalElements(es)
    ensures forall i :: 0 <= i < |es| ==> ReadsAs(FieldsOf(es)[i].text, ElementTrees(es)[i])
    decreases es, 0, 0
  {
    hide ReadsAs, ValueToJson, TreeOf;
    if es != [] {
      PrintedValueReads(es[0].value);
      EachFieldReads(es[1..]);
    }
  }

  lemma {:induction false} PrintedItemsRead(vs: seq<Bson>)
    requires NormalItems(vs)
    ensures ReadsAs(ArrayText(TextsOf(vs)), JArray(TreesOf(vs)))
    decreases vs, 0, 1
  {
    EachItemReads(vs);
    hide ReadsAs;
    ArrayReads(TextsOf(vs), TreesOf(vs));
  }

  lemma {:induction false} EachItemReads(vs: seq<Bson>)
    requires NormalItems(vs)
    ensures |TreesOf(vs)| == |vs| && forall i :: 0 <= i < |vs| ==> ReadsAs(TextsOf(vs)[i], TreesOf(vs)[i])
    decreases vs, 0, 0
  {
    hide ReadsAs, ValueToJson, TreeOf;
    if vs != [] {
      PrintedValueReads(vs[0]);
      EachItemReads(vs[1..]);
    }
  }

  // ---- documents with overrides -----------------------------------------------------------

  /** The fields written: those of the document, overridden in place, then the overrides it lacks. */
  function Overridden(fs: seq<Field>, overrides: map<Bytes, Bytes>): (r: seq<Field>)
    ensures |r| == |fs| && forall i :: 0 <= i < |fs| ==> r[i].key == fs[i].key
  {
    seq(|fs|, i requires 0 <= i < |fs| =>
      if fs[i].key in overrides then Field(fs[i].key, overrides[fs[i].key]) else fs[i])
  }

  predicate HasKey(fs: seq<Field>, key: Bytes) {
    exists i :: 0 <= i < |fs| && fs[i].key == key
  }

  function Appended(fs: seq<Field>, overrides: map<Bytes, Bytes>, order: seq<Bytes>): seq<Field> {
    if order == [] then []
    else
      var key := order[0];
      (if HasKey(fs, key) || key !in overrides then [] else [Field(key, overrides[key])])
      + Appended(fs, overrides, order[1..])
  }

  function DocumentFields(es: seq<Element>, overrides: map<Bytes, Bytes>, order: seq<Bytes>): seq<Field>
    requires NormalElements(es)
  {
    Overridden(FieldsOf(es), overrides) + Appended(FieldsOf(es), overrides, order)
  }

  /** Appends one field to the text of an object under construction. */
  function AddField(b: Bytes, first: bool, f: Field): Bytes {
    (if first then b else b + [COMMA]) + FieldText(f)
  }

  lemma {:induction false} JoinAppend(fs: seq<Field>, f: Field)
    ensures JoinFields(fs + [f]) == if fs == [] then FieldText(f) else JoinFields(fs) + [COMMA] + FieldText(f)
  {
    hide FieldText;
    if |fs| <= 1 {
      assert [] + [f] == [f];
      if |fs| == 1 {
        assert (fs + [f])[1..] == [f];
      }
    } else {
      JoinAppend(fs[1..], f);
      assert (fs + [f])[1..] == fs[1..] + [f];
      Assoc(FieldText(fs[0]), [COMMA], JoinFields(fs[1..]) + [COMMA] + FieldText(f));
      Assoc(FieldText(fs[0]) + [COMMA], JoinFields(fs[1..]), [COMMA]);
      Assoc(FieldText(fs[0]) + [COMMA], JoinFields(fs[1..]) + [COMMA], FieldText(f));
    }
  }

  lemma AddsField(done: seq<Field>, f: Field)
    ensures AddField([OPEN_BRACE] + JoinFields(done), done == [], f) == [OPEN_BRACE] + JoinFields(done + [f])
  {
    hide FieldText;
    JoinAppend(done, f);
    if done == [] {
      assert [OPEN_BRACE] + JoinFields(done) == [OPEN_BRACE];
    } else {
      Assoc([OPEN_BRACE], JoinFields(done), [COMMA]);
      Assoc([OPEN_BRACE], JoinFields(done) + [COMMA], FieldText(f));
    }
  }

  method DocumentToJson(es: seq<Element>, overrides: map<Bytes, Bytes>, order: seq<Bytes>) returns (b: Bytes)
    requires NormalElements(es)
    ensures b == ObjectText(DocumentFields(es, overrides, order))
  {
    hide Overridden, Appended, FieldsOf, HasKey, JoinFields;
    var first: bool;
    var written: set<Bytes>;
    b, first, written := WriteElements(es, overrides);
    ghost var front := Overridden(FieldsOf(es), overrides);
    b := AppendOverrides(b, front, first, written, FieldsOf(es), overrides, order);
    b := b + [CLOSE_BRACE];
  }

  /** The fields of the document, overridden ones with their new values, each noted as written. */
  method WriteElements(es: seq<Element>, overrides: map<Bytes, Bytes>)
    returns (b: Bytes, first: bool, written: set<Bytes>)
    requires NormalElements(es)
    ensures b == [OPEN_BRACE] + JoinFields(Overridden(FieldsOf(es), overrides))
    ensures first == (Overridden(FieldsOf(es), overrides) == [])
    ensures forall k :: k in written <==> k in overrides && HasKey(FieldsOf(es), k)
  {
    hide FieldText, JoinFields, Overridden, HasKey, FieldsOf, ValueToJson;
    ghost var fs := FieldsOf(es);
    ghost var all := Overridden(fs, overrides);
    b, first, written := [OPEN_BRACE], true, {};
    assert all[..0] == [] && fs[..0] == [];
    EmptyJoin();
    NoKeys();
    for i := 0 to |es|
      invariant first == (all[..i] == [])
      invariant b == [OPEN_BRACE] + JoinFields(all[..i])
      invariant forall k :: k in written <==> k in overrides && HasKey(fs[..i], k)
    {
      var el := es[i];
      FieldAt(es, i);
      OverriddenAt(fs, overrides, i);
      var text := if el.key in overrides then overrides[el.key] else ValueToJson(el.value);
      if el.key in overrides {
        written := written + {el.key};
      }
      HasKeyGrows(fs, i);
      AddsField(all[..i], all[i]);
      assert all[..i + 1] == all[..i] + [all[i]];
      b := AddField(b, first, Field(el.key, text));
      first := false;
    }
    assert fs[..|es|] == fs && all[..|es|] == all;
  }

  lemma NoKeys()
    ensures forall k :: !HasKey([], k)
  {
  }

  lemma OverriddenAt(fs: seq<Field>, overrides: map<Bytes, Bytes>, i: nat)
    requires i < |fs|
    ensures Overridden(fs, overrides)[i]
      == if fs[i].key in overrides then Field(fs[i].key, overrides[fs[i].key]) else fs[i]
  {
  }

  /** The overrides in order, those already written left out. */
  method AppendOverrides(b0: Bytes, ghost front: seq<Field>, first0: bool, written: set<Bytes>, ghost fs: seq<Field>,
      overrides: map<Bytes, Bytes>, order: seq<Bytes>)
    returns (b: Bytes)
    requires b0 == [OPEN_BRACE] + JoinFields(front) && first0 == (front == [])
    requires forall k :: k in written <==> k in overrides && HasKey(fs, k)
    ensures b == [OPEN_BRACE] + JoinFields(front + Appended(fs, overrides, order))
  {
    hide FieldText, JoinFields, HasKey, Appended;
    b := b0;
    var first := first0;
    ghost var done := front;
    assert order[0..] == order;
    for i := 0 to |order|
      invariant first == (done == []) && b == [OPEN_BRACE] + JoinFields(done)
      invariant done + Appended(fs, overrides, order[i..]) == front + Appended(fs, overrides, order)
    {
      var key := order[i];
      AppendedFirst(done, fs, overrides, order, i);
      if key !in written && key in overrides {
        AddsField(done, Field(key, overrides[key]));
        b := AddField(b, first, Field(key, overrides[key]));
        first := false;
        done := done + [Field(key, overrides[key])];
      }
    }
    AppendedNone(fs, overrides, order);
    assert done + [] == done;
  }

  lemma AppendedFirst(done: seq<Field>, fs: seq<Field>, overrides: map<Bytes, Bytes>, order: seq<Bytes>, i: nat)
    requires i < |order|
    ensures done + Appended(fs, overrides, order[i..])
      == if HasKey(fs, order[i]) || order[i] !in overrides then done + Appended(fs, overrides, order[i + 1..])
         else (done + [Field(order[i], overrides[order[i]])]) + Appended(fs, overrides, order[i + 1..])
  {
    hide HasKey;
    assert order[i..][1..] == order[i + 1..];
  }

  lemma AppendedNone(fs: seq<Field>, overrides: map<Bytes, Bytes>, order: seq<Bytes>)
    ensures Appended(fs, overrides, order[|order|..]) == []
  {
  }

  lemma EmptyJoin()
    ensures [OPEN_BRACE] + JoinFields([]) == [OPEN_BRACE]
  {
  }

  lemma {:induction false} FieldAt(es: seq<Element>, i: nat)
    requires NormalElements(es) && i < |es|
    ensures NormalNumbers(es[i].value)
    ensures FieldsOf(es)[i] == Field(es[i].key, ValueToJson(es[i].value))
  {
    hide ValueToJson;
    if i > 0 {
      FieldAt(es[1..], i - 1);
    }
  }

  lemma HasKeyGrows(fs: seq<Field>, i: nat)
    requires i < |fs|
    ensures forall k :: HasKey(fs[..i + 1], k) <==> HasKey(fs[..i], k) || k == fs[i].key
  {
    assert fs[..i + 1] == fs[..i] + [fs[i]];
    forall k | HasKey(fs[..i], k) ensures HasKey(fs[..i + 1], k) {
      var j :| 0 <= j < i && fs[..i][j].key == k;
      assert fs[..i + 1][j].key == k;
    }
    assert fs[..i + 1][i] == fs[i];
  }

  // ---- overrides as assignments -----------------------------------------------------------

  /** obj[key] = value on an object that keeps its properties in insertion order. */
  function Assign(fs: seq<Field>, f: Field): seq<Field> {
    if fs == [] then [f]
    else if fs[0].key == f.key then [f] + fs[1..]
    else [fs[0]] + Assign(fs[1..], f)
  }

  function AssignAll(fs: seq<Field>, overrides: map<Bytes, Bytes>, order: seq<Bytes>): seq<Field>
    requires forall k :: k in order ==> k in overrides
  {
    if order == [] then fs
    else
      var front := order[..|order| - 1];
      var key := order[|order| - 1];
      Assign(AssignAll(fs, overrides, front), Field(key, overrides[key]))
  }

  lemma {:induction false} AssignReplaces(fs: seq<Field>, f: Field, at: nat)
    requires at < |fs| && fs[at].key == f.key && forall i :: 0 <= i < at ==> fs[i].key != f.key
    ensures Assign(fs, f) == fs[at := f]
  {
    if at > 0 {
      AssignReplaces(fs[1..], f, at - 1);
      assert fs[at := f] == [fs[0]] + fs[1..][at - 1 := f];
    } else {
      assert fs[0 := f] == [f] + fs[1..];
    }
  }

  lemma {:induction false} AssignAppends(fs: seq<Field>, f: Field)
    requires !HasKey(fs, f.key)
    ensures Assign(fs, f) == fs + [f]
  {
    if fs != [] {
      assert fs[0].key != f.key;
      assert !HasKey(fs[1..], f.key);
      AssignAppends(fs[1..], f);
      assert fs + [f] == [fs[0]] + (fs[1..] + [f]);
    }
  }

  /** The overrides restricted to the keys listed. */
  function Only(overrides: map<Bytes, Bytes>, order: seq<Bytes>): map<Bytes, Bytes>
    requires forall k :: k in order ==> k in overrides
  {
    map k | k in order :: overrides[k]
  }

  /** Is this the first field with its key? */
  predicate FirstWithKey(fs: seq<Field>, i: nat)
    requires i < |fs|
  {
    forall j :: 0 <= j < i ==> fs[j].key != fs[i].key
  }

  /** The first field with an overridden key takes the new value, later ones keep theirs. */
  function Updated(fs: seq<Field>, overrides: map<Bytes, Bytes>): (r: seq<Field>)
    ensures |r| == |fs| && forall i :: 0 <= i < |fs| ==> r[i].key == fs[i].key
  {
    seq(|fs|, i requires 0 <= i < |fs| =>
      if fs[i].key in overrides && FirstWithKey(fs, i) then Field(fs[i].key, overrides[fs[i].key]) else fs[i])
  }

  lemma NothingAssigned(fs: seq<Field>, overrides: map<Bytes, Bytes>)
    ensures Updated(fs, Only(overrides, [])) + Appended(fs, Only(overrides, []), []) == fs
  {
    assert Updated(fs, Only(overrides, [])) == fs;
  }

  /** Successive assignments update the first field with each key and append the keys not there. */
  lemma {:induction false} AssignmentsUpdateFirst(fs: seq<Field>, overrides: map<Bytes, Bytes>, order: seq<Bytes>)
    requires forall k :: k in order ==> k in overrides
    requires forall i, j :: 0 <= i < j < |order| ==> order[i] != order[j]
    ensures AssignAll(fs, overrides, order)
      == Updated(fs, Only(overrides, order)) + Appended(fs, Only(overrides, order), order)
    decreases |order|
  {
    hide FirstWithKey, Assign, Updated, Appended, Only, HasKey;
    if order == [] {
      NothingAssigned(fs, overrides);
    } else {
      var n := |order| - 1;
      var front, key := order[..n], order[n];
      assert order == front + [key];
      AssignmentsUpdateFirst(fs, overrides, front);
      AppendedStep(fs, overrides, front, key);
      if HasKey(fs, key) {
        AssignPresent(fs, overrides, front, key);
      } else {
        AssignAbsent(fs, overrides, front, key);
      }
    }
  }

  lemma FirstKey(fs: seq<Field>, key: Bytes) returns (at: nat)
    requires HasKey(fs, key)
    ensures at < |fs| && fs[at].key == key && FirstWithKey(fs, at)
  {
    var i :| 0 <= i < |fs| && fs[i].key == key;
    at := 0;
    while fs[at].key != key
      invariant at <= i && forall j :: 0 <= j < at ==> fs[j].key != key
      decreases i - at
    {
      at := at + 1;
    }
  }

  lemma AssignPresent(fs: seq<Field>, overrides: map<Bytes, Bytes>, front: seq<Bytes>, key: Bytes)
    requires HasKey(fs, key) && key !in front && key in overrides
    requires forall k :: k in front ==> k in overrides
    ensures var was, now := Only(overrides, front), Only(overrides, front + [key]);
      Assign(Updated(fs, was) + Appended(fs, was, front), Field(key, overrides[key]))
      == Updated(fs, now) + Appended(fs, was, front)
  {
    hide Updated, Appended, Assign, Only;
    var was := Only(overrides, front);
    var base, added := Updated(fs, was), Appended(fs, was, front);
    var f := Field(key, overrides[key]);
    var at := FirstKey(fs, key);
    UpdatedStep(fs, overrides, front, key, at);
    AssignReplaces(base + added, f, at);
    assert (base + added)[at := f] == base[at := f] + added;
  }

  lemma UpdatedStep(fs: seq<Field>, overrides: map<Bytes, Bytes>, front: seq<Bytes>, key: Bytes, at: nat)
    requires key !in front && key in overrides && at < |fs| && fs[at].key == key && FirstWithKey(fs, at)
    requires forall k :: k in front ==> k in overrides
    ensures Updated(fs, Only(overrides, front + [key]))
      == Updated(fs, Only(overrides, front))[at := Field(key, overrides[key])]
  {
    var l := Updated(fs, Only(overrides, front + [key]));
    var r := Updated(fs, Only(overrides, front))[at := Field(key, overrides[key])];
    forall i | 0 <= i < |fs| ensures l[i] == r[i] {
      if i > at && fs[i].key == key {
        assert !FirstWithKey(fs, i);
      }
    }
  }

  lemma AssignAbsent(fs: seq<Field>, overrides: map<Bytes, Bytes>, front: seq<Bytes>, key: Bytes)
    requires !HasKey(fs, key) && key !in front && key in overrides
    requires forall k :: k in front ==> k in overrides
    ensures var was, now := Only(overrides, front), Only(overrides, front + [key]);
      Assign(Updated(fs, was) + Appended(fs, was, front), Field(key, overrides[key]))
      == Updated(fs, now) + (Appended(fs, was, front) + [Field(key, overrides[key])])
  {
    hide FirstWithKey;
    var was, now := Only(overrides, front), Only(overrides, front + [key]);
    var base, added := Updated(fs, was), Appended(fs, was, front);
    assert forall i :: 0 <= i < |fs| ==> fs[i].key != key;
    assert Updated(fs, now) == base;
    AppendedKeys(fs, was, front);
    assert !HasKey(base + added, key);
    AssignAppends(base + added, Field(key, overrides[key]));
    assert base + added + [Field(key, overrides[key])] == base + (added + [Field(key, overrides[key])]);
  }

  lemma {:induction false} AppendedKeys(fs: seq<Field>, overrides: map<Bytes, Bytes>, order: seq<Bytes>)
    ensures forall i :: 0 <= i < |Appended(fs, overrides, order)| ==>
      Appended(fs, overrides, order)[i].key in order && !HasKey(fs, Appended(fs, overrides, order)[i].key)
  {
    if order != [] {
      AppendedKeys(fs, overrides, order[1..]);
    }
  }

  /** One more key at the end of the order. */
  lemma {:induction false} AppendedStep(fs: seq<Field>, overrides: map<Bytes, Bytes>, front: seq<Bytes>, key: Bytes)
    requires key in overrides && forall k :: k in front ==> k in overrides
    ensures Appended(fs, Only(overrides, front + [key]), front + [key])
      == Appended(fs, Only(overrides, front), front) + if HasKey(fs, key) then [] else [Field(key, overrides[key])]
  {
    AppendedConcat(fs, Only(overrides, front + [key]), front, [key]);
    AppendedAgree(fs, Only(overrides, front + [key]), Only(overrides, front), front);
    assert Appended(fs, Only(overrides, front + [key]), []) == [];
  }

  lemma {:induction false} AppendedConcat(fs: seq<Field>, overrides: map<Bytes, Bytes>, a: seq<Bytes>, b: seq<Bytes>)
    ensures Appended(fs, overrides, a + b) == Appended(fs, overrides, a) + Appended(fs, overrides, b)
  {
    if a == [] {
      assert a + b == b;
    } else {
      assert (a + b)[1..] == a[1..] + b;
      AppendedConcat(fs, overrides, a[1..], b);
    }
  }

  lemma {:induction false} AppendedAgree(fs: seq<Field>, o1: map<Bytes, Bytes>, o2: map<Bytes, Bytes>,
      order: seq<Bytes>)
    requires forall k :: k in order ==> k in o1 && k in o2 && o1[k] == o2[k]
    ensures Appended(fs, o1, order) == Appended(fs, o2, order)
  {
    if order != [] {
      AppendedAgree(fs, o1, o2, order[1..]);
    }
  }

  /** A repeated field whose key is overridden already has the new value. */
  ghost predicate RepeatsAgree(fs: seq<Field>, overrides: map<Bytes, Bytes>) {
    forall i :: 0 <= i < |fs| && fs[i].key in overrides && !FirstWithKey(fs, i) ==> fs[i].text == overrides[fs[i].key]
  }

  /**
   With every overridden key listed once in the order, the fields written are those of an object
   the overrides were assigned to, one after the other, exactly when no field that repeats an
   overridden key differs from the override: the printer replaces such fields too.
   */
  lemma OverridesAreAssignments(es: seq<Element>, overrides: map<Bytes, Bytes>, order: seq<Bytes>)
    requires NormalElements(es)
    requires forall k :: k in order <==> k in overrides
    requires forall i, j :: 0 <= i < j < |order| ==> order[i] != order[j]
    ensures DocumentFields(es, overrides, order) == AssignAll(FieldsOf(es), overrides, order)
      <==> RepeatsAgree(FieldsOf(es), overrides)
  {
    hide FieldsOf, FirstWithKey, Appended, AssignAll;
    var fs := FieldsOf(es);
    AssignmentsUpdateFirst(fs, overrides, order);
    assert Only(overrides, order) == overrides;
    var base, added := Overridden(fs, overrides), Appended(fs, overrides, order);
    var updated := Updated(fs, overrides);
    assert base + added == updated + added <==> base == updated by {
      assert (base + added)[..|fs|] == base && (updated + added)[..|fs|] == updated;
    }
    forall i | 0 <= i < |fs|
      ensures base[i] == updated[i] <==>
        (fs[i].key in overrides && !FirstWithKey(fs, i) ==> fs[i].text == overrides[fs[i].key])
    {
    }
  }

  /** A document that has a key twice is written with both replaced; an assignment replaces one. */
  lemma RepeatedKeyIsReplacedTwice()
    ensures var es := [Element([97], Null), Element([97], Boolean(true))];
      NormalElements(es)
      && DocumentFields(es, map[[97] := FALSE_TEXT], [[97]]) == [Field([97], FALSE_TEXT), Field([97], FALSE_TEXT)]
      && AssignAll(FieldsOf(es), map[[97] := FALSE_TEXT], [[97]]) == [Field([97], FALSE_TEXT), Field([97], TRUE_TEXT)]
  {
    var a, b := Element([97], Null), Element([97], Boolean(true));
    var es := [a, b];
    var key: Bytes := [97];
    assert es[1..] == [b] && [b][1..] == [];
    assert NormalNumbers(a.value) && NormalNumbers(b.value) && NormalElements([b][1..]);
    assert NormalElements([b]) && NormalElements(es);
    assert FieldsOf([b][1..]) == [];
    assert FieldsOf([b]) == [Field(key, TRUE_TEXT)];
    var fs := FieldsOf(es);
    assert fs == [Field(key, ValueToJson(Null))] + FieldsOf(es[1..]);
    assert fs == [Field(key, NULL_TEXT), Field(key, TRUE_TEXT)];
    assert fs[0].key == key;
    assert HasKey(fs, key);
    assert Appended(fs, map[key := FALSE_TEXT], [key]) == [] + Appended(fs, map[key := FALSE_TEXT], [key][1..]) == [];
    assert AssignAll(fs, map[key := FALSE_TEXT], [key][..0]) == fs;
  }

  /** An embedded document is written as a document without overrides. */
  lemma EmbeddedIsPlainDocument(es: seq<Element>)
    requires NormalElements(es)
    ensures ValueToJson(Embedded(es)) == ObjectText(DocumentFields(es, map[], []))
  {
    assert Overridden(FieldsOf(es), map[]) == FieldsOf(es);
    assert FieldsOf(es) + [] == FieldsOf(es);
  }

  /** The tree a written field stands for: the override's, or the document's own. */
  function FieldTree(es: seq<Element>, f: Field, i: nat, trees: map<Bytes, Tree>): Tree
    requires NormalElements(es)
  {
    if f.key in trees then trees[f.key] else if i < |es| then TreeOfElement(es, i) else JNull
  }

  /** A document with overrides reads back as an object whose members are the fields written. */
  lemma DocumentReads(es: seq<Element>, overrides: map<Bytes, Bytes>, order: seq<Bytes>, trees: map<Bytes, Tree>)
    returns (values: seq<Tree>)
    requires NormalElements(es) && trees.Keys == overrides.Keys
    requires forall k :: k in overrides ==> ReadsAs(overrides[k], trees[k])
    ensures var fs := DocumentFields(es, overrides, order);
      && |values| == |fs|
      && (forall i :: 0 <= i < |fs| ==> values[i] == FieldTree(es, fs[i], i, trees))
      && ReadsAs(ObjectText(fs), JObject(MembersWith(fs, values)))
  {
    hide ReadsAs;
    var fs := DocumentFields(es, overrides, order);
    var base := FieldsOf(es);
    values := seq(|fs|, i requires 0 <= i < |fs| => FieldTree(es, fs[i], i, trees));
    AppendedOverrides(base, overrides, order);
    forall i | 0 <= i < |fs| ensures ReadsAs(fs[i].text, values[i]) {
      if i < |es| {
        FieldAt(es, i);
        PrintedValueReads(es[i].value);
      }
    }
    ObjectReads(fs, values);
  }

  function TreeOfElement(es: seq<Element>, i: nat): Tree
    requires NormalElements(es) && i < |es|
  {
    FieldAt(es, i);
    TreeOf(es[i].value)
  }

  lemma {:induction false} AppendedOverrides(fs: seq<Field>, overrides: map<Bytes, Bytes>, order: seq<Bytes>)
    ensures forall i :: 0 <= i < |Appended(fs, overrides, order)| ==>
      var f := Appended(fs, overrides, order)[i]; f.key in overrides && f.text == overrides[f.key]
  {
    if order != [] {
      AppendedOverrides(fs, overrides, order[1..]);
    }
  }
}
