/**
 JSON values as Python holds them, the text `json.dumps` writes for them with ensure_ascii=False and
 separators (",", ":"), and a parser that reads the text back. Strings follow section 7 of RFC 8259.
 */
module Json {
  import opened Prelude
  import opened Utf8

  type Text = seq<Scalar>

  /** The longest decimal `int.__repr__` writes before it raises ValueError. */
  const MAX_INT_DIGITS := 4_300

  const QUOTE: Scalar := 34
  const COMMA: Scalar := 44
  const MINUS: Scalar := 45
  const COLON: Scalar := 58
  const OPEN_BRACKET: Scalar := 91
  const BACKSLASH: Scalar := 92
  const CLOSE_BRACKET: Scalar := 93
  const OPEN_BRACE: Scalar := 123
  const CLOSE_BRACE: Scalar := 125

  /** A character of a number token. */
  predicate IsNumeric(c: Scalar) { 48 <= c <= 57 || c == MINUS || c == 43 || c == 46 || c == 69 || c == 101 }

  /** `repr` of a finite float: digits, signs, a point or an exponent; it is kept as it stands. */
  predicate IsFloatToken(t: Text) {
    && (forall i | 0 <= i < |t| :: IsNumeric(t[i]))
    && exists i | 0 <= i < |t| :: t[i] == 46 || t[i] == 101
  }

  datatype Key = Name(text: Text) | ForeignKey(id: nat)

  datatype Member = Member(key: Key, value: Value)

  /**
   A Python value. Foreign is what no JSON text stands for: a value of another type, a non-finite
   float, or a string with a lone surrogate; ForeignKey is such a key.
   */
  datatype Value =
    | Null
    | Bool(flag: bool)
    | Int(number: int)
    | Float(token: Text)
    | Str(text: Text)
    | Arr(items: seq<Value>)
    | Obj(members: seq<Member>)
    | Foreign

  /** A JSON value: no foreign part, and the keys of an object are different strings. */
  predicate WellTyped(v: Value) {
    match v
    case Null => true
    case Bool(_) => true
    case Int(_) => true
    case Float(token) => IsFloatToken(token)
    case Str(_) => true
    case Arr(items) => forall i | 0 <= i < |items| :: WellTyped(items[i])
    case Obj(members) =>
      && (forall i | 0 <= i < |members| :: members[i].key.Name? && WellTyped(members[i].value))
      && DistinctKeys(members)
    case Foreign => false
  }

  predicate DistinctKeys(members: seq<Member>) {
    forall i, j | 0 <= i < j < |members| :: members[i].key != members[j].key
  }

  // ---- numbers ------------------------------------------------------------------------------------------------

  function Digits(n: nat): (r: Text)
    ensures r != [] && forall i | 0 <= i < |r| :: 48 <= r[i] <= 57
  {
    if n < 10 then [48 + n] else Digits(n / 10) + [48 + n % 10]
  }

  function Decimal(n: int): Text { if n < 0 then [MINUS] + Digits(-n) else Digits(n) }

  function DigitsValue(t: Text): int {
    if t == [] then 0 else DigitsValue(t[..|t|-1]) * 10 + t[|t|-1] as int - 48
  }

  function DecimalValue(t: Text): int {
    if t != [] && t[0] == MINUS then -DigitsValue(t[1..]) else DigitsValue(t)
  }

  predicate IsDecimal(t: Text) { forall i | 0 <= i < |t| :: 48 <= t[i] <= 57 || t[i] == MINUS }

  lemma {:induction false} DigitsRoundTrip(n: nat)
    ensures DigitsValue(Digits(n)) == n
  {
    if n >= 10 {
      DigitsRoundTrip(n / 10);
      assert Digits(n)[..|Digits(n)|-1] == Digits(n / 10);
    } else {
      assert [48 + n][..0] == [];
    }
  }

  lemma DecimalRoundTrip(n: int)
    ensures DecimalValue(Decimal(n)) == n && IsDecimal(Decimal(n)) && Decimal(n) != []
  {
    DigitsRoundTrip(if n < 0 then -n else n);
    if n < 0 {
      assert Decimal(n)[1..] == Digits(-n);
    }
  }

  /** The longest numeric prefix. */
  function NumberLength(t: Text): (n: nat)
    ensures n <= |t|
  {
    if t == [] || !IsNumeric(t[0]) then 0 else 1 + NumberLength(t[1..])
  }

  lemma {:induction false} NumberEnds(token: Text, rest: Text)
    requires forall i | 0 <= i < |token| :: IsNumeric(token[i])
    requires rest == [] || !IsNumeric(rest[0])
    ensures NumberLength(token + rest) == |token|
  {
    if token == [] {
      assert token + rest == rest;
    } else {
      assert (token + rest)[1..] == token[1..] + rest;
      NumberEnds(token[1..], rest);
    }
  }

  // ---- strings ------------------------------------------------------------------------------------------------

  function HexDigit(n: nat): Scalar
    requires n < 16
  {
    if n < 10 then 48 + n else 87 + n
  }

  /** The escapes `json` writes; every other character stands for itself. */
  function Escape(c: Scalar): (r: Text)
    ensures r != []
  {
    if c == QUOTE then [BACKSLASH, QUOTE]
    else if c == BACKSLASH then [BACKSLASH, BACKSLASH]
    else if c == 10 then [BACKSLASH, 110]
    else if c == 13 then [BACKSLASH, 114]
    else if c == 9 then [BACKSLASH, 116]
    else if c == 12 then [BACKSLASH, 102]
    else if c == 8 then [BACKSLASH, 98]
    else if c < 32 then [BACKSLASH, 117, 48, 48, HexDigit(c / 16), HexDigit(c % 16)]
    else [c]
  }

  function Escaped(t: Text): Text {
    if t == [] then [] else Escape(t[0]) + Escaped(t[1..])
  }

  function StringText(t: Text): Text { [QUOTE] + Escaped(t) + [QUOTE] }

  datatype Parsed<T> = Parsed(value: T, rest: Text) | NoParse

  function HexValue(c: Scalar): Option<nat> {
    if 48 <= c <= 57 then Some(c - 48)
    else if 97 <= c <= 102 then Some(c - 87)
    else if 65 <= c <= 70 then Some(c - 55)
    else None
  }

  /** One character of a string, or an escape of section 7 of RFC 8259 that stands for one scalar value. */
  function ParseCharacter(t: Text): (r: Parsed<Scalar>)
    ensures r.Parsed? ==> |r.rest| < |t|
  {
    if t == [] || t[0] == QUOTE || t[0] < 32 then NoParse
    else if t[0] != BACKSLASH then Parsed(t[0], t[1..])
    else if |t| < 2 then NoParse
    else if t[1] == QUOTE || t[1] == BACKSLASH || t[1] == 47 then Parsed(t[1], t[2..])
    else if t[1] == 98 then Parsed(8, t[2..])
    else if t[1] == 102 then Parsed(12, t[2..])
    else if t[1] == 110 then Parsed(10, t[2..])
    else if t[1] == 114 then Parsed(13, t[2..])
    else if t[1] == 116 then Parsed(9, t[2..])
    else if t[1] != 117 || |t| < 6 then NoParse
    else
      var a, b, c, d := HexValue(t[2]), HexValue(t[3]), HexValue(t[4]), HexValue(t[5]);
      if a.None? || b.None? || c.None? || d.None? then NoParse
      else
        var code := a.value * 4096 + b.value * 256 + c.value * 16 + d.value;
        if code < 0xD800 || 0xE000 <= code < 0x10000 then Parsed(code, t[6..]) else NoParse
  }

  /** The rest of a string, after its opening quote. */
  function ParseString(t: Text): (r: Parsed<Text>)
    ensures r.Parsed? ==> |r.rest| < |t|
    decreases |t|
  {
    if t == [] then NoParse
    else if t[0] == QUOTE then Parsed([], t[1..])
    else
      var first := ParseCharacter(t);
      if first.NoParse? then NoParse
      else
        var more := ParseString(first.rest);
        if more.NoParse? then NoParse else Parsed([first.value] + more.value, more.rest)
  }

  lemma EscapeRoundTrip(c: Scalar, rest: Text)
    ensures ParseCharacter(Escape(c) + rest) == Parsed(c, rest)
    ensures Escape(c)[0] != QUOTE
    ensures forall i | 0 <= i < |Escape(c)| :: Escape(c)[i] >= 32
  {
    var t := Escape(c) + rest;
    assert t[|Escape(c)|..] == rest;
    if c < 32 {
      assert c == c / 16 * 16 + c % 16;
    }
  }

  lemma CharacterIsRead(c: Scalar, more: Text)
    requires ParseString(more).Parsed?
    ensures ParseString(Escape(c) + more) == Parsed([c] + ParseString(more).value, ParseString(more).rest)
  {
    EscapeRoundTrip(c, more);
    assert (Escape(c) + more)[0] == Escape(c)[0];
  }

  lemma {:induction false} StringRoundTrip(t: Text, rest: Text)
    ensures ParseString(Escaped(t) + [QUOTE] + rest) == Parsed(t, rest)
  {
    hide ParseString, Escape;
    if t == [] {
      assert Escaped(t) + [QUOTE] + rest == [QUOTE] + rest;
      QuoteIsRead(rest);
    } else {
      var more := Escaped(t[1..]) + [QUOTE] + rest;
      StringRoundTrip(t[1..], rest);
      CharacterIsRead(t[0], more);
      Regroup(Escape(t[0]), Escaped(t[1..]), [QUOTE], rest);
      assert [t[0]] + t[1..] == t;
    }
  }

  lemma QuoteIsRead(rest: Text)
    ensures ParseString([QUOTE] + rest) == Parsed([], rest)
  {
    assert ([QUOTE] + rest)[1..] == rest;
  }

  lemma Regroup(a: Text, b: Text, c: Text, d: Text)
    ensures a + b + c + d == a + (b + c + d)
  {}

  const NULL: Text := [110, 117, 108, 108]
  const TRUE: Text := [116, 114, 117, 101]
  const FALSE: Text := [102, 97, 108, 115, 101]

  predicate StartsWith(t: Text, word: Text) { |t| >= |word| && t[..|word|] == word }

  // ---- values -------------------------------------------------------------------------------------------------

  function TextOf(v: Value): Text
    requires WellTyped(v)
    decreases v, 0
  {
    match v
    case Null => NULL
    case Bool(flag) => if flag then TRUE else FALSE
    case Int(n) => Decimal(n)
    case Float(token) => token
    case Str(t) => StringText(t)
    case Arr(items) => [OPEN_BRACKET] + ItemsText(items) + [CLOSE_BRACKET]
    case Obj(members) => [OPEN_BRACE] + MembersText(members) + [CLOSE_BRACE]
  }

  function ItemsText(items: seq<Value>): Text
    requires forall i | 0 <= i < |items| :: WellTyped(items[i])
    decreases items, |items|
  {
    if items == [] then []
    else if |items| == 1 then TextOf(items[0])
    else TextOf(items[0]) + [COMMA] + ItemsText(items[1..])
  }

  predicate MemberOk(m: Member) { m.key.Name? && WellTyped(m.value) }

  function MemberText(m: Member): Text
    requires MemberOk(m)
    decreases m, 1
  {
    StringText(m.key.text) + [COLON] + TextOf(m.value)
  }

  function MembersText(members: seq<Member>): Text
    requires forall i | 0 <= i < |members| :: MemberOk(members[i])
    decreases members, |members|
  {
    if members == [] then []
    else if |members| == 1 then MemberText(members[0])
    else MemberText(members[0]) + [COMMA] + MembersText(members[1..])
  }

  /** A reader for the compact form: no white space. */
  function ParseValue(t: Text): (r: Parsed<Value>)
    ensures r.Parsed? ==> |r.rest| < |t|
    decreases |t|, 0
  {
    if t == [] then NoParse
    else if t[0] == QUOTE then
      var s := ParseString(t[1..]);
      if s.NoParse? then NoParse else Parsed(Str(s.value), s.rest)
    else if t[0] == OPEN_BRACKET then
      if |t| > 1 && t[1] == CLOSE_BRACKET then Parsed(Arr([]), t[2..])
      else
        var s := ParseItems(t[1..]);
        if s.NoParse? then NoParse else Parsed(Arr(s.value), s.rest)
    else if t[0] == OPEN_BRACE then
      if |t| > 1 && t[1] == CLOSE_BRACE then Parsed(Obj([]), t[2..])
      else
        var s := ParseMembers(t[1..]);
        if s.NoParse? then NoParse else Parsed(Obj(s.value), s.rest)
    else if IsNumeric(t[0]) then
      var n := NumberLength(t);
      Parsed(if IsDecimal(t[..n]) then Int(DecimalValue(t[..n])) else Float(t[..n]), t[n..])
    else if StartsWith(t, NULL) then Parsed(Null, t[4..])
    else if StartsWith(t, TRUE) then Parsed(Bool(true), t[4..])
    else if StartsWith(t, FALSE) then Parsed(Bool(false), t[5..])
    else NoParse
  }

  function ParseItems(t: Text): (r: Parsed<seq<Value>>)
    ensures r.Parsed? ==> |r.rest| < |t|
    decreases |t|, 1
  {
    var first := ParseValue(t);
    if first.NoParse? || first.rest == [] then NoParse
    else if first.rest[0] == CLOSE_BRACKET then Parsed([first.value], first.rest[1..])
    else if first.rest[0] != COMMA then NoParse
    else
      var more := ParseItems(first.rest[1..]);
      if more.NoParse? then NoParse else Parsed([first.value] + more.value, more.rest)
  }

  function ParseMember(t: Text): (r: Parsed<Member>)
    ensures r.Parsed? ==> |r.rest| < |t|
    decreases |t|, 1
  {
    if t == [] || t[0] != QUOTE then NoParse
    else
      var name := ParseString(t[1..]);
      if name.NoParse? || name.rest == [] || name.rest[0] != COLON then NoParse
      else
        var v := ParseValue(name.rest[1..]);
        if v.NoParse? then NoParse else Parsed(Member(Name(name.value), v.value), v.rest)
  }

  function ParseMembers(t: Text): (r: Parsed<seq<Member>>)
    ensures r.Parsed? ==> |r.rest| < |t|
    decreases |t|, 2
  {
    var first := ParseMember(t);
    if first.NoParse? || first.rest == [] then NoParse
    else if first.rest[0] == CLOSE_BRACE then Parsed([first.value], first.rest[1..])
    else if first.rest[0] != COMMA then NoParse
    else
      var more := ParseMembers(first.rest[1..]);
      if more.NoParse? then NoParse else Parsed([first.value] + more.value, more.rest)
  }

  // ---- round trip -----------------------------------------------------------------------------------------------

  /** What may follow a value without being read as part of it. */
  predicate Delimited(rest: Text) { rest == [] || !IsNumeric(rest[0]) }

  /** The first character of a value is none of the closing marks. */
  lemma {:induction false} TextStarts(v: Value)
    requires WellTyped(v)
    ensures TextOf(v) != [] && TextOf(v)[0] != CLOSE_BRACKET && TextOf(v)[0] != CLOSE_BRACE
  {
    if v.Int? {
      DecimalRoundTrip(v.number);
      assert v.number < 0 ==> Decimal(v.number)[0] == MINUS;
    }
  }

  lemma {:induction false} NumberRoundTrip(v: Value, rest: Text)
    requires WellTyped(v) && Delimited(rest) && (v.Int? || v.Float?)
    ensures ParseValue(TextOf(v) + rest) == Parsed(v, rest)
  {
    var token := TextOf(v);
    if v.Int? {
      DecimalRoundTrip(v.number);
    }
    NumberEnds(token, rest);
    assert (token + rest)[..|token|] == token && (token + rest)[|token|..] == rest;
  }

  lemma {:induction false} LiteralRoundTrip(v: Value, rest: Text)
    requires v.Null? || v.Bool?
    ensures ParseValue(TextOf(v) + rest) == Parsed(v, rest)
  {
    var t := TextOf(v) + rest;
    assert t[..|TextOf(v)|] == TextOf(v) && t[|TextOf(v)|..] == rest;
  }

  lemma {:induction false} ValueRoundTrip(v: Value, rest: Text)
    requires WellTyped(v) && Delimited(rest)
    ensures ParseValue(TextOf(v) + rest) == Parsed(v, rest)
    decreases v, 0
  {
    hide ParseValue, TextOf, ItemsText, MembersText, ParseItems, ParseMembers;
    match v
    case Null => LiteralRoundTrip(v, rest);
    case Bool(_) => LiteralRoundTrip(v, rest);
    case Int(_) => NumberRoundTrip(v, rest);
    case Float(_) => NumberRoundTrip(v, rest);
    case Str(s) => StringIsRead(s, rest);
    case Arr(items) =>
      if items != [] {
        ItemsRoundTrip(items, rest);
      }
      ArrayIsRead(items, rest);
    case Obj(members) =>
      if members != [] {
        MembersRoundTrip(members, rest);
      }
      ObjectIsRead(members, rest);
  }

  lemma {:induction false} StringIsRead(s: Text, rest: Text)
    ensures ParseValue(TextOf(Str(s)) + rest) == Parsed(Str(s), rest)
  {
    StringRoundTrip(s, rest);
    Bracketed(QUOTE, Escaped(s), QUOTE, rest);
    ReadString(Escaped(s) + [QUOTE] + rest);
    hide ParseValue, ParseString, Escaped;
  }

  lemma ReadString(inner: Text)
    requires ParseString(inner).Parsed?
    ensures ParseValue([QUOTE] + inner) == Parsed(Str(ParseString(inner).value), ParseString(inner).rest)
  {
    assert ([QUOTE] + inner)[1..] == inner;
    hide ParseString;
  }

  lemma {:induction false} ArrayIsRead(items: seq<Value>, rest: Text)
    requires WellTyped(Arr(items))
    requires items != [] ==> ParseItems(ItemsText(items) + [CLOSE_BRACKET] + rest) == Parsed(items, rest)
    ensures ParseValue(TextOf(Arr(items)) + rest) == Parsed(Arr(items), rest)
  {
    var t := TextOf(Arr(items)) + rest;
    if items == [] {
      assert ItemsText(items) == [];
      assert t == [OPEN_BRACKET, CLOSE_BRACKET] + rest;
      assert t[2..] == rest;
    } else {
      ItemsStart(items);
      var inner := ItemsText(items) + [CLOSE_BRACKET] + rest;
      Bracketed(OPEN_BRACKET, ItemsText(items), CLOSE_BRACKET, rest);
      assert inner[0] == ItemsText(items)[0];
      ReadArray(inner);
    }
  }

  lemma Bracketed(open: Scalar, body: Text, close: Scalar, rest: Text)
    ensures [open] + body + [close] + rest == [open] + (body + [close] + rest)
  {}

  lemma ReadArray(inner: Text)
    requires inner != [] && inner[0] != CLOSE_BRACKET && ParseItems(inner).Parsed?
    ensures ParseValue([OPEN_BRACKET] + inner) == Parsed(Arr(ParseItems(inner).value), ParseItems(inner).rest)
  {
    assert ([OPEN_BRACKET] + inner)[1..] == inner;
  }

  lemma ReadObject(inner: Text)
    requires inner != [] && inner[0] != CLOSE_BRACE && ParseMembers(inner).Parsed?
    ensures ParseValue([OPEN_BRACE] + inner) == Parsed(Obj(ParseMembers(inner).value), ParseMembers(inner).rest)
  {
    assert ([OPEN_BRACE] + inner)[1..] == inner;
  }

  lemma {:induction false} ItemsStart(items: seq<Value>)
    requires items != [] && forall i | 0 <= i < |items| :: WellTyped(items[i])
    ensures ItemsText(items) != [] && ItemsText(items)[0] != CLOSE_BRACKET
  {
    TextStarts(items[0]);
  }

  lemma {:induction false} MembersStart(members: seq<Member>)
    requires members != [] && forall i | 0 <= i < |members| :: MemberOk(members[i])
    ensures MembersText(members) != [] && MembersText(members)[0] == QUOTE
  {
    assert MemberText(members[0])[0] == QUOTE;
  }

  lemma {:induction false} ObjectIsRead(members: seq<Member>, rest: Text)
    requires WellTyped(Obj(members))
    requires members != [] ==> ParseMembers(MembersText(members) + [CLOSE_BRACE] + rest) == Parsed(members, rest)
    ensures ParseValue(TextOf(Obj(members)) + rest) == Parsed(Obj(members), rest)
  {
    var t := TextOf(Obj(members)) + rest;
    if members == [] {
      assert MembersText(members) == [];
      assert t == [OPEN_BRACE, CLOSE_BRACE] + rest;
      assert t[2..] == rest;
    } else {
      MembersStart(members);
      var inner := MembersText(members) + [CLOSE_BRACE] + rest;
      Bracketed(OPEN_BRACE, MembersText(members), CLOSE_BRACE, rest);
      assert inner[0] == MembersText(members)[0];
      ReadObject(inner);
    }
  }

  lemma {:induction false} ItemsRoundTrip(items: seq<Value>, rest: Text)
    requires items != [] && forall i | 0 <= i < |items| :: WellTyped(items[i])
    ensures ParseItems(ItemsText(items) + [CLOSE_BRACKET] + rest) == Parsed(items, rest)
    decreases items, |items|
  {
    if |items| == 1 {
      var next := [CLOSE_BRACKET] + rest;
      ValueRoundTrip(items[0], next);
      assert ItemsText(items) + [CLOSE_BRACKET] + rest == TextOf(items[0]) + next;
      assert next[1..] == rest && [items[0]] == items;
    } else {
      var inner := ItemsText(items[1..]) + [CLOSE_BRACKET] + rest;
      ValueRoundTrip(items[0], [COMMA] + inner);
      ItemsRoundTrip(items[1..], rest);
      Followed(TextOf(items[0]), ItemsText(items[1..]), CLOSE_BRACKET, rest);
      ReadNextItem(TextOf(items[0]) + ([COMMA] + inner), items[0], inner);
      assert [items[0]] + items[1..] == items;
    }
  }

  lemma {:induction false} ReadNextItem(t: Text, v: Value, inner: Text)
    requires ParseValue(t) == Parsed(v, [COMMA] + inner) && ParseItems(inner).Parsed?
    ensures ParseItems(t) == Parsed([v] + ParseItems(inner).value, ParseItems(inner).rest)
  {
    assert ([COMMA] + inner)[1..] == inner;
  }

  lemma {:induction false} ReadNextMember(t: Text, m: Member, inner: Text)
    requires ParseMember(t) == Parsed(m, [COMMA] + inner) && ParseMembers(inner).Parsed?
    ensures ParseMembers(t) == Parsed([m] + ParseMembers(inner).value, ParseMembers(inner).rest)
  {
    assert ([COMMA] + inner)[1..] == inner;
  }

  lemma Followed(first: Text, more: Text, close: Scalar, rest: Text)
    ensures first + [COMMA] + more + [close] + rest == first + ([COMMA] + (more + [close] + rest))
  {}

  lemma {:induction false} MemberRoundTrip(m: Member, rest: Text)
    requires MemberOk(m) && Delimited(rest)
    ensures ParseMember(MemberText(m) + rest) == Parsed(m, rest)
    decreases m, 1
  {
    ValueRoundTrip(m.value, rest);
    ReadMember(m.key.text, TextOf(m.value), m.value, rest);
  }

  lemma ReadMember(name: Text, valueText: Text, v: Value, rest: Text)
    requires ParseValue(valueText + rest) == Parsed(v, rest)
    ensures ParseMember(StringText(name) + [COLON] + valueText + rest) == Parsed(Member(Name(name), v), rest)
  {
    var after := [COLON] + (valueText + rest);
    StringRoundTrip(name, after);
    ReadQuoted(Escaped(name) + [QUOTE] + after, name, v, after, rest);
    QuotedThenColon(Escaped(name), valueText, rest);
  }

  lemma QuotedThenColon(inner: Text, valueText: Text, rest: Text)
    ensures [QUOTE] + (inner + [QUOTE] + ([COLON] + (valueText + rest)))
         == [QUOTE] + inner + [QUOTE] + [COLON] + valueText + rest
  {}

  lemma ReadQuoted(t: Text, name: Text, v: Value, after: Text, rest: Text)
    requires ParseString(t) == Parsed(name, after)
    requires after != [] && after[0] == COLON && ParseValue(after[1..]) == Parsed(v, rest)
    ensures ParseMember([QUOTE] + t) == Parsed(Member(Name(name), v), rest)
  {
    assert ([QUOTE] + t)[1..] == t;
  }

  lemma {:induction false} MembersRoundTrip(members: seq<Member>, rest: Text)
    requires members != [] && forall i | 0 <= i < |members| :: MemberOk(members[i])
    ensures ParseMembers(MembersText(members) + [CLOSE_BRACE] + rest) == Parsed(members, rest)
    decreases members, |members|
  {
    if |members| == 1 {
      var next := [CLOSE_BRACE] + rest;
      MemberRoundTrip(members[0], next);
      assert MembersText(members) + [CLOSE_BRACE] + rest == MemberText(members[0]) + next;
      assert next[1..] == rest && [members[0]] == members;
    } else {
      var inner := MembersText(members[1..]) + [CLOSE_BRACE] + rest;
      MemberRoundTrip(members[0], [COMMA] + inner);
      MembersRoundTrip(members[1..], rest);
      Followed(MemberText(members[0]), MembersText(members[1..]), CLOSE_BRACE, rest);
      ReadNextMember(MemberText(members[0]) + ([COMMA] + inner), members[0], inner);
      assert [members[0]] + members[1..] == members;
    }
  }

  // ---- no control characters below the space --------------------------------------------------------------------

  /** Which characters are written as they are: all but the quote, the backslash and the 32 controls below the space. */
  predicate Raw(c: Scalar) { c >= 32 && c != QUOTE && c != BACKSLASH }

  lemma RawCharacters(c: Scalar)
    ensures Escape(c) == [c] <==> Raw(c)
    ensures !Raw(c) ==> |Escape(c)| > 1
  {}

  /** A string is written as it is exactly when all its characters are; otherwise it gets longer. */
  lemma {:induction false} RawStrings(t: Text)
    ensures Escaped(t) == t <==> forall i | 0 <= i < |t| :: Raw(t[i])
    ensures |Escaped(t)| >= |t| && (Escaped(t) != t ==> |Escaped(t)| > |t|)
  {
    if t != [] {
      RawCharacters(t[0]);
      RawStrings(t[1..]);
      assert t == [t[0]] + t[1..];
    }
  }

  predicate NoneBelowSpace(t: Text) { forall i | 0 <= i < |t| :: t[i] >= 32 }

  lemma {:induction false} EscapedHasNoLowControls(t: Text)
    ensures NoneBelowSpace(Escaped(t))
  {
    if t != [] {
      EscapeRoundTrip(t[0], []);
      EscapedHasNoLowControls(t[1..]);
    }
  }

  lemma {:induction false} TextHasNoLowControls(v: Value)
    requires WellTyped(v)
    ensures NoneBelowSpace(TextOf(v))
    decreases v, 0
  {
    match v
    case Null =>
    case Bool(_) =>
    case Int(n) => DecimalRoundTrip(n);
    case Float(_) =>
    case Str(t) => EscapedHasNoLowControls(t);
    case Arr(items) => ItemsHaveNoLowControls(items);
    case Obj(members) => MembersHaveNoLowControls(members);
  }

  lemma {:induction false} ItemsHaveNoLowControls(items: seq<Value>)
    requires forall i | 0 <= i < |items| :: WellTyped(items[i])
    ensures NoneBelowSpace(ItemsText(items))
    decreases items, |items|
  {
    if items != [] {
      TextHasNoLowControls(items[0]);
      ItemsHaveNoLowControls(items[1..]);
    }
  }

  lemma {:induction false} MembersHaveNoLowControls(members: seq<Member>)
    requires forall i | 0 <= i < |members| :: MemberOk(members[i])
    ensures NoneBelowSpace(MembersText(members))
    decreases members, |members|
  {
    if members != [] {
      MemberHasNoLowControls(members[0]);
      MembersHaveNoLowControls(members[1..]);
    }
  }

  lemma {:induction false} MemberHasNoLowControls(m: Member)
    requires MemberOk(m)
    ensures NoneBelowSpace(MemberText(m))
    decreases m, 1
  {
    EscapedHasNoLowControls(m.key.text);
    TextHasNoLowControls(m.value);
  }

  // ---- the text, in characters ------------------------------------------------------------------------------------

  /** A text of ASCII characters. */
  function Ascii(s: string): Text
    requires forall i | 0 <= i < |s| :: s[i] < 128 as char
  {
    seq(|s|, i requires 0 <= i < |s| => s[i] as int)
  }

  /** The words, the sign and the quotes. */
  lemma ScalarsWritten(n: int, t: Text)
    ensures TextOf(Null) == Ascii("null") && TextOf(Bool(true)) == Ascii("true") && TextOf(Bool(false)) == Ascii("false")
    ensures n < 0 ==> TextOf(Int(n)) == Ascii("-") + TextOf(Int(-n))
    ensures TextOf(Str(t)) == Ascii("\"") + Escaped(t) + Ascii("\"")
  {
    CharactersAre();
    hide Ascii, Digits, Escaped;
  }

  /** An array: its items between brackets, with a comma between two of them. */
  lemma ArraysWritten(item: Value, items: seq<Value>)
    requires WellTyped(item) && WellTyped(Arr(items))
    ensures TextOf(Arr([])) == Ascii("[]")
    ensures TextOf(Arr([item] + items))
            == Ascii("[") + TextOf(item) + if items == [] then Ascii("]") else Ascii(",") + TextOf(Arr(items))[1..]
  {
    CharactersAre();
    ItemsWritten(item, items);
    Regrouped(TextOf(item), ItemsText(items));
    hide Ascii, ItemsText, WellTyped;
  }

  lemma Regrouped(first: Text, rest: Text)
    ensures ([OPEN_BRACKET] + rest + [CLOSE_BRACKET])[1..] == rest + [CLOSE_BRACKET]
    ensures [OPEN_BRACKET] + (first + ([COMMA] + rest)) + [CLOSE_BRACKET]
            == [OPEN_BRACKET] + first + ([COMMA] + ([OPEN_BRACKET] + rest + [CLOSE_BRACKET])[1..])
    ensures [OPEN_BRACKET] + (first + []) + [CLOSE_BRACKET] == [OPEN_BRACKET] + first + [CLOSE_BRACKET]
  {
    assert ([OPEN_BRACKET] + rest + [CLOSE_BRACKET])[1..] == rest + [CLOSE_BRACKET];
  }

  lemma {:induction false} ItemsWritten(item: Value, items: seq<Value>)
    requires WellTyped(item) && WellTyped(Arr(items))
    ensures WellTyped(Arr([item] + items))
    ensures ItemsText([]) == []
    ensures ItemsText([item] + items) == TextOf(item) + if items == [] then [] else [COMMA] + ItemsText(items)
  {
    var more := [item] + items;
    hide TextOf;
    assert more[1..] == items && more[0] == item;
    if items == [] {
      assert more == [item];
    }
  }

  lemma MemberWritten(m: Member)
    requires MemberOk(m)
    ensures MemberText(m) == TextOf(Str(m.key.text)) + [COLON] + TextOf(m.value)
  {
    hide StringText;
  }

  lemma ObjectWritten(members: seq<Member>)
    requires WellTyped(Obj(members))
    ensures TextOf(Obj(members)) == [OPEN_BRACE] + MembersText(members) + [CLOSE_BRACE]
    ensures TextOf(Obj(members))[1..] == MembersText(members) + [CLOSE_BRACE]
  {
    hide MembersText;
  }

  lemma FirstMember(m: Member, members: seq<Member>)
    requires MemberOk(m) && forall i | 0 <= i < |members| :: MemberOk(members[i])
    ensures MembersText([m] + members) == if members == [] then MemberText(m) else MemberText(m) + [COMMA] + MembersText(members)
  {
    hide MemberText;
    assert ([m] + members)[1..] == members;
  }

  /** An object: each key, a colon and the value, between braces, with a comma between two members. */
  lemma ObjectsWritten(m: Member, members: seq<Member>)
    requires WellTyped(Obj([m] + members)) && WellTyped(Obj(members)) && MemberOk(m)
    ensures TextOf(Obj([])) == Ascii("{}")
    ensures TextOf(Obj([m] + members))
            == Ascii("{") + (TextOf(Str(m.key.text)) + Ascii(":") + TextOf(m.value))
               + if members == [] then Ascii("}") else Ascii(",") + TextOf(Obj(members))[1..]
  {
    CharactersAre();
    ObjectWritten([]);
    ObjectWritten(members);
    ObjectWritten([m] + members);
    FirstMember(m, members);
    MemberWritten(m);
    assert MembersText([]) == [];
    hide TextOf, MembersText, MemberText, WellTyped, Ascii;
    ObjectGrouped(MemberText(m), MembersText(members));
  }

  lemma ObjectGrouped(member: Text, rest: Text)
    ensures [OPEN_BRACE] + (member + [COMMA] + rest) + [CLOSE_BRACE] == [OPEN_BRACE] + member + ([COMMA] + (rest + [CLOSE_BRACE]))
  {}

  lemma CharactersAre()
    ensures Ascii("null") == NULL && Ascii("true") == TRUE && Ascii("false") == FALSE
    ensures Ascii("-") == [MINUS] && Ascii("\"") == [QUOTE] && Ascii(",") == [COMMA] && Ascii(":") == [COLON]
    ensures Ascii("[") == [OPEN_BRACKET] && Ascii("]") == [CLOSE_BRACKET] && Ascii("{") == [OPEN_BRACE] && Ascii("}") == [CLOSE_BRACE]
    ensures Ascii("[]") == [OPEN_BRACKET, CLOSE_BRACKET] && Ascii("{}") == [OPEN_BRACE, CLOSE_BRACE]
  {}

  /** Each decimal digit stands for itself. */
  lemma DigitsWritten(n: nat)
    ensures n < 10 ==> TextOf(Int(n)) == [Ascii("0123456789")[n]]
    ensures n >= 10 ==> TextOf(Int(n)) == TextOf(Int(n / 10)) + [Ascii("0123456789")[n % 10]]
  {}

  /** The short escapes, and four lower-case hexadecimal digits for every other control below the space. */
  lemma EscapesWritten(c: Scalar)
    ensures c == 34 ==> Escape(c) == Ascii("\\\"")
    ensures c == 92 ==> Escape(c) == Ascii("\\\\")
    ensures c == 10 ==> Escape(c) == Ascii("\\n")
    ensures c == 13 ==> Escape(c) == Ascii("\\r")
    ensures c == 9 ==> Escape(c) == Ascii("\\t")
    ensures c == 12 ==> Escape(c) == Ascii("\\f")
    ensures c == 8 ==> Escape(c) == Ascii("\\b")
    ensures c < 32 && c !in {8, 9, 10, 12, 13} ==>
              Escape(c) == Ascii("\\u00") + [Ascii("0123456789abcdef")[c / 16], Ascii("0123456789abcdef")[c % 16]]
  {}
}
