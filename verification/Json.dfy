/**
 JSON text (RFC 8259) over UTF-16 code units: printing without white space, and parsing.

 A number is its literal, so no double is modelled; a printed number is read back as the same literal.
 */
module Json {
  import opened Options

  type Unit = u: int | 0 <= u < 0x10000

  type Text = seq<Unit>

  datatype Json =
    | Null
    | Bool(value: bool)
    | Num(literal: Text)
    | Str(text: Text)
    | Arr(items: seq<Json>)
    | Obj(fields: seq<Field>)

  datatype Field = Field(key: Text, value: Json)

  function U(c: char): Unit
    requires c as int < 0x10000
  {
    c as int
  }

  const TRUE: Text := [U('t'), U('r'), U('u'), U('e')]
  const FALSE: Text := [U('f'), U('a'), U('l'), U('s'), U('e')]
  const NULL: Text := [U('n'), U('u'), U('l'), U('l')]

  // ---------------------------------------------------------------- numbers

  predicate IsDigit(u: Unit) { U('0') <= u <= U('9') }

  predicate IsNumeral(u: Unit) { IsDigit(u) || u in {U('+'), U('-'), U('.'), U('e'), U('E')} }

  function SkipDigits(s: Text): Text {
    if s != [] && IsDigit(s[0]) then SkipDigits(s[1..]) else s
  }

  predicate EndsAsExponent(s: Text) {
    s == [] || (s[0] in {U('e'), U('E')}
                && var t := if |s| > 1 && s[1] in {U('+'), U('-')} then s[2..] else s[1..];
                   t != [] && IsDigit(t[0]) && SkipDigits(t) == [])
  }

  predicate EndsAsFraction(s: Text) {
    if s != [] && s[0] == U('.') then |s| > 1 && IsDigit(s[1]) && EndsAsExponent(SkipDigits(s[1..]))
    else EndsAsExponent(s)
  }

  /** The number grammar of section 6. */
  predicate IsNumber(s: Text) {
    && (forall k :: 0 <= k < |s| ==> IsNumeral(s[k]))
    && var t := if s != [] && s[0] == U('-') then s[1..] else s;
       t != [] && IsDigit(t[0]) && EndsAsFraction(if t[0] == U('0') then t[1..] else SkipDigits(t))
  }

  /** The literal of a natural number. */
  function Decimal(n: nat): Text {
    if n < 10 then [U('0') + n] else Decimal(n / 10) + [U('0') + n % 10]
  }

  lemma {:induction false} DecimalDigits(n: nat)
    ensures Decimal(n) != [] && (forall k :: 0 <= k < |Decimal(n)| ==> IsDigit(Decimal(n)[k]))
    ensures n > 0 ==> Decimal(n)[0] != U('0')
  {
    if n >= 10 {
      DecimalDigits(n / 10);
    }
  }

  lemma {:induction false} DigitsAreSkipped(s: Text)
    requires forall k :: 0 <= k < |s| ==> IsDigit(s[k])
    ensures SkipDigits(s) == []
  {
    if s != [] {
      DigitsAreSkipped(s[1..]);
    }
  }

  lemma DecimalIsNumber(n: nat)
    ensures IsNumber(Decimal(n))
  {
    DecimalDigits(n);
    DigitsAreSkipped(Decimal(n));
    if n == 0 {
      assert Decimal(n)[1..] == [];
    }
  }

  // ---------------------------------------------------------------- printing

  function HexDigit(n: int): Unit
    requires 0 <= n < 16
  {
    if n < 10 then U('0') + n else U('a') + n - 10
  }

  function UnicodeEscape(u: Unit): Text {
    [U('\\'), U('u'), HexDigit(u / 0x1000), HexDigit(u / 0x100 % 16), HexDigit(u / 16 % 16), HexDigit(u % 16)]
  }

  predicate IsHigh(u: Unit) { 0xD800 <= u < 0xDC00 }

  predicate IsLow(u: Unit) { 0xDC00 <= u < 0xE000 }

  /** A unit on its own inside a printed string; unpaired surrogates are escaped. */
  function PrintUnit(u: Unit): Text {
    if u == U('"') || u == U('\\') then [U('\\'), u]
    else if u == 8 then [U('\\'), U('b')]
    else if u == 9 then [U('\\'), U('t')]
    else if u == 10 then [U('\\'), U('n')]
    else if u == 12 then [U('\\'), U('f')]
    else if u == 13 then [U('\\'), U('r')]
    else if u < 0x20 || IsHigh(u) || IsLow(u) then UnicodeEscape(u)
    else [u]
  }

  function PrintUnits(text: Text): Text {
    if text == [] then []
    else if |text| > 1 && IsHigh(text[0]) && IsLow(text[1]) then text[..2] + PrintUnits(text[2..])
    else PrintUnit(text[0]) + PrintUnits(text[1..])
  }

  function Quote(text: Text): Text { [U('"')] + PrintUnits(text) + [U('"')] }

  /** JSON.stringify of a value without undefined members. */
  function Print(v: Json): Text
    decreases v
  {
    match v
    case Null => NULL
    case Bool(b) => if b then TRUE else FALSE
    case Num(literal) => literal
    case Str(text) => Quote(text)
    case Arr(items) => if items == [] then [U('['), U(']')] else [U('[')] + PrintItems(items) + [U(']')]
    case Obj(fields) => if fields == [] then [U('{'), U('}')] else [U('{')] + PrintFields(fields) + [U('}')]
  }

  function PrintItems(items: seq<Json>): Text
    requires items != []
    decreases items
  {
    if |items| == 1 then Print(items[0]) else Print(items[0]) + [U(',')] + PrintItems(items[1..])
  }

  function PrintField(field: Field): Text
    decreases field
  {
    Quote(field.key) + [U(':')] + Print(field.value)
  }

  function PrintFields(fields: seq<Field>): Text
    requires fields != []
    decreases fields
  {
    if |fields| == 1 then PrintField(fields[0]) else PrintField(fields[0]) + [U(',')] + PrintFields(fields[1..])
  }

  // ---------------------------------------------------------------- parsing

  predicate IsWhite(u: Unit) { u in {9, 10, 13, 32} }

  function SkipWhite(t: Text): (rest: Text)
    ensures |rest| <= |t|
  {
    if t != [] && IsWhite(t[0]) then SkipWhite(t[1..]) else t
  }

  function HexValue(u: Unit): Option<int> {
    if IsDigit(u) then Some(u - U('0'))
    else if U('a') <= u <= U('f') then Some(u - U('a') + 10)
    else if U('A') <= u <= U('F') then Some(u - U('A') + 10)
    else None
  }

  function ParseHex(t: Text): (r: Option<Unit>)
    requires |t| == 4
  {
    var a, b, c, d := HexValue(t[0]), HexValue(t[1]), HexValue(t[2]), HexValue(t[3]);
    if a.Some? && b.Some? && c.Some? && d.Some?
       && 0 <= a.value < 16 && 0 <= b.value < 16 && 0 <= c.value < 16 && 0 <= d.value < 16
    then Some(((a.value * 16 + b.value) * 16 + c.value) * 16 + d.value)
    else None
  }

  /** The unit after a backslash, and what follows. */
  function ParseEscape(t: Text): (r: Option<(Unit, Text)>)
    ensures r.Some? ==> |r.value.1| < |t|
  {
    if t == [] then None
    else if t[0] in {U('"'), U('\\'), U('/')} then Some((t[0], t[1..]))
    else if t[0] == U('b') then Some((8, t[1..]))
    else if t[0] == U('t') then Some((9, t[1..]))
    else if t[0] == U('n') then Some((10, t[1..]))
    else if t[0] == U('f') then Some((12, t[1..]))
    else if t[0] == U('r') then Some((13, t[1..]))
    else if t[0] == U('u') && |t| >= 5 && ParseHex(t[1..5]).Some? then Some((ParseHex(t[1..5]).value, t[5..]))
    else None
  }

  /** The rest of a string after its opening quote. */
  function ParseUnits(t: Text): (r: Option<(Text, Text)>)
    ensures r.Some? ==> |r.value.1| < |t|
  {
    if t == [] || t[0] < 0x20 then None
    else if t[0] == U('"') then Some(([], t[1..]))
    else
      var unit := if t[0] == U('\\') then ParseEscape(t[1..]) else Some((t[0], t[1..]));
      if unit.None? then None
      else
        var rest := ParseUnits(unit.value.1);
        if rest.None? then None else Some(([unit.value.0] + rest.value.0, rest.value.1))
  }

  function TakeNumeral(t: Text): (literal: Text)
    ensures literal <= t
  {
    if t != [] && IsNumeral(t[0]) then [t[0]] + TakeNumeral(t[1..]) else []
  }

  predicate StartsWith(t: Text, word: Text) { word <= t }

  function ParseNumber(t: Text): (r: Option<(Json, Text)>)
    ensures r.Some? ==> |r.value.1| < |t|
  {
    var literal := TakeNumeral(t);
    if IsNumber(literal) then Some((Num(literal), t[|literal|..])) else None
  }

  /** Gives a key its value; a later value of a key replaces the earlier one. */
  function PutField(fields: seq<Field>, key: Text, value: Json): seq<Field> {
    if fields == [] then [Field(key, value)]
    else if fields[0].key == key then [Field(key, value)] + fields[1..]
    else [fields[0]] + PutField(fields[1..], key, value)
  }

  function ParseValue(t: Text): (r: Option<(Json, Text)>)
    ensures r.Some? ==> |r.value.1| < |t|
    decreases |t|, 0
  {
    if t == [] then None
    else if IsWhite(t[0]) then ParseValue(t[1..])
    else if StartsWith(t, NULL) then Some((Null, t[4..]))
    else if StartsWith(t, TRUE) then Some((Bool(true), t[4..]))
    else if StartsWith(t, FALSE) then Some((Bool(false), t[5..]))
    else if t[0] == U('"') then
      var text := ParseUnits(t[1..]);
      if text.None? then None else Some((Str(text.value.0), text.value.1))
    else if t[0] == U('[') then
      var inside := SkipWhite(t[1..]);
      if inside != [] && inside[0] == U(']') then Some((Arr([]), inside[1..]))
      else
        var items := ParseItems(inside);
        if items.None? then None else Some((Arr(items.value.0), items.value.1))
    else if t[0] == U('{') then
      var inside := SkipWhite(t[1..]);
      if inside != [] && inside[0] == U('}') then Some((Obj([]), inside[1..]))
      else
        var fields := ParseFields([], inside);
        if fields.None? then None else Some((Obj(fields.value.0), fields.value.1))
    else ParseNumber(t)
  }

  /** One or more values up to the closing bracket. */
  function ParseItems(t: Text): (r: Option<(seq<Json>, Text)>)
    ensures r.Some? ==> |r.value.1| < |t|
    decreases |t|, 1
  {
    var item := ParseValue(t);
    if item.None? then None
    else
      var after := SkipWhite(item.value.1);
      if after != [] && after[0] == U(']') then Some(([item.value.0], after[1..]))
      else if after != [] && after[0] == U(',') then
        var rest := ParseItems(after[1..]);
        if rest.None? then None else Some(([item.value.0] + rest.value.0, rest.value.1))
      else None
  }

  /** One or more members up to the closing brace, added to those already read. */
  function ParseFields(sofar: seq<Field>, t: Text): (r: Option<(seq<Field>, Text)>)
    ensures r.Some? ==> |r.value.1| < |t|
    decreases |t|, 1
  {
    var open := SkipWhite(t);
    if open == [] || open[0] != U('"') then None
    else
      var key := ParseUnits(open[1..]);
      if key.None? then None
      else
        var colon := SkipWhite(key.value.1);
        if colon == [] || colon[0] != U(':') then None
        else
          var value := ParseValue(colon[1..]);
          if value.None? then None
          else
            var fields := PutField(sofar, key.value.0, value.value.0);
            var after := SkipWhite(value.value.1);
            if after != [] && after[0] == U('}') then Some((fields, after[1..]))
            else if after != [] && after[0] == U(',') then ParseFields(fields, after[1..])
            else None
  }

  /** JSON.parse. */
  function Parse(t: Text): Option<Json> {
    var r := ParseValue(t);
    if r.Some? && SkipWhite(r.value.1) == [] then Some(r.value.0) else None
  }

  // ---------------------------------------------------------------- values that print

  predicate KeysDiffer(fields: seq<Field>) {
    forall i, j :: 0 <= i < j < |fields| ==> fields[i].key != fields[j].key
  }

  predicate WellFormed(v: Json)
    decreases v
  {
    match v
    case Num(literal) => IsNumber(literal)
    case Arr(items) => forall i :: 0 <= i < |items| ==> WellFormed(items[i])
    case Obj(fields) => KeysDiffer(fields) && forall i :: 0 <= i < |fields| ==> WellFormed(fields[i].value)
    case _ => true
  }

  /** What may follow a value: no numeral, which would run on. */
  predicate Ends(rest: Text) { rest == [] || !IsNumeral(rest[0]) }

  // ---------------------------------------------------------------- strings round trip

  lemma EscapeRoundTrip(u: Unit, rest: Text)
    ensures ParseEscape(UnicodeEscape(u)[1..] + rest) == Some((u, rest))
  {
    var t := UnicodeEscape(u)[1..] + rest;
    HexDigitsOf(u);
    var a, b, c, d := u / 0x1000, u / 0x100 % 16, u / 16 % 16, u % 16;
    assert t[0] == U('u') && t[1..5] == [HexDigit(a), HexDigit(b), HexDigit(c), HexDigit(d)] && t[5..] == rest;
    hide HexDigit, HexValue;
  }

  lemma HexDigitsOf(u: Unit)
    ensures var a, b, c, d := u / 0x1000, u / 0x100 % 16, u / 16 % 16, u % 16;
            ParseHex([HexDigit(a), HexDigit(b), HexDigit(c), HexDigit(d)]) == Some(u)
  {
    var a, b, c, d := u / 0x1000, u / 0x100 % 16, u / 16 % 16, u % 16;
    assert ((a * 16 + b) * 16 + c) * 16 + d == u;
    HexRoundTrip(a);
    HexRoundTrip(b);
    HexRoundTrip(c);
    HexRoundTrip(d);
    hide HexDigit, HexValue;
  }

  lemma HexRoundTrip(n: int)
    requires 0 <= n < 16
    ensures HexValue(HexDigit(n)) == Some(n)
  {}

  /** What parsing a string does once its first unit is read. */
  function Prepended(u: Unit, r: Option<(Text, Text)>): Option<(Text, Text)> {
    if r.None? then None else Some(([u] + r.value.0, r.value.1))
  }

  lemma RawRoundTrip(u: Unit, rest: Text)
    requires u >= 0x20 && u != U('"') && u != U('\\')
    ensures ParseUnits([u] + rest) == Prepended(u, ParseUnits(rest))
  {
    assert ([u] + rest)[1..] == rest;
  }

  lemma EscapedRoundTrip(u: Unit, escape: Text, rest: Text)
    requires ParseEscape(escape + rest) == Some((u, rest))
    ensures ParseUnits([U('\\')] + escape + rest) == Prepended(u, ParseUnits(rest))
  {
    hide ParseEscape;
    assert ([U('\\')] + escape + rest)[1..] == escape + rest;
  }

  lemma UnitRoundTrip(u: Unit, rest: Text)
    ensures ParseUnits(PrintUnit(u) + rest) == Prepended(u, ParseUnits(rest))
  {
    var printed := PrintUnit(u);
    hide ParseUnits;
    if printed == UnicodeEscape(u) {
      EscapeRoundTrip(u, rest);
      assert printed == [U('\\')] + UnicodeEscape(u)[1..];
      hide ParseEscape, UnicodeEscape, PrintUnit;
      EscapedRoundTrip(u, UnicodeEscape(u)[1..], rest);
    } else if |printed| == 2 {
      assert ([printed[1]] + rest)[1..] == rest;
      assert printed == [U('\\')] + [printed[1]];
      EscapedRoundTrip(u, [printed[1]], rest);
    } else {
      RawRoundTrip(u, rest);
    }
  }

  predicate StartsWithPair(text: Text) { |text| > 1 && IsHigh(text[0]) && IsLow(text[1]) }

  lemma PrintedPair(text: Text, close: Text)
    requires StartsWithPair(text)
    ensures PrintUnits(text) + close == [text[0]] + ([text[1]] + (PrintUnits(text[2..]) + close))
  {
    assert text[..2] == [text[0]] + [text[1]];
  }

  lemma PrintedSingle(text: Text, close: Text)
    requires text != [] && !StartsWithPair(text)
    ensures PrintUnits(text) + close == PrintUnit(text[0]) + (PrintUnits(text[1..]) + close)
  {}

  lemma {:induction false} UnitsRoundTrip(text: Text, rest: Text)
    ensures ParseUnits(PrintUnits(text) + ([U('"')] + rest)) == Some((text, rest))
    decreases |text|
  {
    var close := [U('"')] + rest;
    if text == [] {
      assert PrintUnits(text) + close == close && close[1..] == rest;
    } else {
      hide ParseUnits, PrintUnit, PrintUnits;
      if StartsWithPair(text) {
        var tail := PrintUnits(text[2..]) + close;
        UnitsRoundTrip(text[2..], rest);
        PrintedPair(text, close);
        RawRoundTrip(text[1], tail);
        RawRoundTrip(text[0], [text[1]] + tail);
        assert text == [text[0]] + ([text[1]] + text[2..]);
      } else {
        UnitsRoundTrip(text[1..], rest);
        PrintedSingle(text, close);
        UnitRoundTrip(text[0], PrintUnits(text[1..]) + close);
        assert text == [text[0]] + text[1..];
      }
    }
  }

  // ---------------------------------------------------------------- numbers round trip

  lemma {:induction false} NumeralIsTaken(literal: Text, rest: Text)
    requires (forall k :: 0 <= k < |literal| ==> IsNumeral(literal[k])) && Ends(rest)
    ensures TakeNumeral(literal + rest) == literal
  {
    if literal == [] {
      assert literal + rest == rest;
    } else {
      NumeralIsTaken(literal[1..], rest);
      assert (literal + rest)[1..] == literal[1..] + rest;
    }
  }

  lemma NumberRoundTrip(literal: Text, rest: Text)
    requires IsNumber(literal) && Ends(rest)
    ensures ParseValue(literal + rest) == Some((Num(literal), rest))
  {
    NumeralIsTaken(literal, rest);
    var t := literal + rest;
    assert t[0] == literal[0] && t[|literal|..] == rest;
    assert literal[0] == U('-') || IsDigit(literal[0]);
    hide IsNumber, TakeNumeral;
    assert ParseNumber(t) == Some((Num(literal), rest));
    hide ParseNumber;
  }

  // ---------------------------------------------------------------- values round trip

  /** A printed value starts with what no white space, bracket or separator starts with. */
  lemma PrintStarts(v: Json, rest: Text)
    requires WellFormed(v)
    ensures Print(v) != [] && (Print(v) + rest)[0] == Print(v)[0]
    ensures !IsWhite(Print(v)[0]) && Print(v)[0] !in {U(']'), U('}'), U(','), U(':')}
  {
    hide PrintItems, PrintFields, PrintUnits;
  }

  lemma NothingToSkip(t: Text)
    requires t != [] && !IsWhite(t[0])
    ensures SkipWhite(t) == t
  {}

  lemma WordRoundTrip(v: Json, rest: Text)
    requires v.Null? || v.Bool?
    ensures ParseValue(Print(v) + rest) == Some((v, rest))
  {
    var word, t := Print(v), Print(v) + rest;
    assert t[..|word|] == word && t[|word|..] == rest;
    assert StartsWith(t, word) && t[0] == word[0];
    hide ParseItems, ParseFields, ParseUnits, ParseNumber;
  }

  lemma StringRoundTrip(text: Text, rest: Text)
    ensures ParseValue(Quote(text) + rest) == Some((Str(text), rest))
  {
    UnitsRoundTrip(text, rest);
    var t := Quote(text) + rest;
    assert t[0] == U('"') && t[1..] == PrintUnits(text) + ([U('"')] + rest);
    hide ParseUnits, ParseItems, ParseFields, ParseNumber, PrintUnits;
  }

  /** Reading an array whose text between the brackets reads as `items`. */
  lemma ArrayOpens(items: seq<Json>, inside: Text, rest: Text)
    requires inside != [] && !IsWhite(inside[0]) && inside[0] != U(']') && ParseItems(inside) == Some((items, rest))
    ensures ParseValue([U('[')] + inside) == Some((Arr(items), rest))
  {
    var t := [U('[')] + inside;
    assert t[1..] == inside;
    NothingToSkip(inside);
    hide ParseItems, ParseFields, ParseUnits, ParseNumber;
  }

  lemma ObjectOpens(fields: seq<Field>, inside: Text, rest: Text)
    requires inside != [] && !IsWhite(inside[0]) && inside[0] != U('}') && ParseFields([], inside) == Some((fields, rest))
    ensures ParseValue([U('{')] + inside) == Some((Obj(fields), rest))
  {
    var t := [U('{')] + inside;
    assert t[1..] == inside;
    NothingToSkip(inside);
    hide ParseItems, ParseFields, ParseUnits, ParseNumber;
  }

  lemma EmptiesRoundTrip(v: Json, rest: Text)
    requires v == Arr([]) || v == Obj([])
    ensures ParseValue(Print(v) + rest) == Some((v, rest))
  {
    var t := Print(v) + rest;
    assert t[1..] == [Print(v)[1]] + rest && ([Print(v)[1]] + rest)[1..] == rest;
    NothingToSkip(t[1..]);
    hide ParseItems, ParseFields, ParseUnits, ParseNumber;
  }

  lemma ArrayRoundTrip(items: seq<Json>, rest: Text)
    requires items != [] && forall i :: 0 <= i < |items| ==> WellFormed(items[i])
    requires ParseItems(PrintItems(items) + ([U(']')] + rest)) == Some((items, rest))
    ensures ParseValue(Print(Arr(items)) + rest) == Some((Arr(items), rest))
  {
    hide ParseValue, ParseItems, PrintItems;
    var inside := PrintItems(items) + ([U(']')] + rest);
    ItemsStart(items, [U(']')] + rest);
    ArrayOpens(items, inside, rest);
    assert Print(Arr(items)) + rest == [U('[')] + inside;
  }

  lemma ObjectRoundTrip(fields: seq<Field>, rest: Text)
    requires fields != [] && ParseFields([], PrintFields(fields) + ([U('}')] + rest)) == Some((fields, rest))
    ensures ParseValue(Print(Obj(fields)) + rest) == Some((Obj(fields), rest))
  {
    hide ParseValue, ParseFields, PrintFields;
    var inside := PrintFields(fields) + ([U('}')] + rest);
    FieldsStart(fields, [U('}')] + rest);
    ObjectOpens(fields, inside, rest);
    assert Print(Obj(fields)) + rest == [U('{')] + inside;
  }

  lemma {:induction false} ValueRoundTrip(v: Json, rest: Text)
    requires WellFormed(v) && Ends(rest)
    ensures ParseValue(Print(v) + rest) == Some((v, rest))
    decreases v
  {
    hide ParseValue, ParseItems, ParseFields;
    match v
    case Null => WordRoundTrip(v, rest);
    case Bool(_) => WordRoundTrip(v, rest);
    case Num(literal) => NumberRoundTrip(literal, rest);
    case Str(text) => StringRoundTrip(text, rest);
    case Arr(items) =>
      if items == [] {
        EmptiesRoundTrip(v, rest);
      } else {
        ItemsRoundTrip(items, rest);
        ArrayRoundTrip(items, rest);
      }
    case Obj(fields) =>
      if fields == [] {
        EmptiesRoundTrip(v, rest);
      } else {
        assert [] + fields == fields;
        FieldsRoundTrip([], fields, rest);
        ObjectRoundTrip(fields, rest);
      }
  }

  lemma ItemsStart(items: seq<Json>, rest: Text)
    requires items != [] && forall i :: 0 <= i < |items| ==> WellFormed(items[i])
    ensures Print(items[0]) != [] && PrintItems(items) != [] && (PrintItems(items) + rest)[0] == Print(items[0])[0]
    ensures !IsWhite(Print(items[0])[0]) && Print(items[0])[0] != U(']')
  {
    PrintStarts(items[0], []);
    hide Print;
  }

  lemma FieldsStart(fields: seq<Field>, rest: Text)
    requires fields != []
    ensures PrintFields(fields) != [] && (PrintFields(fields) + rest)[0] == U('"')
  {
    hide Print;
    assert PrintField(fields[0])[0] == U('"');
  }

  /** One item and what its separator leads to. */
  lemma ItemsStep(item: Json, t: Text, after: Text)
    requires ParseValue(t) == Some((item, after)) && after != []
    ensures after[0] == U(']') ==> ParseItems(t) == Some(([item], after[1..]))
    ensures var more := ParseItems(after[1..]);
            after[0] == U(',') && more.Some? ==> ParseItems(t) == Some(([item] + more.value.0, more.value.1))
  {
    hide ParseValue;
    if after[0] == U(']') || after[0] == U(',') {
      NothingToSkip(after);
    }
  }

  lemma {:induction false} ItemsRoundTrip(items: seq<Json>, rest: Text)
    requires items != [] && forall i :: 0 <= i < |items| ==> WellFormed(items[i])
    ensures ParseItems(PrintItems(items) + ([U(']')] + rest)) == Some((items, rest))
    decreases items
  {
    hide ParseValue, ParseItems, Print;
    var close := [U(']')] + rest;
    if |items| == 1 {
      ValueRoundTrip(items[0], close);
      ItemsStep(items[0], PrintItems(items) + close, close);
      assert items == [items[0]];
    } else {
      var after := [U(',')] + (PrintItems(items[1..]) + close);
      ValueRoundTrip(items[0], after);
      ItemsRoundTrip(items[1..], rest);
      assert PrintItems(items) + close == Print(items[0]) + after;
      assert after[1..] == PrintItems(items[1..]) + close;
      ItemsStep(items[0], Print(items[0]) + after, after);
      assert items == [items[0]] + items[1..];
    }
  }

  lemma {:induction false} NewKeyIsAppended(fields: seq<Field>, key: Text, value: Json)
    requires forall i :: 0 <= i < |fields| ==> fields[i].key != key
    ensures PutField(fields, key, value) == fields + [Field(key, value)]
  {
    if fields != [] {
      NewKeyIsAppended(fields[1..], key, value);
    }
  }

  /** One member and what its separator leads to. */
  lemma FieldsStep(sofar: seq<Field>, field: Field, t: Text, body: Text, after: Text)
    requires t == Quote(field.key) + ([U(':')] + body) && ParseValue(body) == Some((field.value, after)) && after != []
    requires forall i :: 0 <= i < |sofar| ==> sofar[i].key != field.key
    ensures after[0] == U('}') ==> ParseFields(sofar, t) == Some((sofar + [field], after[1..]))
    ensures after[0] == U(',') ==> ParseFields(sofar, t) == ParseFields(sofar + [field], after[1..])
  {
    var colon := [U(':')] + body;
    assert t[0] == U('"') && t[1..] == PrintUnits(field.key) + ([U('"')] + colon);
    UnitsRoundTrip(field.key, colon);
    NothingToSkip(t);
    NothingToSkip(colon);
    assert colon[1..] == body;
    NewKeyIsAppended(sofar, field.key, field.value);
    hide ParseValue, ParseUnits, PrintUnits, PutField;
    if after[0] == U('}') || after[0] == U(',') {
      NothingToSkip(after);
    }
  }

  lemma {:induction false} FieldsRoundTrip(sofar: seq<Field>, fields: seq<Field>, rest: Text)
    requires fields != [] && KeysDiffer(sofar + fields)
    requires forall i :: 0 <= i < |fields| ==> WellFormed(fields[i].value)
    ensures ParseFields(sofar, PrintFields(fields) + ([U('}')] + rest)) == Some((sofar + fields, rest))
    decreases fields
  {
    hide ParseValue, ParseFields, Print, Quote;
    var close, field := [U('}')] + rest, fields[0];
    forall i | 0 <= i < |sofar|
      ensures sofar[i].key != field.key
    {
      assert (sofar + fields)[i].key != (sofar + fields)[|sofar|].key;
    }
    if |fields| == 1 {
      var body := Print(field.value) + close;
      ValueRoundTrip(field.value, close);
      assert PrintFields(fields) + close == Quote(field.key) + ([U(':')] + body);
      FieldsStep(sofar, field, PrintFields(fields) + close, body, close);
      assert fields == [field];
    } else {
      var after := [U(',')] + (PrintFields(fields[1..]) + close);
      var body := Print(field.value) + after;
      ValueRoundTrip(field.value, after);
      assert sofar + fields == (sofar + [field]) + fields[1..];
      FieldsRoundTrip(sofar + [field], fields[1..], rest);
      assert PrintFields(fields) + close == Quote(field.key) + ([U(':')] + body);
      assert after[1..] == PrintFields(fields[1..]) + close;
      FieldsStep(sofar, field, PrintFields(fields) + close, body, after);
    }
  }

  /** Round trip: parsing a printed value gives the value back. */
  lemma PrintRoundTrip(v: Json)
    requires WellFormed(v)
    ensures Parse(Print(v)) == Some(v)
  {
    ValueRoundTrip(v, []);
    assert Print(v) + [] == Print(v);
  }

  /** Two values that print alike are the same value. */
  lemma PrintIsInjective(v: Json, w: Json)
    requires WellFormed(v) && WellFormed(w) && Print(v) == Print(w)
    ensures v == w
  {
    PrintRoundTrip(v);
    PrintRoundTrip(w);
  }
}
