/**
 Synchronization cursors: a JSON object in unpadded base64url (section 5 of RFC 4648) behind a prefix.
 */
module SyncCursor {
  import opened Options
  import opened Json

  type Byte = b: int | 0 <= b < 0x100

  type Sextet = s: int | 0 <= s < 64

  datatype Decoded = Decoded(hostId: Text, epoch: Text, sequence: nat)

  const PREFIX: Text := [U('s'), U('y'), U('n'), U('c'), U('_')]
  const HOST_ID: Text := [U('h'), U('o'), U('s'), U('t'), U('I'), U('d')]
  const EPOCH: Text := [U('e'), U('p'), U('o'), U('c'), U('h')]
  const SEQUENCE: Text := [U('s'), U('e'), U('q'), U('u'), U('e'), U('n'), U('c'), U('e')]

  // ---------------------------------------------------------------- base64url

  function ToSextets(bytes: seq<Byte>): seq<Sextet> {
    if bytes == [] then []
    else if |bytes| == 1 then [bytes[0] / 4, bytes[0] % 4 * 16]
    else if |bytes| == 2 then [bytes[0] / 4, bytes[0] % 4 * 16 + bytes[1] / 16, bytes[1] % 16 * 4]
    else
      [bytes[0] / 4, bytes[0] % 4 * 16 + bytes[1] / 16, bytes[1] % 16 * 4 + bytes[2] / 64, bytes[2] % 64]
      + ToSextets(bytes[3..])
  }

  /** Bits left over after the last whole byte are dropped. */
  function FromSextets(s: seq<Sextet>): seq<Byte> {
    if |s| < 2 then []
    else if |s| == 2 then [FirstByte(s[0], s[1])]
    else if |s| == 3 then [FirstByte(s[0], s[1]), SecondByte(s[1], s[2])]
    else [FirstByte(s[0], s[1]), SecondByte(s[1], s[2]), ThirdByte(s[2], s[3])] + FromSextets(s[4..])
  }

  function FirstByte(a: Sextet, b: Sextet): Byte { a as int * 4 + b as int / 16 }

  function SecondByte(a: Sextet, b: Sextet): Byte { a as int % 16 * 16 + b as int / 4 }

  function ThirdByte(a: Sextet, b: Sextet): Byte { a as int % 4 * 64 + b as int }

  function Letter(s: Sextet): Unit {
    if s < 26 then U('A') + s
    else if s < 52 then U('a') + s - 26
    else if s < 62 then U('0') + s - 52
    else if s == 62 then U('-')
    else U('_')
  }

  /** Either alphabet is read: the decoder turns the URL letters into the others first. */
  function LetterValue(u: Unit): Option<Sextet> {
    if U('A') <= u <= U('Z') then Some(u - U('A'))
    else if U('a') <= u <= U('z') then Some(u - U('a') + 26)
    else if U('0') <= u <= U('9') then Some(u - U('0') + 52)
    else if u == U('-') || u == U('+') then Some(62)
    else if u == U('_') || u == U('/') then Some(63)
    else None
  }

  function Letters(s: seq<Sextet>): Text { seq(|s|, i requires 0 <= i < |s| => Letter(s[i])) }

  /** btoa, in the URL alphabet and without padding. */
  function EncodeBase64Url(bytes: seq<Byte>): Text { Letters(ToSextets(bytes)) }

  predicate IsBlank(u: Unit) { u in {9, 10, 12, 13, 32} }

  function DropBlanks(t: Text): Text {
    if t == [] then [] else (if IsBlank(t[0]) then [] else [t[0]]) + DropBlanks(t[1..])
  }

  /** One or two padding signs are allowed where they complete a group of four. */
  function DropPadding(t: Text): Text {
    if t == [] || |t| % 4 != 0 || t[|t| - 1] != U('=') then t
    else if t[|t| - 2] == U('=') then t[..|t| - 2]
    else t[..|t| - 1]
  }

  function Values(t: Text): Option<seq<Sextet>> {
    if t == [] then Some([])
    else
      var rest := Values(t[1..]);
      if LetterValue(t[0]).None? || rest.None? then None else Some([LetterValue(t[0]).value] + rest.value)
  }

  /** atob. */
  function DecodeBase64(t: Text): Option<seq<Byte>> {
    var data := DropPadding(DropBlanks(t));
    if |data| % 4 == 1 || Values(data).None? then None else Some(FromSextets(Values(data).value))
  }

  lemma GroupRoundTrip(a: Byte, b: Byte, c: Byte)
    ensures a / 4 * 4 + (a % 4 * 16 + b / 16) / 16 == a
    ensures (a % 4 * 16 + b / 16) % 16 * 16 + (b % 16 * 4 + c / 64) / 4 == b
    ensures (b % 16 * 4 + c / 64) % 4 * 64 + c % 64 == c
  {}

  lemma {:induction false} SextetsRoundTrip(bytes: seq<Byte>)
    ensures FromSextets(ToSextets(bytes)) == bytes && |ToSextets(bytes)| % 4 != 1
  {
    if |bytes| == 1 {
      GroupRoundTrip(bytes[0], 0, 0);
    } else if |bytes| == 2 {
      GroupRoundTrip(bytes[0], bytes[1], 0);
    } else if |bytes| > 2 {
      SextetsRoundTrip(bytes[3..]);
      GroupSextets(bytes);
      hide ToSextets;
    }
  }

  /** The first three bytes are the first four sextets. */
  lemma GroupSextets(bytes: seq<Byte>)
    requires |bytes| > 2
    ensures var s := ToSextets(bytes);
            && |s| >= 4 && s[4..] == ToSextets(bytes[3..])
            && FirstByte(s[0], s[1]) == bytes[0] && SecondByte(s[1], s[2]) == bytes[1] && ThirdByte(s[2], s[3]) == bytes[2]
  {
    GroupRoundTrip(bytes[0], bytes[1], bytes[2]);
  }

  lemma LetterRoundTrip(s: Sextet)
    ensures LetterValue(Letter(s)) == Some(s) && !IsBlank(Letter(s)) && Letter(s) != U('=')
  {}

  lemma {:induction false} LettersRoundTrip(s: seq<Sextet>)
    ensures DropBlanks(Letters(s)) == Letters(s) && Values(Letters(s)) == Some(s)
  {
    if s != [] {
      LetterRoundTrip(s[0]);
      LettersRoundTrip(s[1..]);
      assert Letters(s)[1..] == Letters(s[1..]);
      assert Letters(s) == [Letter(s[0])] + Letters(s[1..]) && s == [s[0]] + s[1..];
    }
  }

  lemma Base64RoundTrip(bytes: seq<Byte>)
    ensures DecodeBase64(EncodeBase64Url(bytes)) == Some(bytes)
  {
    hide ToSextets, FromSextets, DropBlanks, Values, Letter, LetterValue;
    var s := ToSextets(bytes);
    SextetsRoundTrip(bytes);
    LettersRoundTrip(s);
    if s != [] {
      LetterRoundTrip(s[|s| - 1]);
    }
  }

  /** Three bytes and their four sextets are one number. */
  lemma GroupIsOneNumber(a: Byte, b: Byte, c: Byte)
    ensures |ToSextets([a, b, c])| == 4
    ensures var s := ToSextets([a, b, c]);
            s[0] as int * 262144 + s[1] as int * 4096 + s[2] as int * 64 + s[3] as int == a as int * 65536 + b as int * 256 + c as int
  {
    assert [a, b, c][3..] == [];
  }

  /** Test vectors of section 10 of RFC 4648, and one with the two letters of the URL alphabet. */
  lemma Vectors()
    ensures EncodeBase64Url([]) == []
    ensures EncodeBase64Url([102]) == [U('Z'), U('g')]
    ensures EncodeBase64Url([102, 111]) == [U('Z'), U('m'), U('8')]
    ensures EncodeBase64Url([102, 111, 111]) == [U('Z'), U('m'), U('9'), U('v')]
    ensures EncodeBase64Url([251, 255]) == [U('-'), U('_'), U('8')]
  {
    assert [102, 111, 111][3..] == [];
  }

  // ---------------------------------------------------------------- cursors

  /** What a number literal denotes if it is a safe integer; the reading of doubles is a parameter. */
  type NumberReader = Text -> Option<int>

  const LIMIT: int := 0x20_0000_0000_0000

  /** Decimal literals of safe integers denote themselves. */
  ghost predicate ReadsDecimals(number: NumberReader) {
    forall n: nat :: n < LIMIT ==> number(Decimal(n)) == Some(n)
  }

  predicate IsLatin1(t: Text) { forall i :: 0 <= i < |t| ==> t[i] < 0x100 }

  function CursorValue(hostId: Text, epoch: Text, sequence: nat): Json {
    Obj([Field(HOST_ID, Str(hostId)), Field(EPOCH, Str(epoch)), Field(SEQUENCE, Num(Decimal(sequence)))])
  }

  /** encodeCursor; btoa throws on a unit beyond Latin-1. */
  function EncodeCursor(hostId: Text, epoch: Text, sequence: nat): Option<Text> {
    var json := Print(CursorValue(hostId, epoch, sequence));
    if !IsLatin1(json) then None
    else Some(PREFIX + EncodeBase64Url(seq(|json|, i requires 0 <= i < |json| => json[i] as Byte)))
  }

  function Get(fields: seq<Field>, key: Text): Option<Json> {
    if fields == [] then None
    else if fields[|fields| - 1].key == key then Some(fields[|fields| - 1].value)
    else Get(fields[..|fields| - 1], key)
  }

  function DecodeRecord(v: Json, number: NumberReader): Option<Decoded> {
    if !v.Obj? then None
    else
      var hostId, epoch, sequence := Get(v.fields, HOST_ID), Get(v.fields, EPOCH), Get(v.fields, SEQUENCE);
      if hostId.None? || !hostId.value.Str? || epoch.None? || !epoch.value.Str? || sequence.None? || !sequence.value.Num?
      then None
      else
        var n := number(sequence.value.literal);
        if n.None? || n.value < 1 then None
        else Some(Decoded(hostId.value.text, epoch.value.text, n.value))
  }

  function DecodeCursor(cursor: Text, number: NumberReader): Option<Decoded> {
    if !StartsWith(cursor, PREFIX) then None
    else
      var bytes := DecodeBase64(cursor[|PREFIX|..]);
      if bytes.None? then None
      else
        var value := Parse(seq(|bytes.value|, i requires 0 <= i < |bytes.value| => bytes.value[i] as Unit));
        if value.None? then None else DecodeRecord(value.value, number)
  }

  predicate CursorPrecedes(candidate: Text, basis: Text, number: NumberReader) {
    var left, right := DecodeCursor(candidate, number), DecodeCursor(basis, number);
    && left.Some? && right.Some?
    && left.value.epoch == right.value.epoch && left.value.hostId == right.value.hostId
    && left.value.sequence < right.value.sequence
  }

  // ---------------------------------------------------------------- which identities can be encoded

  /** Every unit is Latin-1 or an unpaired surrogate, which JSON escapes. */
  predicate Encodable(text: Text) {
    if text == [] then true
    else if StartsWithPair(text) then false
    else (text[0] < 0x100 || IsHigh(text[0]) || IsLow(text[0])) && Encodable(text[1..])
  }

  lemma Latin1Appends(a: Text, b: Text)
    ensures IsLatin1(a + b) <==> IsLatin1(a) && IsLatin1(b)
  {
    if IsLatin1(a + b) {
      forall i | 0 <= i < |a|
        ensures a[i] < 0x100
      {
        assert (a + b)[i] == a[i];
      }
      forall i | 0 <= i < |b|
        ensures b[i] < 0x100
      {
        assert (a + b)[|a| + i] == b[i];
      }
    }
  }

  lemma {:induction false} PrintedIsLatin1(text: Text)
    ensures IsLatin1(PrintUnits(text)) <==> Encodable(text)
    decreases |text|
  {
    if text != [] {
      if StartsWithPair(text) {
        Latin1Appends(text[..2], PrintUnits(text[2..]));
        assert text[..2][0] == text[0];
      } else {
        PrintedIsLatin1(text[1..]);
        Latin1Appends(PrintUnit(text[0]), PrintUnits(text[1..]));
        PrintedUnitIsLatin1(text[0]);
        hide PrintUnit;
      }
    }
  }

  lemma PrintedUnitIsLatin1(u: Unit)
    ensures IsLatin1(PrintUnit(u)) <==> u < 0x100 || IsHigh(u) || IsLow(u)
  {
    var printed := PrintUnit(u);
    if |printed| == 1 {
      assert printed[0] == u;
    }
  }

  lemma {:induction false} Latin1IsEncodable(text: Text)
    requires IsLatin1(text)
    ensures Encodable(text)
  {
    if text != [] {
      Latin1IsEncodable(text[1..]);
    }
  }

  // ---------------------------------------------------------------- round trip and order

  lemma ThreeFieldsPrint(a: Field, b: Field, c: Field)
    ensures Print(Obj([a, b, c]))
         == [U('{')] + (PrintField(a) + [U(',')] + (PrintField(b) + [U(',')] + PrintField(c))) + [U('}')]
  {
    hide PrintField;
    assert [a, b, c][1..] == [b, c] && [b, c][1..] == [c];
    assert PrintFields([c]) == PrintField(c);
    assert PrintFields([b, c]) == PrintField(b) + [U(',')] + PrintFields([c]);
    assert PrintFields([a, b, c]) == PrintField(a) + [U(',')] + PrintFields([b, c]);
  }

  lemma JoinedIsLatin1(x: Text, y: Text)
    ensures IsLatin1(x + [U(',')] + y) <==> IsLatin1(x) && IsLatin1(y)
  {
    Latin1Appends(x + [U(',')], y);
    Latin1Appends(x, [U(',')]);
  }

  lemma BracedIsLatin1(x: Text)
    ensures IsLatin1([U('{')] + x + [U('}')]) <==> IsLatin1(x)
  {
    Latin1Appends([U('{')] + x, [U('}')]);
    Latin1Appends([U('{')], x);
  }

  lemma CursorJsonIsLatin1(hostId: Text, epoch: Text, sequence: nat)
    ensures IsLatin1(Print(CursorValue(hostId, epoch, sequence))) <==> Encodable(hostId) && Encodable(epoch)
  {
    hide PrintField, PrintFields, Quote, Encodable, Decimal, IsLatin1;
    var a, b, c := Field(HOST_ID, Str(hostId)), Field(EPOCH, Str(epoch)), Field(SEQUENCE, Num(Decimal(sequence)));
    KeysAreLatin1();
    DecimalIsLatin1(sequence);
    FieldIsLatin1(HOST_ID, Str(hostId));
    FieldIsLatin1(EPOCH, Str(epoch));
    FieldIsLatin1(SEQUENCE, Num(Decimal(sequence)));
    QuotedIsLatin1(hostId);
    QuotedIsLatin1(epoch);
    assert IsLatin1(PrintField(a)) <==> Encodable(hostId);
    assert IsLatin1(PrintField(b)) <==> Encodable(epoch);
    assert IsLatin1(PrintField(c));
    ThreeFieldsPrint(a, b, c);
    hide Print;
    var bc := PrintField(b) + [U(',')] + PrintField(c);
    JoinedIsLatin1(PrintField(b), PrintField(c));
    JoinedIsLatin1(PrintField(a), bc);
    BracedIsLatin1(PrintField(a) + [U(',')] + bc);
  }

  lemma KeysAreLatin1()
    ensures IsLatin1(HOST_ID) && IsLatin1(EPOCH) && IsLatin1(SEQUENCE)
  {}

  lemma DecimalIsLatin1(n: nat)
    ensures IsLatin1(Decimal(n))
  {
    DecimalDigits(n);
  }

  lemma QuotedIsLatin1(text: Text)
    ensures IsLatin1(Quote(text)) <==> Encodable(text)
  {
    PrintedIsLatin1(text);
    Latin1Appends([U('"')] + PrintUnits(text), [U('"')]);
    Latin1Appends([U('"')], PrintUnits(text));
    hide PrintUnits, Encodable;
  }

  lemma FieldIsLatin1(key: Text, value: Json)
    requires IsLatin1(key)
    ensures IsLatin1(PrintField(Field(key, value))) <==> IsLatin1(Print(value))
  {
    Latin1IsEncodable(key);
    QuotedIsLatin1(key);
    Latin1Appends(Quote(key) + [U(':')], Print(value));
    Latin1Appends(Quote(key), [U(':')]);
    hide Quote, Print, Encodable;
  }

  /** A cursor can be made exactly of identities whose units are Latin-1 or unpaired surrogates. */
  lemma EncodesExactlyLatin1(hostId: Text, epoch: Text, sequence: nat)
    ensures EncodeCursor(hostId, epoch, sequence).Some? <==> Encodable(hostId) && Encodable(epoch)
    ensures IsLatin1(hostId) && IsLatin1(epoch) ==> EncodeCursor(hostId, epoch, sequence).Some?
  {
    CursorJsonIsLatin1(hostId, epoch, sequence);
    if IsLatin1(hostId) && IsLatin1(epoch) {
      Latin1IsEncodable(hostId);
      Latin1IsEncodable(epoch);
    }
  }

  lemma CursorRecord(hostId: Text, epoch: Text, sequence: nat, number: NumberReader)
    requires ReadsDecimals(number) && sequence < LIMIT
    ensures DecodeRecord(CursorValue(hostId, epoch, sequence), number)
         == if sequence >= 1 then Some(Decoded(hostId, epoch, sequence)) else None
  {
    var a, b, c := Field(HOST_ID, Str(hostId)), Field(EPOCH, Str(epoch)), Field(SEQUENCE, Num(Decimal(sequence)));
    assert [a, b, c][..2] == [a, b] && [a, b][..1] == [a];
    assert Get([a, b, c], SEQUENCE) == Some(c.value);
    assert Get([a, b, c], EPOCH) == Get([a, b], EPOCH) == Some(b.value);
    assert Get([a, b, c], HOST_ID) == Get([a, b], HOST_ID) == Get([a], HOST_ID) == Some(a.value);
  }

  /** Round trip: decoding an encoded cursor gives back its host, epoch and sequence. */
  lemma CursorRoundTrip(hostId: Text, epoch: Text, sequence: nat, number: NumberReader)
    requires ReadsDecimals(number) && Encodable(hostId) && Encodable(epoch) && sequence < LIMIT
    ensures EncodeCursor(hostId, epoch, sequence).Some?
    ensures DecodeCursor(EncodeCursor(hostId, epoch, sequence).value, number)
         == if sequence >= 1 then Some(Decoded(hostId, epoch, sequence)) else None
  {
    EncodesExactlyLatin1(hostId, epoch, sequence);
    var v := CursorValue(hostId, epoch, sequence);
    var json := Print(v);
    var bytes := seq(|json|, i requires 0 <= i < |json| => json[i] as Byte);
    var cursor := EncodeCursor(hostId, epoch, sequence).value;
    assert cursor == PREFIX + EncodeBase64Url(bytes);
    assert cursor[..|PREFIX|] == PREFIX && cursor[|PREFIX|..] == EncodeBase64Url(bytes);
    Base64RoundTrip(bytes);
    hide Print, Parse, EncodeBase64Url, DecodeBase64;
    assert seq(|bytes|, i requires 0 <= i < |bytes| => bytes[i] as Unit) == json;
    DecimalIsNumber(sequence);
    hide IsNumber, Decimal;
    PrintRoundTrip(v);
    CursorRecord(hostId, epoch, sequence, number);
    hide DecodeRecord;
  }

  /** Distinct positions have distinct cursors. */
  lemma CursorsAreDistinct(a: Decoded, b: Decoded, number: NumberReader)
    requires ReadsDecimals(number) && Encodable(a.hostId) && Encodable(a.epoch) && Encodable(b.hostId) && Encodable(b.epoch)
    requires 1 <= a.sequence < LIMIT && 1 <= b.sequence < LIMIT
    requires EncodeCursor(a.hostId, a.epoch, a.sequence) == EncodeCursor(b.hostId, b.epoch, b.sequence)
    ensures a == b
  {
    CursorRoundTrip(a.hostId, a.epoch, a.sequence, number);
    CursorRoundTrip(b.hostId, b.epoch, b.sequence, number);
  }

  /** On all strings, valid cursors or not, precedence is a strict partial order. */
  lemma PrecedenceIsStrictPartialOrder(a: Text, b: Text, c: Text, number: NumberReader)
    ensures !CursorPrecedes(a, a, number)
    ensures CursorPrecedes(a, b, number) && CursorPrecedes(b, c, number) ==> CursorPrecedes(a, c, number)
    ensures CursorPrecedes(a, b, number) ==> !CursorPrecedes(b, a, number)
  {
    hide DecodeCursor;
  }

  /** Between issued cursors precedence is the order of sequences, within one host and epoch only. */
  lemma PrecedenceIsSequenceOrder(a: Decoded, b: Decoded, number: NumberReader)
    requires ReadsDecimals(number) && Encodable(a.hostId) && Encodable(a.epoch) && Encodable(b.hostId) && Encodable(b.epoch)
    requires 1 <= a.sequence < LIMIT && 1 <= b.sequence < LIMIT
    ensures EncodeCursor(a.hostId, a.epoch, a.sequence).Some? && EncodeCursor(b.hostId, b.epoch, b.sequence).Some?
    ensures CursorPrecedes(EncodeCursor(a.hostId, a.epoch, a.sequence).value,
                           EncodeCursor(b.hostId, b.epoch, b.sequence).value, number)
            <==> a.hostId == b.hostId && a.epoch == b.epoch && a.sequence < b.sequence
  {
    CursorRoundTrip(a.hostId, a.epoch, a.sequence, number);
    CursorRoundTrip(b.hostId, b.epoch, b.sequence, number);
    hide DecodeCursor, EncodeCursor;
  }
}
