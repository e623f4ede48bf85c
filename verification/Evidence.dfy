/** The evidence envelope of a file-channel message: JSON text whose strings hold the source
    id, the direction, the time and the original input byte for byte. */
module Evidence {
  import opened Wrappers

  type Byte = b: int | 0 <= b < 256
  type Bytes = seq<Byte>

  const QUOTE: Byte := 34
  const BACKSLASH: Byte := 92
  const LETTER_U: Byte := 117
  const ZERO: Byte := 48

  /** The short escapes of section 7 of RFC 8259 for control characters. */
  function ShortEscape(b: Byte): Option<Byte> {
    match b
    case 8 => Some(98)
    case 9 => Some(116)
    case 10 => Some(110)
    case 12 => Some(102)
    case 13 => Some(114)
    case 34 => Some(34)
    case 92 => Some(92)
    case _ => None
  }

  function HexDigit(n: int): Byte
    requires 0 <= n < 16
  {
    if n < 10 then 48 + n else 87 + n
  }

  function Escape(b: Byte): Bytes {
    if ShortEscape(b).Some? then [BACKSLASH, ShortEscape(b).value]
    else if b < 32 then [BACKSLASH, LETTER_U, ZERO, ZERO, HexDigit(b / 16), HexDigit(b % 16)]
    else [b]
  }

  function EscapeAll(s: Bytes): (r: Bytes)
    ensures |s| <= |r| <= 6 * |s|
  {
    if s == [] then [] else Escape(s[0]) + EscapeAll(s[1..])
  }

  function Quoted(s: Bytes): Bytes { [QUOTE] + EscapeAll(s) + [QUOTE] }

  datatype Stored = Stored(sourceId: Bytes, direction: Bytes, timestamp: Bytes, content: Bytes)

  function Ascii(s: string): Bytes
    requires forall i :: 0 <= i < |s| ==> s[i] as int < 128
  {
    seq(|s|, i requires 0 <= i < |s| => s[i] as int)
  }

  /** The fixed text between the four strings. */
  datatype Layout = Layout(sourceKey: Bytes, directionKey: Bytes, timestampKey: Bytes, contentKey: Bytes, end: Bytes)

  const LAYOUT := Layout(Ascii("{\"source_id\":"), Ascii(",\"direction\":"),
                         Ascii(",\"timestamp_rfc3339\":"), Ascii(",\"content_json\":"), Ascii("}"))

  function Encode(k: Layout, s: Stored): Bytes {
    k.sourceKey + Quoted(s.sourceId) + k.directionKey + Quoted(s.direction)
    + k.timestampKey + Quoted(s.timestamp) + k.contentKey + Quoted(s.content) + k.end
  }

  const U64_MAX: nat := 0xFFFF_FFFF_FFFF_FFFF
  const MAX_MESSAGE_LIMIT: nat := 100 * 1024 * 1024

  function SaturatingMul(a: nat, b: nat): nat { if a * b > U64_MAX then U64_MAX else a * b }

  function SaturatingAdd(a: nat, b: nat): nat { if a + b > U64_MAX then U64_MAX else a + b }

  /** The limit under which evidence is read back. */
  function ReadLimit(maxMessageBytes: nat): nat {
    SaturatingAdd(SaturatingMul(maxMessageBytes, 6), 4096)
  }

  /** What pull writes for an accepted input: a validated source id, the word inbound, and a
      timestamp of seconds precision. */
  ghost predicate FromPull(s: Stored, maxMessageBytes: nat) {
    |s.sourceId| <= 128 && |s.direction| <= 8 && |s.timestamp| <= 64 && |s.content| <= maxMessageBytes
  }

  /** Evidence of an accepted input is never too large to be read again. */
  lemma EvidenceFits(s: Stored, maxMessageBytes: nat)
    requires FromPull(s, maxMessageBytes) && maxMessageBytes <= MAX_MESSAGE_LIMIT
    ensures |Encode(LAYOUT, s)| <= 6 * maxMessageBytes + 4096 == ReadLimit(maxMessageBytes)
  {
    assert |LAYOUT.sourceKey| == 13 && |LAYOUT.directionKey| == 13 && |LAYOUT.timestampKey| == 21;
    assert |LAYOUT.contentKey| == 16 && |LAYOUT.end| == 1;
  }

  /** The escapes are those of section 7 of RFC 8259: a quote, a backslash and the five
      control characters that have a letter, and four hexadecimal digits for the others. */
  lemma EscapesAre(b: Byte)
    ensures b >= 32 && b != 34 && b != 92 ==> Escape(b) == [b]
    ensures Escape(34) == [92, 34] && Escape(92) == [92, 92]
    ensures Escape(8) == [92, 98] && Escape(9) == [92, 116] && Escape(10) == [92, 110] && Escape(12) == [92, 102] && Escape(13) == [92, 114]
    ensures Escape(11) == [92, 117, 48, 48, 48, 98] && Escape(31) == [92, 117, 48, 48, 49, 102]
    ensures EscapeAll([b]) == Escape(b)
  {
    assert [b][1..] == [];
  }

  // ----- reading it back -----

  predicate At(b: Bytes, i: nat, w: Bytes) {
    i + |w| <= |b| && forall k :: 0 <= k < |w| ==> b[i + k] == w[k]
  }

  function HexValue(b: Byte): Option<int> {
    if 48 <= b <= 57 then Some(b - 48) else if 97 <= b <= 102 then Some(b - 87) else None
  }

  function UnescapeShort(b: Byte): Option<Byte> {
    match b
    case 98 => Some(8)
    case 116 => Some(9)
    case 110 => Some(10)
    case 102 => Some(12)
    case 114 => Some(13)
    case 34 => Some(34)
    case 92 => Some(92)
    case 47 => Some(47)
    case _ => None
  }

  datatype Token = Token(byte: Byte, next: nat)

  /** One character of a string at `i`, escaped or plain; the four-digit form only for code
      points below 128, which is all the encoder writes. */
  function ReadToken(b: Bytes, i: nat): Option<Token> {
    if i >= |b| || b[i] == QUOTE || b[i] < 32 then None
    else if b[i] != BACKSLASH then Some(Token(b[i], i + 1))
    else if i + 1 >= |b| then None
    else if UnescapeShort(b[i + 1]).Some? then Some(Token(UnescapeShort(b[i + 1]).value, i + 2))
    else if b[i + 1] != LETTER_U || i + 5 >= |b| || b[i + 2] != ZERO || b[i + 3] != ZERO then None
    else match (HexValue(b[i + 4]), HexValue(b[i + 5]))
      case (Some(high), Some(low)) => if high < 8 then Some(Token(16 * high + low, i + 6)) else None
      case _ => None
  }

  datatype Text = Text(value: Bytes, next: nat)

  /** The rest of a string from `i` up to its closing quote. */
  function ReadString(b: Bytes, i: nat): Option<Text>
    decreases |b| - i
  {
    if i >= |b| then None
    else if b[i] == QUOTE then Some(Text([], i + 1))
    else match ReadToken(b, i)
      case None => None
      case Some(Token(byte, next)) =>
        match ReadString(b, next)
        case None => None
        case Some(Text(rest, end)) => Some(Text([byte] + rest, end))
  }

  lemma ReadEscaped(b: Bytes, i: nat, byte: Byte)
    requires At(b, i, Escape(byte))
    ensures i < |b| && b[i] != QUOTE && ReadToken(b, i) == Some(Token(byte, i + |Escape(byte)|))
  {
    var e := Escape(byte);
    assert b[i + 0] == e[0] && (|e| > 1 ==> b[i + 1] == e[1]);
    if ShortEscape(byte).None? && byte < 32 {
      assert b[i + 2] == e[2] && b[i + 3] == e[3] && b[i + 4] == e[4] && b[i + 5] == e[5];
      assert HexValue(b[i + 4]) == Some(byte / 16) && HexValue(b[i + 5]) == Some(byte % 16);
    }
  }

  lemma AtSplit(b: Bytes, i: nat, v: Bytes, w: Bytes)
    ensures At(b, i, v + w) <==> At(b, i, v) && At(b, i + |v|, w)
  {
    if At(b, i, v + w) {
      assert forall k :: 0 <= k < |v| ==> v[k] == (v + w)[k];
      assert forall k :: 0 <= k < |w| ==> w[k] == (v + w)[|v| + k];
    }
  }

  lemma ReadStep(b: Bytes, i: nat, token: Token, rest: Text)
    requires i < |b| && b[i] != QUOTE && ReadToken(b, i) == Some(token) && ReadString(b, token.next) == Some(rest)
    ensures ReadString(b, i) == Some(Text([token.byte] + rest.value, rest.next))
  {
  }

  lemma AtFirst(b: Bytes, i: nat, s: Bytes)
    requires s != [] && At(b, i, EscapeAll(s))
    ensures var next := i + |Escape(s[0])|;
            && At(b, i, Escape(s[0])) && At(b, next, EscapeAll(s[1..])) && i + |EscapeAll(s)| == next + |EscapeAll(s[1..])|
  {
    AtSplit(b, i, Escape(s[0]), EscapeAll(s[1..]));
  }

  lemma ReadFirst(b: Bytes, i: nat, s: Bytes) returns (next: nat)
    requires s != [] && At(b, i, EscapeAll(s)) && i + |EscapeAll(s)| < |b|
    ensures i < |b| && b[i] != QUOTE && ReadToken(b, i) == Some(Token(s[0], next))
    ensures At(b, next, EscapeAll(s[1..])) && i + |EscapeAll(s)| == next + |EscapeAll(s[1..])|
  {
    next := i + |Escape(s[0])|;
    AtFirst(b, i, s);
    ReadEscaped(b, i, s[0]);
  }

  lemma {:induction false} ReadAllEscaped(b: Bytes, i: nat, s: Bytes)
    requires At(b, i, EscapeAll(s)) && i + |EscapeAll(s)| < |b| && b[i + |EscapeAll(s)|] == QUOTE
    ensures ReadString(b, i) == Some(Text(s, i + |EscapeAll(s)| + 1))
    decreases |s|
  {
    if s != [] {
      var next := ReadFirst(b, i, s);
      ReadAllEscaped(b, next, s[1..]);
      ReadStep(b, i, Token(s[0], next), Text(s[1..], i + |EscapeAll(s)| + 1));
      assert [s[0]] + s[1..] == s;
    }
  }

  /** A key and the string after it. */
  function ReadField(b: Bytes, i: nat, key: Bytes): Option<Text> {
    if At(b, i, key + [QUOTE]) then ReadString(b, i + |key| + 1) else None
  }

  /** Decode an envelope, with its fields in the order in which they are written. */
  function Decode(k: Layout, b: Bytes): Option<Stored> {
    match ReadField(b, 0, k.sourceKey)
    case None => None
    case Some(sourceId) =>
      match ReadField(b, sourceId.next, k.directionKey)
      case None => None
      case Some(direction) =>
        match ReadField(b, direction.next, k.timestampKey)
        case None => None
        case Some(timestamp) =>
          match ReadField(b, timestamp.next, k.contentKey)
          case None => None
          case Some(content) =>
            if |b| == content.next + |k.end| && At(b, content.next, k.end) then Some(Stored(sourceId.value, direction.value, timestamp.value, content.value))
            else None
  }

  lemma QuotedAt(b: Bytes, i: nat, value: Bytes)
    requires At(b, i, Quoted(value))
    ensures var end := i + 1 + |EscapeAll(value)|;
            end < |b| && b[i] == QUOTE && At(b, i + 1, EscapeAll(value)) && b[end] == QUOTE && i + |Quoted(value)| == end + 1
  {
    var escaped := EscapeAll(value);
    AtSplit(b, i, [QUOTE] + escaped, [QUOTE]);
    AtSplit(b, i, [QUOTE], escaped);
    assert b[i + 0] == [QUOTE][0] && b[i + 1 + |escaped| + 0] == [QUOTE][0];
  }

  lemma AtMore(b: Bytes, i: nat, v: Bytes, byte: Byte)
    requires At(b, i, v) && i + |v| < |b| && b[i + |v|] == byte
    ensures At(b, i, v + [byte])
  {
    AtSplit(b, i, v, [byte]);
  }

  lemma FieldReads(b: Bytes, i: nat, key: Bytes, text: Text)
    requires At(b, i, key + [QUOTE]) && i + |key| < |b| && ReadString(b, i + |key| + 1) == Some(text)
    ensures ReadField(b, i, key) == Some(text)
  {
  }

  /** A key and a quoted value stand at `i`, up to `next`. */
  ghost predicate FieldAt(b: Bytes, i: nat, key: Bytes, value: Bytes, next: nat) {
    var q := i + |key|;
    && At(b, i, key) && next == q + |EscapeAll(value)| + 2 && next <= |b|
    && b[q] == QUOTE && At(b, q + 1, EscapeAll(value)) && b[next - 1] == QUOTE
  }

  lemma ReadWrittenField(b: Bytes, i: nat, key: Bytes, value: Bytes, next: nat)
    requires FieldAt(b, i, key, value, next)
    ensures ReadField(b, i, key) == Some(Text(value, next))
  {
    ReadAllEscaped(b, i + |key| + 1, value);
    AtMore(b, i, key, QUOTE);
    FieldReads(b, i, key, Text(value, next));
  }

  /** A field at the head of what stands at `i`. */
  lemma FieldFirst(b: Bytes, i: nat, key: Bytes, value: Bytes, rest: Bytes, next: nat)
    requires At(b, i, key + (Quoted(value) + rest)) && next == i + |key| + |Quoted(value)|
    ensures FieldAt(b, i, key, value, next) && At(b, next, rest)
  {
    AtSplit(b, i, key, Quoted(value) + rest);
    AtSplit(b, i + |key|, Quoted(value), rest);
    QuotedAt(b, i + |key|, value);
  }

  lemma Nest(k: Layout, a: Bytes, b: Bytes, c: Bytes, d: Bytes)
    ensures k.sourceKey + a + k.directionKey + b + k.timestampKey + c + k.contentKey + d + k.end
            == k.sourceKey + (a + (k.directionKey + (b + (k.timestampKey + (c + (k.contentKey + (d + k.end)))))))
  {
  }

  /** `b` is the four fields of `s` and the end, one after another. */
  ghost predicate LaidOut(k: Layout, b: Bytes, s: Stored, p2: nat, p4: nat, p6: nat, p8: nat) {
    && FieldAt(b, 0, k.sourceKey, s.sourceId, p2)
    && FieldAt(b, p2, k.directionKey, s.direction, p4)
    && FieldAt(b, p4, k.timestampKey, s.timestamp, p6)
    && FieldAt(b, p6, k.contentKey, s.content, p8)
    && At(b, p8, k.end) && |b| == p8 + |k.end|
  }

  /** Two fields at the head of what stands at `i`. */
  lemma TwoFields(b: Bytes, i: nat, key1: Bytes, value1: Bytes, key2: Bytes, value2: Bytes, rest: Bytes, mid: nat, next: nat)
    requires At(b, i, key1 + (Quoted(value1) + (key2 + (Quoted(value2) + rest))))
    requires mid == i + |key1| + |Quoted(value1)| && next == mid + |key2| + |Quoted(value2)|
    ensures FieldAt(b, i, key1, value1, mid) && FieldAt(b, mid, key2, value2, next) && At(b, next, rest)
  {
    FieldFirst(b, i, key1, value1, key2 + (Quoted(value2) + rest), mid);
    FieldFirst(b, mid, key2, value2, rest, next);
  }

  lemma EncodeIsLaidOut(k: Layout, s: Stored) returns (p2: nat, p4: nat, p6: nat, p8: nat)
    ensures LaidOut(k, Encode(k, s), s, p2, p4, p6, p8)
  {
    var q1, q2, q3, q4 := Quoted(s.sourceId), Quoted(s.direction), Quoted(s.timestamp), Quoted(s.content);
    p2 := |k.sourceKey| + |q1|;
    p4 := p2 + |k.directionKey| + |q2|;
    p6 := p4 + |k.timestampKey| + |q3|;
    p8 := p6 + |k.contentKey| + |q4|;
    var rest := k.timestampKey + (q3 + (k.contentKey + (q4 + k.end)));
    Nest(k, q1, q2, q3, q4);
    TwoFields(Encode(k, s), 0, k.sourceKey, s.sourceId, k.directionKey, s.direction, rest, p2, p4);
    TwoFields(Encode(k, s), p4, k.timestampKey, s.timestamp, k.contentKey, s.content, k.end, p6, p8);
  }

  lemma DecodeFields(k: Layout, b: Bytes, sourceId: Text, direction: Text, timestamp: Text, content: Text)
    requires ReadField(b, 0, k.sourceKey) == Some(sourceId)
    requires ReadField(b, sourceId.next, k.directionKey) == Some(direction)
    requires ReadField(b, direction.next, k.timestampKey) == Some(timestamp)
    requires ReadField(b, timestamp.next, k.contentKey) == Some(content)
    requires |b| == content.next + |k.end| && At(b, content.next, k.end)
    ensures Decode(k, b) == Some(Stored(sourceId.value, direction.value, timestamp.value, content.value))
  {
  }

  /** Evidence gives back what was stored, in particular the input byte for byte. */
  lemma DecodeEncode(k: Layout, s: Stored)
    ensures Decode(k, Encode(k, s)) == Some(s)
  {
    var b := Encode(k, s);
    var p2, p4, p6, p8 := EncodeIsLaidOut(k, s);
    ReadWrittenField(b, 0, k.sourceKey, s.sourceId, p2);
    ReadWrittenField(b, p2, k.directionKey, s.direction, p4);
    ReadWrittenField(b, p4, k.timestampKey, s.timestamp, p6);
    ReadWrittenField(b, p6, k.contentKey, s.content, p8);
    DecodeFields(k, b, Text(s.sourceId, p2), Text(s.direction, p4), Text(s.timestamp, p6), Text(s.content, p8));
  }
}
