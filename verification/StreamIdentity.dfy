/**
 * The signed `rmc1` stream identities of `crates/stream-identity/src/lib.rs`.
 * Strings are their UTF-8 octets.
 */
module StreamIdentity {
  import opened Common
  import opened Text
  import Base64

  const MAX_STREAM_ID_BYTES := 256
  const SCHEMA: Text := "rmc1"

  const ANCHOR: Text := "anchor"
  const SECONDARY: Text := "secondary"
  const H264_NAME: Text := "h264"
  const H265_NAME: Text := "h265"

  datatype Role = Anchor | Secondary {
    function Wire(): Text { if Anchor? then ANCHOR else SECONDARY }
  }

  datatype Codec = H264 | H265 {
    function Wire(): Text { if H264? then H264_NAME else H265_NAME }
  }

  datatype Identity = Identity(
    embodimentId: Text, edgeInstanceId: Text, edgeBootId: Uuid, sessionId: Uuid, cameraId: Text,
    slot: nat, epoch: nat, role: Role, codec: Codec)

  datatype IdentityError =
    | TooLong(limit: nat, actual: nat)
    | Layout
    | Empty(field: string)
    | Encoding(field: string)
    | Invalid(field: string)
    | Authentication
    | PortSlotMismatch(expected: nat, actual: nat)
    | PortOverflow

  /** HMAC-SHA256 of a message under a key. */
  type Digest = d: seq<Byte> | |d| == 32 witness seq(32, _ => 0)
  type Mac = (seq<Byte>, Text) -> Digest

  function Signature(mac: Mac, key: seq<Byte>, message: Text): (s: seq<Byte>)
    ensures |s| == 16
  {
    mac(key, message)[..16]
  }

  // ---- Text fields ----

  /** Well-formed UTF-8: Table 3-7 of the Unicode standard. */
  predicate IsUtf8(s: Text) {
    if s == [] then true
    else
      var b := s[0] as int;
      if b < 0x80 then IsUtf8(s[1..])
      else if 0xC2 <= b <= 0xDF then |s| >= 2 && Tail(s[1], 0x80, 0xBF) && IsUtf8(s[2..])
      else if 0xE0 <= b <= 0xEF then
        && |s| >= 3 && Tail(s[1], if b == 0xE0 then 0xA0 else 0x80, if b == 0xED then 0x9F else 0xBF)
        && Tail(s[2], 0x80, 0xBF) && IsUtf8(s[3..])
      else if 0xF0 <= b <= 0xF4 then
        && |s| >= 4 && Tail(s[1], if b == 0xF0 then 0x90 else 0x80, if b == 0xF4 then 0x8F else 0xBF)
        && Tail(s[2], 0x80, 0xBF) && Tail(s[3], 0x80, 0xBF) && IsUtf8(s[4..])
      else false
  }

  predicate Tail(c: char, low: int, high: int) { low <= c as int <= high }

  /** Some character of category Cc: U+0000 to U+001F and U+007F to U+009F. */
  predicate HasControl(s: Text) {
    exists i :: 0 <= i < |s| && ControlAt(s, i)
  }

  predicate ControlAt(s: Text, i: nat)
    requires i < |s|
  {
    || s[i] as int < 0x20
    || s[i] as int == 0x7F
    || (s[i] as int == 0xC2 && i + 1 < |s| && Tail(s[i + 1], 0x80, 0x9F))
  }

  function ValidateText(field: string, value: Text): Option<IdentityError> {
    if value == [] then Some(Empty(field))
    else if HasControl(value) then Some(Encoding(field))
    else None
  }

  const MARKS := " !\"#$%&'()*+,/:;=?@[\\]^`{|}"

  /** The percent-encode set: controls, non-ASCII octets and the listed marks. */
  predicate MustEncode(c: Octet) {
    c as int < 0x20 || c as int >= 0x7F || c in MARKS
  }

  function EncodeOctet(c: Octet): Text {
    if MustEncode(c) then ['%', HexDigit(c as int / 16, true), HexDigit(c as int % 16, true)] else [c]
  }

  /** Percent-encoding, section 2.1 of RFC 3986. */
  function EncodeText(s: Text): Text {
    if s == [] then [] else EncodeOctet(s[0]) + EncodeText(s[1..])
  }

  predicate EscapeAt(s: Text) {
    |s| >= 3 && s[0] == '%' && HexValue(s[1]).Some? && HexValue(s[2]).Some?
  }

  /** Percent-decoding; a percent sign without two hex digits stands for itself. */
  function DecodePercent(s: Text): Text {
    if s == [] then []
    else if EscapeAt(s) then
      [(HexValue(s[1]).value * 16 + HexValue(s[2]).value) as char] + DecodePercent(s[3..])
    else [s[0]] + DecodePercent(s[1..])
  }

  function DecodeText(field: string, raw: Text): Result<Text, IdentityError> {
    var decoded := DecodePercent(raw);
    if !IsUtf8(decoded) then Err(Encoding(field))
    else
      match ValidateText(field, decoded)
      case Some(error) => Err(error)
      case None => if EncodeText(decoded) != raw then Err(Encoding(field)) else Ok(decoded)
  }

  /** The unreserved characters of section 2.3 of RFC 3986. */
  predicate Unreserved(c: char) {
    'A' <= c <= 'Z' || 'a' <= c <= 'z' || '0' <= c <= '9' || c == '-' || c == '.' || c == '_' || c == '~'
  }

  predicate Stays(c: char) { Unreserved(c) || c == '<' || c == '>' }

  lemma StaysIsNoMark(c: Octet)
    requires Stays(c)
    ensures !MustEncode(c)
  {
  }

  lemma SpaceToComma(c: char)
    requires ' ' <= c <= ','
    ensures c in MARKS
  {
    assert MARKS[c as int - 0x20] == c;
  }

  lemma LaterMarks(c: char)
    requires c > ',' && c < 127 as char && !Stays(c)
    ensures c in MARKS
  {
    var k := if c == '/' then 13 else if c <= ';' then c as int - 0x3A + 14 else if c == '=' then 16
             else if c <= '@' then c as int - 0x3F + 17 else if c <= '^' then c as int - 0x5B + 19
             else if c == '`' then 23 else c as int - 0x7B + 24;
    assert MARKS[k] == c;
  }

  /** What stays as it is: the unreserved characters and, unlike in RFC 3986, the angle brackets. */
  lemma EncodedOctetIs(c: Octet)
    ensures EncodeOctet(c) == if Stays(c) then [c] else ['%', UPPER_HEX[c as int / 16], UPPER_HEX[c as int % 16]]
  {
    hide MARKS;
    if Stays(c) {
      StaysIsNoMark(c);
    } else if ' ' <= c <= ',' {
      SpaceToComma(c);
    } else if ',' < c < 127 as char {
      LaterMarks(c);
    }
    HexDigitIs(c as int / 16, true);
    HexDigitIs(c as int % 16, true);
  }

  lemma {:induction false} DecodeEncodeText(s: Text)
    ensures DecodePercent(EncodeText(s)) == s
    ensures ';' !in EncodeText(s) && |EncodeText(s)| >= |s|
  {
    if s != [] {
      hide DecodePercent, EncodeOctet;
      DecodeEncodeText(s[1..]);
      DecodeOctet(s[0], EncodeText(s[1..]));
      assert s == [s[0]] + s[1..];
    }
  }

  lemma DecodeOctet(c: Octet, rest: Text)
    ensures DecodePercent(EncodeOctet(c) + rest) == [c] + DecodePercent(rest)
    ensures ';' !in EncodeOctet(c) && |EncodeOctet(c)| >= 1
  {
    var e := EncodeOctet(c) + rest;
    if MustEncode(c) {
      var n := c as int;
      HexRoundTrip(n / 16, true);
      HexRoundTrip(n % 16, true);
      assert e[3..] == rest && EscapeAt(e);
      assert (n / 16 * 16 + n % 16) as char == c;
    } else {
      assert e[1..] == rest && e[0] == c && c != '%';
    }
  }

  // ---- UUIDs and numbers ----

  function Hex(b: seq<Byte>): (t: Text)
    ensures |t| == 2 * |b|
  {
    if b == [] then [] else [HexDigit(b[0] / 16, false), HexDigit(b[0] % 16, false)] + Hex(b[1..])
  }

  function Unhex(t: Text): (b: Option<seq<Byte>>)
    ensures b.Some? ==> 2 * |b.value| == |t|
  {
    if t == [] then Some([])
    else if |t| < 2 || HexValue(t[0]).None? || HexValue(t[1]).None? then None
    else
      match Unhex(t[2..])
      case None => None
      case Some(rest) => Some([HexValue(t[0]).value * 16 + HexValue(t[1]).value] + rest)
  }

  lemma {:induction false} UnhexHex(b: seq<Byte>)
    ensures Unhex(Hex(b)) == Some(b) && ';' !in Hex(b)
  {
    if b != [] {
      UnhexHex(b[1..]);
      HexRoundTrip(b[0] / 16, false);
      HexRoundTrip(b[0] % 16, false);
      assert Hex(b)[2..] == Hex(b[1..]);
      assert b == [b[0]] + b[1..];
    }
  }

  function Hyphenated(u: Uuid): Text {
    Hex(u[..4]) + "-" + Hex(u[4..6]) + "-" + Hex(u[6..8]) + "-" + Hex(u[8..10]) + "-" + Hex(u[10..])
  }

  /** The hyphenated spelling; every other one fails the comparison in `ParseUuid` all the same. */
  function ReadUuid(t: Text): Option<Uuid> {
    if |t| != 36 || t[8] != '-' || t[13] != '-' || t[18] != '-' || t[23] != '-' then None
    else Unhex(t[..8] + t[9..13] + t[14..18] + t[19..23] + t[24..])
  }

  function ParseUuid(field: string, value: Text): Result<Uuid, IdentityError> {
    match ReadUuid(value)
    case None => Err(Invalid(field))
    case Some(u) => if Hyphenated(u) != value then Err(Invalid(field)) else Ok(u)
  }

  lemma {:induction false} HexAppend(a: seq<Byte>, b: seq<Byte>)
    ensures Hex(a + b) == Hex(a) + Hex(b)
  {
    if a == [] {
      assert a + b == b;
    } else {
      assert (a + b)[1..] == a[1..] + b;
      HexAppend(a[1..], b);
    }
  }

  lemma HexOfParts(u: Uuid)
    ensures Hex(u) == Hex(u[..4]) + Hex(u[4..6]) + Hex(u[6..8]) + Hex(u[8..10]) + Hex(u[10..])
  {
    HexAppend(u[..4], u[4..6]);
    HexAppend(u[..4] + u[4..6], u[6..8]);
    HexAppend(u[..4] + u[4..6] + u[6..8], u[8..10]);
    HexAppend(u[..4] + u[4..6] + u[6..8] + u[8..10], u[10..]);
    assert u == u[..4] + u[4..6] + u[6..8] + u[8..10] + u[10..];
  }

  /** Five hexadecimal parts with hyphens between them, and the parts taken out again. */
  lemma HyphenParts(a: Text, b: Text, c: Text, d: Text, e: Text)
    requires |a| == 8 && |b| == |c| == |d| == 4 && |e| == 12
    ensures var t := a + "-" + b + "-" + c + "-" + d + "-" + e;
            && |t| == 36 && t[8] == t[13] == t[18] == t[23] == '-'
            && t[..8] == a && t[9..13] == b && t[14..18] == c && t[19..23] == d && t[24..] == e
            && (';' !in a && ';' !in b && ';' !in c && ';' !in d && ';' !in e ==> ';' !in t)
  {
  }

  lemma ReadHyphenated(u: Uuid)
    ensures ReadUuid(Hyphenated(u)) == Some(u) && ';' !in Hyphenated(u)
  {
    hide Hex, Unhex;
    HyphenParts(Hex(u[..4]), Hex(u[4..6]), Hex(u[6..8]), Hex(u[8..10]), Hex(u[10..]));
    HexOfParts(u);
    UnhexHex(u);
    UnhexHex(u[..4]);
    UnhexHex(u[4..6]);
    UnhexHex(u[6..8]);
    UnhexHex(u[8..10]);
    UnhexHex(u[10..]);
  }

  lemma {:induction false} HexAt(b: seq<Byte>, i: nat)
    requires i < |b|
    ensures Hex(b)[2 * i] == LOWER_HEX[b[i] / 16] && Hex(b)[2 * i + 1] == LOWER_HEX[b[i] % 16]
  {
    if i == 0 {
      HexDigitIs(b[0] / 16, false);
      HexDigitIs(b[0] % 16, false);
    } else {
      HexAt(b[1..], i - 1);
    }
  }

  /** Where the two digits of byte `i` stand: after every byte before it and every hyphen before it. */
  function DigitsOf(i: nat): nat {
    2 * i + (if i < 4 then 0 else if i < 6 then 1 else if i < 8 then 2 else if i < 10 then 3 else 4)
  }

  /** The 8-4-4-4-12 form of section 3 of RFC 4122, in lower case. */
  lemma HyphenatedIs(u: Uuid, i: nat)
    requires i < 16
    ensures var t := Hyphenated(u);
            && |t| == 36 && t[8] == t[13] == t[18] == t[23] == '-'
            && t[DigitsOf(i)] == LOWER_HEX[u[i] / 16] && t[DigitsOf(i) + 1] == LOWER_HEX[u[i] % 16]
  {
    hide Hex;
    var t := Hyphenated(u);
    HyphenParts(Hex(u[..4]), Hex(u[4..6]), Hex(u[6..8]), Hex(u[8..10]), Hex(u[10..]));
    hide Hyphenated;
    if i < 4 {
      HexAt(u[..4], i);
      PartAt(t, 0, 8, 2 * i, Hex(u[..4]));
    } else if i < 6 {
      HexAt(u[4..6], i - 4);
      PartAt(t, 9, 13, 2 * (i - 4), Hex(u[4..6]));
    } else if i < 8 {
      HexAt(u[6..8], i - 6);
      PartAt(t, 14, 18, 2 * (i - 6), Hex(u[6..8]));
    } else if i < 10 {
      HexAt(u[8..10], i - 8);
      PartAt(t, 19, 23, 2 * (i - 8), Hex(u[8..10]));
    } else {
      HexAt(u[10..], i - 10);
      assert t[24..36] == t[24..];
      PartAt(t, 24, 36, 2 * (i - 10), Hex(u[10..]));
    }
  }

  lemma PartAt(t: Text, from: nat, to: nat, k: nat, part: Text)
    requires from <= to <= |t| && t[from..to] == part && k + 1 < |part|
    ensures from + k + 1 < |t| && t[from + k] == part[k] && t[from + k + 1] == part[k + 1]
  {
  }

  function ParseCanonicalNumber(field: string, value: Text, max: nat): Result<nat, IdentityError> {
    match ParseNumber(value, max)
    case None => Err(Invalid(field))
    case Some(n) => if Decimal(n) != value then Err(Invalid(field)) else Ok(n)
  }

  lemma ParseDecimal(field: string, n: nat, max: nat)
    requires n <= max
    ensures ParseCanonicalNumber(field, Decimal(n), max) == Ok(n)
    ensures Decimal(n) != [] && ';' !in Decimal(n)
  {
    DecimalDigits(n);
    assert IsDigit(Decimal(n)[0]);
  }

  // ---- The whole string ----

  const NAMES: seq<Text> := ["emb", "edge", "boot", "sid", "cid", "slot", "epoch", "role", "codec", "sig"]

  /** The values of the nine unsigned fields, in order. */
  function FieldValues(id: Identity): (values: seq<Text>)
    ensures |values| == 9
  {
    [EncodeText(id.embodimentId), EncodeText(id.edgeInstanceId), Hyphenated(id.edgeBootId), Hyphenated(id.sessionId),
     EncodeText(id.cameraId), Decimal(id.slot), Decimal(id.epoch), id.role.Wire(), id.codec.Wire()]
  }

  /** The schema, then one `name=value` segment per value. */
  function Segments(values: seq<Text>): (segments: seq<Text>)
    requires |values| <= |NAMES|
    ensures |segments| == |values| + 1 && segments[0] == SCHEMA
    ensures forall i :: 0 <= i < |values| ==> segments[i + 1] == NAMES[i] + "=" + values[i]
  {
    [SCHEMA] + seq(|values|, i requires 0 <= i < |values| => NAMES[i] + "=" + values[i])
  }

  function Unsigned(id: Identity): Text { JoinOn(Segments(FieldValues(id)), ';') }

  function Signed(id: Identity, key: seq<Byte>, mac: Mac): Text {
    Unsigned(id) + ";sig=" + Base64.Encode(Signature(mac, key, Unsigned(id)))
  }

  function EncodeSigned(id: Identity, key: seq<Byte>, mac: Mac): Result<Text, IdentityError> {
    if ValidateText("emb", id.embodimentId).Some? then Err(ValidateText("emb", id.embodimentId).value)
    else if ValidateText("edge", id.edgeInstanceId).Some? then Err(ValidateText("edge", id.edgeInstanceId).value)
    else if ValidateText("cid", id.cameraId).Some? then Err(ValidateText("cid", id.cameraId).value)
    else
      var signed := Signed(id, key, mac);
      if |signed| > MAX_STREAM_ID_BYTES then Err(TooLong(MAX_STREAM_ID_BYTES, |signed|)) else Ok(signed)
  }

  /** The value of a segment that has the expected name and a non-empty value. */
  function SegmentValue(segment: Text, name: Text): Option<Text> {
    match SplitOnce(segment, '=')
    case None => None
    case Some((found, value)) => if found != name || value == [] then None else Some(value)
  }

  predicate WellLaidOut(segments: seq<Text>) {
    && |segments| == 11 && segments[0] == SCHEMA
    && forall i :: 0 <= i < 10 ==> SegmentValue(segments[i + 1], NAMES[i]).Some?
  }

  function SegmentValues(segments: seq<Text>): (values: seq<Text>)
    requires WellLaidOut(segments)
    ensures |values| == 10
    ensures forall i :: 0 <= i < 10 ==> SegmentValue(segments[i + 1], NAMES[i]) == Some(values[i])
  {
    seq(10, i requires 0 <= i < 10 => SegmentValue(segments[i + 1], NAMES[i]).value)
  }

  function ReadRole(value: Text): Result<Role, IdentityError> {
    if value == ANCHOR then Ok(Anchor) else if value == SECONDARY then Ok(Secondary) else Err(Invalid("role"))
  }

  function ReadCodec(value: Text): Result<Codec, IdentityError> {
    if value == H264_NAME then Ok(H264) else if value == H265_NAME then Ok(H265) else Err(Invalid("codec"))
  }

  lemma WireWords(role: Role, codec: Codec)
    ensures ReadRole(role.Wire()) == Ok(role) && role.Wire() != [] && ';' !in role.Wire()
    ensures ReadCodec(codec.Wire()) == Ok(codec) && codec.Wire() != [] && ';' !in codec.Wire()
  {
    assert |ANCHOR| == 6 && |SECONDARY| == 9;
    assert H264_NAME[3] != H265_NAME[3];
  }

  /** The identity that nine field values spell, if they are canonical. */
  function ReadFields(values: seq<Text>): Result<Identity, IdentityError>
    requires |values| >= 9
  {
    var embodimentId :- DecodeText("emb", values[0]);
    var edgeInstanceId :- DecodeText("edge", values[1]);
    var edgeBootId :- ParseUuid("boot", values[2]);
    var sessionId :- ParseUuid("sid", values[3]);
    var cameraId :- DecodeText("cid", values[4]);
    var slot :- ParseCanonicalNumber("slot", values[5], U16_MAX);
    var epoch :- ParseCanonicalNumber("epoch", values[6], U32_MAX);
    var role :- ReadRole(values[7]);
    var codec :- ReadCodec(values[8]);
    Ok(Identity(embodimentId, edgeInstanceId, edgeBootId, sessionId, cameraId, slot, epoch, role, codec))
  }

  function ParseAndVerify(raw: Text, key: seq<Byte>, mac: Mac): Result<Identity, IdentityError> {
    if |raw| > MAX_STREAM_ID_BYTES then Err(TooLong(MAX_STREAM_ID_BYTES, |raw|))
    else
      var segments := SplitOn(raw, ';');
      if !WellLaidOut(segments) then Err(Layout)
      else
        var values := SegmentValues(segments);
        match RFind(raw, ";sig=")
        case None => Err(Layout)
        case Some(unsignedEnd) =>
          if Base64.Decode(values[9]) != Some(Signature(mac, key, raw[..unsignedEnd])) then Err(Authentication)
          else ReadFields(values)
  }

  // ---- Laying out and reading back ----

  lemma SegmentRoundTrip(name: Text, value: Text)
    requires '=' !in name && value != []
    ensures SegmentValue(name + "=" + value, name) == Some(value)
  {
    IndexOfSeam(name, '=', value);
    var s := name + "=" + value;
    assert s[..|name|] == name && s[|name| + 1..] == value;
  }

  lemma SegmentSpelling(segment: Text, name: Text)
    requires SegmentValue(segment, name).Some?
    ensures segment == name + "=" + SegmentValue(segment, name).value
  {
    SplitOnceJoins(segment, '=');
  }

  lemma NamesAreClean(i: nat)
    requires i < 10
    ensures '=' !in NAMES[i] && ';' !in NAMES[i]
  {
  }

  lemma SegmentsRoundTrip(values: seq<Text>)
    requires |values| == 10 && forall i :: 0 <= i < 10 ==> values[i] != [] && ';' !in values[i]
    ensures SplitOn(JoinOn(Segments(values), ';'), ';') == Segments(values)
    ensures WellLaidOut(Segments(values)) && SegmentValues(Segments(values)) == values
  {
    var segments := Segments(values);
    forall i | 0 <= i < 10
      ensures SegmentValue(segments[i + 1], NAMES[i]) == Some(values[i]) && ';' !in segments[i + 1]
    {
      NamesAreClean(i);
      SegmentRoundTrip(NAMES[i], values[i]);
    }
    forall k | 0 <= k < |segments|
      ensures ';' !in segments[k]
    {
      if k > 0 {
        assert segments[k] == segments[(k - 1) + 1];
      }
    }
    SplitJoin(segments, ';');
  }

  lemma SegmentsSpelling(segments: seq<Text>)
    requires WellLaidOut(segments)
    ensures Segments(SegmentValues(segments)) == segments
  {
    var values := SegmentValues(segments);
    forall k | 0 <= k < 11
      ensures Segments(values)[k] == segments[k]
    {
      if k > 0 {
        SegmentSpelling(segments[k], NAMES[k - 1]);
        assert Segments(values)[(k - 1) + 1] == NAMES[k - 1] + "=" + values[k - 1];
        assert SegmentValue(segments[(k - 1) + 1], NAMES[k - 1]) == Some(values[k - 1]);
      }
    }
  }

  lemma SignatureJoin(values: seq<Text>)
    requires |values| == 10
    ensures JoinOn(Segments(values), ';') == JoinOn(Segments(values[..9]), ';') + ";sig=" + values[9]
  {
    var last: Text := "sig" + "=" + values[9];
    assert Segments(values) == Segments(values[..9]) + [last];
    JoinSnoc(Segments(values[..9]), last, ';');
    assert JoinOn(Segments(values[..9]), ';') + [';'] + last == JoinOn(Segments(values[..9]), ';') + ";sig=" + values[9];
  }

  /** The signed part ends at the last `;sig=`, because the signature holds no semicolon. */
  lemma SignatureSeam(values: seq<Text>)
    requires |values| == 10 && ';' !in values[9]
    ensures var unsigned := JoinOn(Segments(values[..9]), ';');
            && JoinOn(Segments(values), ';') == unsigned + ";sig=" + values[9]
            && RFind(unsigned + ";sig=" + values[9], ";sig=") == Some(|unsigned|)
  {
    hide JoinOn, Segments, RFind;
    SignatureJoin(values);
    SeamFound(JoinOn(Segments(values[..9]), ';'), values[9]);
  }

  lemma SeamFound(unsigned: Text, value: Text)
    requires ';' !in value
    ensures RFind(unsigned + ";sig=" + value, ";sig=") == Some(|unsigned|)
  {
    hide RFindFrom, OccursAt;
    var pattern: Text := ";sig=";
    var raw := unsigned + pattern + value;
    forall k | |unsigned| < k <= |raw| - 5
      ensures !OccursAt(raw, pattern, k)
    {
      SeamUnique(unsigned, value, k);
    }
    SeamOccurs(unsigned, value);
    RFindLast(raw, pattern, |unsigned|, |raw| - 5);
  }

  lemma SeamOccurs(unsigned: Text, value: Text)
    ensures OccursAt(unsigned + ";sig=" + value, ";sig=", |unsigned|)
  {
    var raw: Text := unsigned + ";sig=" + value;
    assert raw[|unsigned|..|unsigned| + 5] == ";sig=";
  }

  lemma SeamUnique(unsigned: Text, value: Text, k: nat)
    requires ';' !in value && |unsigned| < k
    ensures !OccursAt(unsigned + ";sig=" + value, ";sig=", k)
  {
    var raw := unsigned + ";sig=" + value;
    if k + 5 <= |raw| {
      assert raw[k] != ';' by {
        if k >= |unsigned| + 5 {
          assert raw[k] == value[k - |unsigned| - 5];
        }
      }
      assert raw[k..k + 5][0] == raw[k];
    }
  }

  lemma WireIsClean(id: Identity)
    requires id.slot <= U16_MAX && id.epoch <= U32_MAX
    requires id.embodimentId != [] && id.edgeInstanceId != [] && id.cameraId != []
    ensures forall i :: 0 <= i < 9 ==> FieldValues(id)[i] != [] && ';' !in FieldValues(id)[i]
  {
    hide EncodeText, DecodePercent, Hyphenated, ReadUuid, Decimal, ParseCanonicalNumber, ReadRole, ReadCodec;
    DecodeEncodeText(id.embodimentId);
    DecodeEncodeText(id.edgeInstanceId);
    DecodeEncodeText(id.cameraId);
    UuidRoundTrip("boot", id.edgeBootId);
    UuidRoundTrip("sid", id.sessionId);
    ParseDecimal("slot", id.slot, U16_MAX);
    ParseDecimal("epoch", id.epoch, U32_MAX);
    WireWords(id.role, id.codec);
  }

  /** What the Rust types guarantee of an identity. */
  predicate WellTyped(id: Identity) {
    && id.slot <= U16_MAX && id.epoch <= U32_MAX
    && IsUtf8(id.embodimentId) && IsUtf8(id.edgeInstanceId) && IsUtf8(id.cameraId)
  }

  predicate TextsAllowed(id: Identity) {
    && ValidateText("emb", id.embodimentId).None?
    && ValidateText("edge", id.edgeInstanceId).None?
    && ValidateText("cid", id.cameraId).None?
  }

  lemma TextRoundTrip(field: string, value: Text)
    requires IsUtf8(value) && ValidateText(field, value).None?
    ensures DecodeText(field, EncodeText(value)) == Ok(value)
  {
    DecodeEncodeText(value);
  }

  lemma UuidRoundTrip(field: string, u: Uuid)
    ensures ParseUuid(field, Hyphenated(u)) == Ok(u) && Hyphenated(u) != [] && ';' !in Hyphenated(u)
  {
    ReadHyphenated(u);
    assert |Hyphenated(u)| >= 1;
  }

  lemma FieldsRoundTrip(id: Identity, signature: Text)
    requires WellTyped(id) && TextsAllowed(id)
    ensures ReadFields(FieldValues(id) + [signature]) == Ok(id)
  {
    hide DecodeText, EncodeText, ParseUuid, Hyphenated, Decimal, ParseCanonicalNumber, ReadRole, ReadCodec, IsUtf8;
    TextRoundTrip("emb", id.embodimentId);
    TextRoundTrip("edge", id.edgeInstanceId);
    TextRoundTrip("cid", id.cameraId);
    UuidRoundTrip("boot", id.edgeBootId);
    UuidRoundTrip("sid", id.sessionId);
    ParseDecimal("slot", id.slot, U16_MAX);
    ParseDecimal("epoch", id.epoch, U32_MAX);
    WireWords(id.role, id.codec);
  }

  lemma TextSpelling(field: string, raw: Text)
    ensures DecodeText(field, raw).Ok? ==>
              var value := DecodeText(field, raw).value;
              EncodeText(value) == raw && IsUtf8(value) && ValidateText(field, value).None?
  {
  }

  lemma UuidSpelling(field: string, raw: Text)
    ensures ParseUuid(field, raw).Ok? ==> Hyphenated(ParseUuid(field, raw).value) == raw
  {
  }

  lemma NumberSpelling(field: string, raw: Text, max: nat)
    ensures ParseCanonicalNumber(field, raw, max).Ok? ==>
              var n := ParseCanonicalNumber(field, raw, max).value; n <= max && Decimal(n) == raw
  {
  }

  lemma WordSpelling(role: Text, codec: Text)
    ensures ReadRole(role).Ok? ==> ReadRole(role).value.Wire() == role
    ensures ReadCodec(codec).Ok? ==> ReadCodec(codec).value.Wire() == codec
  {
  }

  /** Accepted fields are spelt the one canonical way. */
  lemma FieldsSpelling(values: seq<Text>)
    requires |values| == 10 && ReadFields(values).Ok?
    ensures FieldValues(ReadFields(values).value) == values[..9]
    ensures WellTyped(ReadFields(values).value) && TextsAllowed(ReadFields(values).value)
  {
    hide DecodeText, EncodeText, ParseUuid, Hyphenated, Decimal, ParseCanonicalNumber, ReadRole, ReadCodec, IsUtf8,
         ValidateText;
    TextSpelling("emb", values[0]);
    TextSpelling("edge", values[1]);
    UuidSpelling("boot", values[2]);
    UuidSpelling("sid", values[3]);
    TextSpelling("cid", values[4]);
    NumberSpelling("slot", values[5], U16_MAX);
    NumberSpelling("epoch", values[6], U32_MAX);
    WordSpelling(values[7], values[8]);
  }

  // ---- The theorems ----

  lemma EncodeThenParse(id: Identity, key: seq<Byte>, mac: Mac)
    requires WellTyped(id) && EncodeSigned(id, key, mac).Ok?
    ensures ParseAndVerify(EncodeSigned(id, key, mac).value, key, mac) == Ok(id)
  {
    hide SplitOn, JoinOn, ReadFields, WellLaidOut, SegmentValues, Segments, FieldValues, RFind, Base64.Encode, Base64.Decode;
    var signature := Signature(mac, key, Unsigned(id));
    var values := FieldValues(id) + [Base64.Encode(signature)];
    SignatureText(signature);
    WireIsClean(id);
    SegmentsRoundTrip(values);
    assert values[..9] == FieldValues(id);
    SignatureSeam(values);
    FieldsRoundTrip(id, Base64.Encode(signature));
    var signed := Signed(id, key, mac);
    assert signed[..|Unsigned(id)|] == Unsigned(id);
  }

  lemma SignatureText(signature: seq<Byte>)
    requires |signature| == 16
    ensures var t := Base64.Encode(signature); t != [] && ';' !in t && Base64.Decode(t) == Some(signature)
  {
    Base64.DecodeEncode(signature);
    assert |Base64.Encode(signature)| >= 4;
  }

  lemma ParseThenEncode(raw: Text, key: seq<Byte>, mac: Mac)
    requires ParseAndVerify(raw, key, mac).Ok?
    ensures WellTyped(ParseAndVerify(raw, key, mac).value)
    ensures EncodeSigned(ParseAndVerify(raw, key, mac).value, key, mac) == Ok(raw)
  {
    hide SplitOn, JoinOn, ReadFields, Segments, FieldValues, RFind, Base64.Encode, Base64.Decode, SegmentValue, WellTyped;
    var segments := SplitOn(raw, ';');
    JoinSplit(raw, ';');
    var values := SegmentValues(segments);
    SegmentsSpelling(segments);
    SegmentSpelling(segments[10], NAMES[9]);
    assert ';' !in values[9] by {
      assert SegmentValue(segments[9 + 1], NAMES[9]) == Some(values[9]);
      assert forall c :: c in values[9] ==> c in segments[10];
    }
    SignatureSeam(values);
    FieldsSpelling(values);
    var id := ReadFields(values).value;
    var unsigned := JoinOn(Segments(values[..9]), ';');
    assert raw == unsigned + ";sig=" + values[9];
    assert raw[..|unsigned|] == unsigned;
    Base64.EncodeDecode(values[9]);
  }

  /** Parsing and printing are exact inverses: each identity has one accepted spelling. */
  lemma ExactInverses(raw: Text, id: Identity, key: seq<Byte>, mac: Mac)
    requires WellTyped(id)
    ensures ParseAndVerify(raw, key, mac) == Ok(id) <==> EncodeSigned(id, key, mac) == Ok(raw)
  {
    if ParseAndVerify(raw, key, mac) == Ok(id) {
      ParseThenEncode(raw, key, mac);
    }
    if EncodeSigned(id, key, mac) == Ok(raw) {
      EncodeThenParse(id, key, mac);
    }
  }

  /** So no identity has two accepted spellings. */
  lemma OneSpelling(left: Text, right: Text, key: seq<Byte>, mac: Mac)
    requires ParseAndVerify(left, key, mac).Ok? && ParseAndVerify(left, key, mac) == ParseAndVerify(right, key, mac)
    ensures left == right
  {
    ParseThenEncode(left, key, mac);
    ParseThenEncode(right, key, mac);
  }

  lemma {:induction false} EncodedTextLength(s: Text)
    ensures |EncodeText(s)| <= 3 * |s|
  {
    if s != [] {
      EncodedTextLength(s[1..]);
    }
  }

  lemma JoinDrop(parts: seq<Text>, k: nat)
    requires k + 1 < |parts|
    ensures |JoinOn(parts[k..], ';')| == |parts[k]| + 1 + |JoinOn(parts[k + 1..], ';')|
  {
    assert parts[k..][1..] == parts[k + 1..];
  }

  lemma UnsignedLength(id: Identity)
    requires id.slot <= U16_MAX && id.epoch <= U32_MAX
    ensures |Unsigned(id)| <= 157 + 3 * (|id.embodimentId| + |id.edgeInstanceId| + |id.cameraId|)
  {
    hide JoinOn, EncodeText, Decimal, Hyphenated, Hex;
    var values := FieldValues(id);
    var parts := Segments(values);
    EncodedTextLength(id.embodimentId);
    EncodedTextLength(id.edgeInstanceId);
    EncodedTextLength(id.cameraId);
    HyphenatedLength(id.edgeBootId);
    HyphenatedLength(id.sessionId);
    DecimalLength(id.slot, 5);
    DecimalLength(id.epoch, 10);
    SegmentLengths(values, parts);
    JoinedLength(parts);
  }

  lemma HyphenatedLength(u: Uuid)
    ensures |Hyphenated(u)| == 36
  {
    hide Hex;
  }

  lemma SegmentLengths(values: seq<Text>, parts: seq<Text>)
    requires |values| == 9 && parts == Segments(values)
    ensures |parts| == 10 && |parts[0]| == 4
    ensures |parts[1]| == 4 + |values[0]| && |parts[2]| == 5 + |values[1]| && |parts[3]| == 5 + |values[2]|
    ensures |parts[4]| == 4 + |values[3]| && |parts[5]| == 4 + |values[4]| && |parts[6]| == 5 + |values[5]|
    ensures |parts[7]| == 6 + |values[6]| && |parts[8]| == 5 + |values[7]| && |parts[9]| == 6 + |values[8]|
  {
    assert parts[0 + 1] == NAMES[0] + "=" + values[0] && parts[1 + 1] == NAMES[1] + "=" + values[1];
    assert parts[2 + 1] == NAMES[2] + "=" + values[2] && parts[3 + 1] == NAMES[3] + "=" + values[3];
    assert parts[4 + 1] == NAMES[4] + "=" + values[4] && parts[5 + 1] == NAMES[5] + "=" + values[5];
    assert parts[6 + 1] == NAMES[6] + "=" + values[6] && parts[7 + 1] == NAMES[7] + "=" + values[7];
    assert parts[8 + 1] == NAMES[8] + "=" + values[8];
  }

  lemma JoinedLength(parts: seq<Text>)
    requires |parts| == 10
    ensures |JoinOn(parts, ';')| == 9 + |parts[0]| + |parts[1]| + |parts[2]| + |parts[3]| + |parts[4]|
                                  + |parts[5]| + |parts[6]| + |parts[7]| + |parts[8]| + |parts[9]|
  {
    assert |JoinOn(parts[9..], ';')| == |parts[9]|;
    hide JoinOn;
    JoinDrop(parts, 8);
    JoinDrop(parts, 7);
    JoinDrop(parts, 6);
    JoinDrop(parts, 5);
    JoinDrop(parts, 4);
    JoinDrop(parts, 3);
    JoinDrop(parts, 2);
    JoinDrop(parts, 1);
    JoinDrop(parts, 0);
    assert parts[0..] == parts;
  }

  /** Every identity whose three texts are allowed and total at most 24 octets has its accepted spelling. */
  lemma ShortIdentityIsAccepted(id: Identity, key: seq<Byte>, mac: Mac)
    requires WellTyped(id) && TextsAllowed(id)
    requires |id.embodimentId| + |id.edgeInstanceId| + |id.cameraId| <= 24
    ensures EncodeSigned(id, key, mac).Ok?
    ensures ParseAndVerify(EncodeSigned(id, key, mac).value, key, mac) == Ok(id)
  {
    hide Unsigned, Base64.Encode, ParseAndVerify, ValidateText;
    UnsignedLength(id);
    Base64.EncodedLength(Signature(mac, key, Unsigned(id)));
    EncodeThenParse(id, key, mac);
  }

  // ---- The source's loop ----

  method CollectValues(segments: seq<Text>) returns (values: Option<seq<Text>>)
    ensures values == if WellLaidOut(segments) then Some(SegmentValues(segments)) else None
  {
    if |segments| != 11 || segments[0] != SCHEMA {
      return None;
    }
    var found: seq<Text> := [];
    for i := 0 to 10
      invariant |found| == i
      invariant forall k :: 0 <= k < i ==> SegmentValue(segments[k + 1], NAMES[k]) == Some(found[k])
    {
      var value := SegmentValue(segments[i + 1], NAMES[i]);
      if value.None? {
        return None;
      }
      found := found + [value.value];
    }
    assert found == SegmentValues(segments);
    return Some(found);
  }

  // ---- Ports ----

  function ValidateListenPort(id: Identity, basePort: nat, actual: nat): Option<IdentityError> {
    if basePort + id.slot > U16_MAX then Some(PortOverflow)
    else if basePort + id.slot != actual then Some(PortSlotMismatch(basePort + id.slot, actual))
    else None
  }
}
