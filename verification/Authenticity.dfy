/**
 * What an accepted stream identity of `crates/stream-identity/src/lib.rs` says: its
 * exact text, and that the signature covers every octet of it under the key.
 */
module Authenticity {
  import opened Common
  import opened StreamIdentity
  import opened Text
  import Base64

  const SIG: Text := ";sig="
  const RMC1: Text := "rmc1"
  const EMB: Text := ";emb="
  const EDGE: Text := ";edge="
  const BOOT: Text := ";boot="
  const SID: Text := ";sid="
  const CID: Text := ";cid="
  const SLOT: Text := ";slot="
  const EPOCH: Text := ";epoch="
  const ROLE: Text := ";role="
  const CODEC: Text := ";codec="
  const ANCHOR_WORD: Text := "anchor"
  const SECONDARY_WORD: Text := "secondary"
  const H264_WORD: Text := "h264"
  const H265_WORD: Text := "h265"

  function Field(tag: Text, value: Text, rest: Text): Text { tag + value + rest }

  /** The signed text of an identity, field by field. */
  function Spelling(id: Identity): Text {
    Field(RMC1, [], Field(EMB, EncodeText(id.embodimentId), Field(EDGE, EncodeText(id.edgeInstanceId), FromBoot(id))))
  }

  function FromBoot(id: Identity): Text {
    Field(BOOT, Hyphenated(id.edgeBootId), Field(SID, Hyphenated(id.sessionId), Field(CID, EncodeText(id.cameraId), FromSlot(id))))
  }

  function FromSlot(id: Identity): Text {
    Field(SLOT, Decimal(id.slot), Field(EPOCH, Decimal(id.epoch), FromRole(id)))
  }

  function FromRole(id: Identity): Text {
    var codec := Field(CODEC, if id.codec.H264? then H264_WORD else H265_WORD, []);
    Field(ROLE, if id.role.Anchor? then ANCHOR_WORD else SECONDARY_WORD, codec)
  }

  function WithSignature(u: Text, s: Text): Text { u + SIG + s }

  lemma JoinFrom(parts: seq<Text>, k: nat)
    requires k < |parts|
    ensures [';'] + JoinOn(parts[k..], ';') ==
            [';'] + parts[k] + (if k + 1 == |parts| then [] else [';'] + JoinOn(parts[k + 1..], ';'))
  {
    if k + 1 < |parts| {
      assert parts[k..][1..] == parts[k + 1..];
      var rest := JoinOn(parts[k + 1..], ';');
      ConcatAssociates([';'], parts[k] + [';'], rest);
      ConcatAssociates(parts[k], [';'], rest);
      ConcatAssociates([';'], parts[k], [';'] + rest);
    } else {
      assert [';'] + parts[k] + [] == [';'] + parts[k];
    }
  }

  lemma Labelled(tag: Text, name: Text, value: Text)
    requires tag == [';'] + name + "="
    ensures [';'] + (name + "=" + value) == tag + value
  {
    ConcatAssociates([';'], name + "=", value);
    ConcatAssociates([';'], name, "=");
  }

  lemma UnsignedIs(id: Identity)
    ensures Unsigned(id) == Spelling(id)
  {
    hide JoinOn, EncodeText, Hyphenated, Decimal, Field;
    var values := FieldValues(id);
    var parts := Segments(values);
    SegmentTail(values, parts, 8, CODEC);
    SegmentTail(values, parts, 7, ROLE);
    SegmentTail(values, parts, 6, EPOCH);
    SegmentTail(values, parts, 5, SLOT);
    SegmentTail(values, parts, 4, CID);
    SegmentTail(values, parts, 3, SID);
    SegmentTail(values, parts, 2, BOOT);
    SegmentTail(values, parts, 1, EDGE);
    SegmentTail(values, parts, 0, EMB);
    WholeJoin(parts);
  }

  /** A segment, its tag, and what follows it. */
  lemma SegmentTail(values: seq<Text>, parts: seq<Text>, k: nat, tag: Text)
    requires |values| == 9 && parts == Segments(values) && k < 9 && tag == [';'] + NAMES[k] + "="
    ensures [';'] + JoinOn(parts[k + 1..], ';') ==
            Field(tag, values[k], if k == 8 then [] else [';'] + JoinOn(parts[k + 2..], ';'))
  {
    hide JoinOn;
    assert parts[k + 1] == NAMES[k] + "=" + values[k];
    JoinFrom(parts, k + 1);
    Labelled(tag, NAMES[k], values[k]);
  }

  lemma WholeJoin(parts: seq<Text>)
    requires |parts| == 10 && parts[0] == "rmc1"
    ensures JoinOn(parts, ';') == Field(RMC1, [], [';'] + JoinOn(parts[1..], ';'))
  {
    ConcatAssociates(parts[0], [';'], JoinOn(parts[1..], ';'));
    assert parts[0] + [] == parts[0];
  }

  /** The text that carries identity `id` under a key. */
  function SignedText(id: Identity, key: seq<Byte>, mac: Mac): Text {
    WithSignature(Spelling(id), Base64.Encode(mac(key, Spelling(id))[..16]))
  }

  predicate CleanText(value: Text) { value != [] && !HasControl(value) }

  /** The identity's three texts are not empty and hold no control character. */
  predicate CleanTexts(id: Identity) {
    CleanText(id.embodimentId) && CleanText(id.edgeInstanceId) && CleanText(id.cameraId)
  }

  /**
   * Exactly what is accepted: the spelling of an identity with clean texts, followed by the
   * first 16 bytes of the MAC of that very spelling under the key, within 256 octets. The
   * encoder produces exactly the same text.
   */
  lemma AcceptedExactlyWhen(raw: Text, id: Identity, key: seq<Byte>, mac: Mac)
    requires WellTyped(id)
    ensures ParseAndVerify(raw, key, mac) == Ok(id) <==>
            CleanTexts(id) && raw == SignedText(id, key, mac) && |raw| <= 256
    ensures EncodeSigned(id, key, mac) == Ok(raw) <==>
            CleanTexts(id) && raw == SignedText(id, key, mac) && |raw| <= 256
  {
    hide ParseAndVerify, HasControl, Spelling, Unsigned, Base64.Encode, WellTyped;
    UnsignedIs(id);
    ExactInverses(raw, id, key, mac);
  }

  /** What is wrong with a text, if anything. */
  function Fault(field: string, value: Text): Option<IdentityError> {
    if value == [] then Some(Empty(field)) else if HasControl(value) then Some(Encoding(field)) else None
  }

  /** The signed text of an identity, or the first of its faults; and a text over the limit is not read at all. */
  lemma PrintedOrRefused(raw: Text, id: Identity, key: seq<Byte>, mac: Mac)
    ensures |raw| > 256 ==> ParseAndVerify(raw, key, mac) == Err(TooLong(256, |raw|))
    ensures var emb, edge, cid := Fault("emb", id.embodimentId), Fault("edge", id.edgeInstanceId), Fault("cid", id.cameraId);
            var text := SignedText(id, key, mac);
            EncodeSigned(id, key, mac) ==
            if emb.Some? then Err(emb.value) else if edge.Some? then Err(edge.value) else if cid.Some? then Err(cid.value)
            else if |text| > 256 then Err(TooLong(256, |text|)) else Ok(text)
  {
    hide Spelling, Unsigned, Base64.Encode, HasControl;
    UnsignedIs(id);
    assert Signed(id, key, mac) == SignedText(id, key, mac);
    hide Signed, SignedText;
  }

  /** `s` is the encoded signature of `u`. */
  predicate SignedBy(s: Text, u: Text, key: seq<Byte>, mac: Mac) { Base64.Decode(s) == Some(mac(key, u)[..16]) }

  /** Every accepted text is such a text, and its signature decodes to the MAC of what stands before it. */
  lemma AcceptedIsSigned(raw: Text, id: Identity, key: seq<Byte>, mac: Mac) returns (s: Text)
    requires ParseAndVerify(raw, key, mac) == Ok(id)
    ensures raw == WithSignature(Spelling(id), s) && |raw| <= 256
    ensures SignedBy(s, Spelling(id), key, mac) && ';' !in s && s != []
  {
    hide ParseAndVerify, Spelling, Base64.Encode, Base64.Decode, WellTyped, WithSignature;
    ParseThenEncode(raw, key, mac);
    AcceptedExactlyWhen(raw, id, key, mac);
    var digest := mac(key, Spelling(id))[..16];
    s := Base64.Encode(digest);
    SignatureText(digest);
  }

  lemma SameSeam(u: Text, s: Text, v: Text, t: Text)
    requires ';' !in s && ';' !in t && WithSignature(u, s) == WithSignature(v, t)
    ensures u == v && s == t
  {
    hide RFind;
    SeamFound(u, s);
    SeamFound(v, t);
    var raw := WithSignature(u, s);
    assert raw[..|u|] == u && raw[|u| + 5..] == s;
    assert raw[..|v|] == v && raw[|v| + 5..] == t;
  }

  /**
   * Tampering is refused: the signature of an accepted text does not carry over to another
   * text, unless the MAC of the other text happens to begin with the same 16 bytes.
   */
  lemma TamperedIsRefused(u: Text, s: Text, other: Text, key: seq<Byte>, mac: Mac)
    requires ';' !in s && ParseAndVerify(WithSignature(u, s), key, mac).Ok?
    requires mac(key, other)[..16] != mac(key, u)[..16]
    ensures ParseAndVerify(WithSignature(other, s), key, mac).Err?
  {
    hide ParseAndVerify, Spelling, Base64.Decode, WithSignature;
    var id := ParseAndVerify(WithSignature(u, s), key, mac).value;
    var t := AcceptedIsSigned(WithSignature(u, s), id, key, mac);
    SameSeam(u, s, Spelling(id), t);
    var forged := ParseAndVerify(WithSignature(other, s), key, mac);
    if forged.Ok? {
      var t' := AcceptedIsSigned(WithSignature(other, s), forged.value, key, mac);
      SameSeam(other, s, Spelling(forged.value), t');
    }
  }

  /** And if the other text is the spelling of any identity within the size limit, the answer is `Authentication`. */
  lemma ForgeryIsUnauthentic(id: Identity, s: Text, key: seq<Byte>, mac: Mac)
    requires id.slot <= U16_MAX && id.epoch <= U32_MAX && CleanTexts(id)
    requires s != [] && ';' !in s && |WithSignature(Spelling(id), s)| <= 256
    requires !SignedBy(s, Spelling(id), key, mac)
    ensures ParseAndVerify(WithSignature(Spelling(id), s), key, mac) == Err(Authentication)
  {
    hide SplitOn, JoinOn, ReadFields, WellLaidOut, SegmentValues, Segments, FieldValues, RFind, Base64.Decode, Spelling, HasControl;
    UnsignedIs(id);
    var values := FieldValues(id) + [s];
    WireIsClean(id);
    assert forall i :: 0 <= i < 10 ==> values[i] != [] && ';' !in values[i];
    SegmentsRoundTrip(values);
    assert values[..9] == FieldValues(id);
    SignatureSeam(values);
    var raw := WithSignature(Spelling(id), s);
    assert raw[..|Spelling(id)|] == Spelling(id);
  }
}
