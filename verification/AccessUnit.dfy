/**
 * The two injectors and the inspector of `crates/metadata-codec`: what the
 * Edge writes into an access unit is what the Receiver reads out of it.
 */
module AccessUnit {
  import opened Common
  import opened AnnexB
  import opened Sei

  const MAX_SEI_MESSAGES_PER_AU := 64

  const SYNC_TIMESTAMP_UUID: Uuid :=
    [0x4a, 0x11, 0x91, 0xe6, 0x95, 0x78, 0x53, 0xb3, 0x92, 0xa7, 0x04, 0xc0, 0x49, 0xfe, 0x0d, 0x5b]
  const ANCHOR_CONTEXT_UUID: Uuid :=
    [0x62, 0xef, 0x08, 0xbb, 0x2e, 0xb4, 0x59, 0xfb, 0xb8, 0x3f, 0xf8, 0xf8, 0x74, 0xa8, 0x00, 0x43]
  const SESSION_MANIFEST_UUID: Uuid :=
    [0x79, 0x1a, 0x8f, 0xc5, 0xd0, 0xc3, 0x5a, 0xbf, 0x81, 0xda, 0xab, 0xf7, 0xf0, 0x37, 0x31, 0x94]

  // ---- The timestamp message ----

  /** The `n` low-order bytes of `value`, least significant first. */
  function LittleEndian(value: nat, n: nat): seq<Byte>
    decreases n
  {
    if n == 0 then [] else [value % 256] + LittleEndian(value / 256, n - 1)
  }

  function FromLittleEndian(s: seq<Byte>): nat {
    if s == [] then 0 else s[0] + 256 * FromLittleEndian(s[1..])
  }

  /** Protobuf wire form of `SyncTimestampV1` with a non-zero time: key 0x09, then a fixed64. */
  function TimestampBytes(t: nat): seq<Byte> {
    [9] + LittleEndian(t, 8)
  }

  /** Protobuf decoding of `SyncTimestampV1`, whose general form is library code. */
  type TimestampDecoder = seq<Byte> -> Option<nat>

  /** All that is asked of the decoder: it reads what the encoder writes. */
  ghost predicate ReadsTimestamps(decode: TimestampDecoder) {
    forall t: nat :: 0 < t <= U64_MAX ==> decode(TimestampBytes(t)) == Some(t)
  }

  function EncodeTimestamp(t: nat): Result<seq<Byte>, CodecError> {
    if t == 0 then Err(ZeroTimestamp) else Ok(TimestampBytes(t))
  }

  function DecodeTimestamp(decode: TimestampDecoder, bytes: seq<Byte>): Result<nat, CodecError> {
    if |bytes| >= 16 then Err(PayloadTooLarge(15, |bytes|))
    else
      match decode(bytes)
      case None => Err(Protobuf)
      case Some(t) => if t == 0 then Err(ZeroTimestamp) else Ok(t)
  }

  function Pow256(n: nat): nat {
    if n == 0 then 1 else 256 * Pow256(n - 1)
  }

  lemma {:induction false} LittleEndianRoundTrip(value: nat, n: nat)
    requires value < Pow256(n)
    ensures |LittleEndian(value, n)| == n && FromLittleEndian(LittleEndian(value, n)) == value
    decreases n
  {
    if n > 0 {
      LittleEndianRoundTrip(value / 256, n - 1);
      assert LittleEndian(value, n)[1..] == LittleEndian(value / 256, n - 1);
    }
  }

  /** The decoder that accepts exactly the nine-byte form. */
  function CanonicalTimestamp(bytes: seq<Byte>): Option<nat> {
    if |bytes| == 9 && bytes[0] == 9 then Some(FromLittleEndian(bytes[1..])) else None
  }

  lemma TimestampLength(t: nat)
    ensures |TimestampBytes(t)| == 9
  {
    LittleEndianLength(t, 8);
  }

  lemma {:induction false} LittleEndianLength(value: nat, n: nat)
    ensures |LittleEndian(value, n)| == n
    decreases n
  {
    if n > 0 {
      LittleEndianLength(value / 256, n - 1);
    }
  }

  /** So the law asked of the decoder can be met. */
  lemma CanonicalReadsTimestamps()
    ensures ReadsTimestamps(CanonicalTimestamp)
  {
    assert Pow256(8) == U64_MAX + 1 by {
      assert Pow256(2) == 0x1_0000;
      assert Pow256(4) == 0x1_0000_0000;
      assert Pow256(6) == 0x1_0000_0000_0000;
    }
    forall t: nat | 0 < t <= U64_MAX
      ensures CanonicalTimestamp(TimestampBytes(t)) == Some(t)
    {
      LittleEndianRoundTrip(t, 8);
      assert TimestampBytes(t)[1..] == LittleEndian(t, 8);
    }
  }

  // ---- Inspecting ----

  datatype Inspected = Inspected(timestamp: nat, messages: seq<Message>)

  function MessagesOf(nal: Nal): Option<seq<Message>> {
    if NalType(nal) == NAL_SEI then ParseSei(nal) else Some([])
  }

  /** Every message of every SEI unit, in stream order; `None` when one does not parse. */
  function AllMessages(nals: seq<Nal>): Option<seq<Message>> {
    if nals == [] then Some([])
    else
      match MessagesOf(nals[0])
      case None => None
      case Some(head) => Append(head, AllMessages(nals[1..]))
  }

  function WithUuid(messages: seq<Message>, uuid: Uuid): seq<Message> {
    if messages == [] then []
    else (if messages[0].uuid == uuid then [messages[0]] else []) + WithUuid(messages[1..], uuid)
  }

  predicate Semantic(m: Message) {
    m.uuid == ANCHOR_CONTEXT_UUID || m.uuid == SESSION_MANIFEST_UUID
  }

  function FirstSemantic(messages: seq<Message>): Option<Message> {
    if messages == [] then None
    else if Semantic(messages[0]) then Some(messages[0])
    else FirstSemantic(messages[1..])
  }

  function Judge(messages: seq<Message>, secondary: bool, decode: TimestampDecoder)
    : Result<Option<Inspected>, CodecError>
  {
    var stamps := WithUuid(messages, SYNC_TIMESTAMP_UUID);
    if stamps == [] then Ok(None)
    else if |stamps| != 1 then Err(TimestampCount(|stamps|))
    else if secondary && FirstSemantic(messages).Some? then
      Err(SecondarySemanticMetadata(FirstSemantic(messages).value.uuid))
    else
      var t :- DecodeTimestamp(decode, stamps[0].payload);
      Ok(Some(Inspected(t, messages)))
  }

  function Inspect(accessUnit: seq<Byte>, secondary: bool, decode: TimestampDecoder)
    : Result<Option<Inspected>, CodecError>
  {
    var nals :- Split(accessUnit);
    match AllMessages(nals)
    case None => Err(MalformedSei)
    case Some(messages) =>
      if |messages| > MAX_SEI_MESSAGES_PER_AU then Err(MalformedSei) else Judge(messages, secondary, decode)
  }

  // ---- What a verdict means ----

  /** The positions of the messages with this UUID. */
  ghost function Positions(messages: seq<Message>, uuid: Uuid): set<nat> {
    set i: nat | i < |messages| && messages[i].uuid == uuid
  }

  /** `j` is the first position that holds one of the two UUIDs. */
  ghost predicate FirstOf(messages: seq<Message>, j: nat, a: Uuid, b: Uuid) {
    && j < |messages| && (messages[j].uuid == a || messages[j].uuid == b)
    && forall i :: 0 <= i < j ==> messages[i].uuid != a && messages[i].uuid != b
  }

  lemma {:induction false} WithUuidAt(messages: seq<Message>, uuid: Uuid)
    ensures |WithUuid(messages, uuid)| == |Positions(messages, uuid)|
    ensures forall i :: Positions(messages, uuid) == {i} ==> WithUuid(messages, uuid) == [messages[i]]
  {
    if messages == [] {
      assert Positions(messages, uuid) == {};
    } else {
      var front, last := messages[..|messages| - 1], messages[|messages| - 1];
      assert messages == front + [last];
      WithUuidAt(front, uuid);
      WithUuidAppend(front, [last], uuid);
      assert WithUuid([last], uuid) == if last.uuid == uuid then [last] else [];
      PositionsSnoc(front, last, uuid);
      if last.uuid == uuid && Positions(messages, uuid) == {|front|} {
        assert Positions(front, uuid) == {};
      }
    }
  }

  lemma PositionsSnoc(front: seq<Message>, last: Message, uuid: Uuid)
    ensures Positions(front + [last], uuid) == Positions(front, uuid) + (if last.uuid == uuid then {|front|} else {})
    ensures |front| !in Positions(front, uuid)
  {
    var all := front + [last];
    assert forall i: nat :: i < |front| ==> all[i] == front[i];
  }

  lemma {:induction false} FirstSemanticIs(messages: seq<Message>)
    ensures FirstSemantic(messages).None? <==>
            forall i :: 0 <= i < |messages| ==>
              messages[i].uuid != ANCHOR_CONTEXT_UUID && messages[i].uuid != SESSION_MANIFEST_UUID
    ensures forall j: nat :: FirstOf(messages, j, ANCHOR_CONTEXT_UUID, SESSION_MANIFEST_UUID) ==>
              FirstSemantic(messages) == Some(messages[j])
  {
    if messages != [] {
      var tail := messages[1..];
      FirstSemanticIs(tail);
      assert forall i :: 1 <= i < |messages| ==> messages[i] == tail[i - 1];
      forall j: nat | FirstOf(messages, j, ANCHOR_CONTEXT_UUID, SESSION_MANIFEST_UUID)
        ensures FirstSemantic(messages) == Some(messages[j])
      {
        if j > 0 {
          assert FirstOf(tail, j - 1, ANCHOR_CONTEXT_UUID, SESSION_MANIFEST_UUID);
        }
      }
    }
  }

  /**
   * The verdict on an access unit with at most 64 messages, from the messages alone:
   * nothing without a timestamp message, an error with two; with exactly one, a secondary
   * stream is refused for the first anchor context or manifest message, and otherwise the
   * one timestamp decides.
   */
  lemma InspectMeans(accessUnit: seq<Byte>, messages: seq<Message>, secondary: bool, decode: TimestampDecoder)
    requires Split(accessUnit).Ok? && AllMessages(Split(accessUnit).value) == Some(messages)
    requires |messages| <= MAX_SEI_MESSAGES_PER_AU
    ensures var stamps := Positions(messages, SYNC_TIMESTAMP_UUID);
            var verdict := Inspect(accessUnit, secondary, decode);
            && (stamps == {} ==> verdict == Ok(None))
            && (|stamps| > 1 ==> verdict == Err(TimestampCount(|stamps|)))
            && (forall i :: stamps == {i} && (!secondary || OnlyOrdinary(messages)) ==>
                  var payload := messages[i].payload;
                  verdict == if |payload| >= 16 then Err(PayloadTooLarge(15, |payload|))
                             else if decode(payload).None? then Err(Protobuf)
                             else if decode(payload).value == 0 then Err(ZeroTimestamp)
                             else Ok(Some(Inspected(decode(payload).value, messages))))
            && (forall j: nat :: |stamps| == 1 && secondary
                                 && FirstOf(messages, j, ANCHOR_CONTEXT_UUID, SESSION_MANIFEST_UUID) ==>
                  verdict == Err(SecondarySemanticMetadata(messages[j].uuid)))
  {
    hide Split, AllMessages, WithUuid, FirstSemantic, Positions;
    WithUuidAt(messages, SYNC_TIMESTAMP_UUID);
    FirstSemanticIs(messages);
  }

  // ---- Injecting ----

  predicate IsSlice(nal: Nal) {
    1 <= NalType(nal) <= 5
  }

  function FirstSlice(nals: seq<Nal>): (r: Option<nat>)
    ensures r.Some? ==> r.value < |nals| && IsSlice(nals[r.value])
    ensures forall i :: 0 <= i < (if r.Some? then r.value else |nals|) ==> !IsSlice(nals[i])
  {
    if nals == [] then None
    else if IsSlice(nals[0]) then Some(0)
    else
      match FirstSlice(nals[1..])
      case None => None
      case Some(i) => Some(i + 1)
  }

  function InsertAt(nals: seq<Nal>): nat {
    match FirstSlice(nals)
    case None => 0
    case Some(i) => i
  }

  function SeiNals(messages: seq<Message>): (r: seq<Nal>)
    ensures |r| == |messages| && forall i :: 0 <= i < |r| ==> r[i] == SeiNal(messages[i])
  {
    seq(|messages|, i requires 0 <= i < |messages| => SeiNal(messages[i]))
  }

  /** The units of an access unit with one SEI unit per message in front of unit `at`. */
  function WithSeis(nals: seq<Nal>, at: nat, messages: seq<Message>): seq<Nal>
    requires at <= |nals|
  {
    nals[..at] + SeiNals(messages) + nals[at..]
  }

  function InjectTimestamp(accessUnit: seq<Byte>, t: nat, decode: TimestampDecoder)
    : Result<seq<Byte>, CodecError>
  {
    var inspected :- Inspect(accessUnit, false, decode);
    if inspected.Some? then Err(TimestampCount(2))
    else
      var payload :- EncodeTimestamp(t);
      var nals :- Split(accessUnit);
      SplitIsFramable(accessUnit);
      Ok(Join(WithSeis(nals, InsertAt(nals), [Message(SYNC_TIMESTAMP_UUID, payload)])))
  }

  predicate SharesUuid(messages: seq<Message>, additions: seq<Message>) {
    exists i, j :: 0 <= i < |messages| && 0 <= j < |additions| && messages[i].uuid == additions[j].uuid
  }

  predicate AllEncodable(messages: seq<Message>) {
    forall i :: 0 <= i < |messages| ==> Encodable(messages[i])
  }

  function InjectUserData(accessUnit: seq<Byte>, additions: seq<Message>, decode: TimestampDecoder)
    : Result<seq<Byte>, CodecError>
  {
    var inspected :- Inspect(accessUnit, false, decode);
    if inspected.Some? && SharesUuid(inspected.value.messages, additions) then Err(TimestampCount(2))
    else if !AllEncodable(additions) then Err(MalformedSei)
    else
      var nals :- Split(accessUnit);
      Ok(Join(WithSeis(nals, InsertAt(nals), additions)))
  }

  // ---- What injection does to the units and to the messages ----

  lemma {:induction false} AllMessagesAppend(left: seq<Nal>, right: seq<Nal>)
    ensures AllMessages(left + right) ==
            if AllMessages(left).None? then None else Append(AllMessages(left).value, AllMessages(right))
  {
    if left == [] {
      assert left + right == right;
      assert AllMessages(right).Some? ==> [] + AllMessages(right).value == AllMessages(right).value;
    } else {
      assert (left + right)[1..] == left[1..] + right;
      AllMessagesAppend(left[1..], right);
      if MessagesOf(left[0]).Some? && AllMessages(left[1..]).Some? {
        AppendAppend(MessagesOf(left[0]).value, AllMessages(left[1..]).value, AllMessages(right));
      }
    }
  }

  lemma {:induction false} AllMessagesOfSeis(messages: seq<Message>)
    requires AllEncodable(messages)
    ensures AllMessages(SeiNals(messages)) == Some(messages)
  {
    if messages != [] {
      ParseSeiNal(messages[0]);
      assert SeiNals(messages)[1..] == SeiNals(messages[1..]);
      AllMessagesOfSeis(messages[1..]);
      assert messages == [messages[0]] + messages[1..];
    }
  }

  lemma InjectionSplits(nals: seq<Nal>, at: nat, messages: seq<Message>)
    requires at <= |nals| && nals != [] && AllFramable(nals)
    ensures Split(Join(WithSeis(nals, at, messages))) == Ok(WithSeis(nals, at, messages))
  {
    var all := WithSeis(nals, at, messages);
    forall k | 0 <= k < |all|
      ensures Framable(all[k])
    {
      if at <= k < at + |messages| {
        SeiNalIsFramable(messages[k - at]);
      } else {
        assert all[k] in nals;
      }
    }
    assert |all| >= |nals|;
    SplitJoin(all);
  }

  lemma InjectionMessages(nals: seq<Nal>, at: nat, messages: seq<Message>)
    requires at <= |nals| && AllMessages(nals).Some? && AllEncodable(messages)
    ensures AllMessages(nals[..at]).Some? && AllMessages(nals[at..]).Some?
    ensures AllMessages(nals).value == AllMessages(nals[..at]).value + AllMessages(nals[at..]).value
    ensures AllMessages(WithSeis(nals, at, messages)) ==
            Some(AllMessages(nals[..at]).value + messages + AllMessages(nals[at..]).value)
  {
    hide AllMessages, SeiNals, AllEncodable;
    assert nals == nals[..at] + nals[at..];
    AllMessagesAppend(nals[..at], nals[at..]);
    AllMessagesAppend(nals[..at], SeiNals(messages));
    AllMessagesAppend(nals[..at] + SeiNals(messages), nals[at..]);
    AllMessagesOfSeis(messages);
  }

  lemma {:induction false} WithUuidAppend(left: seq<Message>, right: seq<Message>, uuid: Uuid)
    ensures WithUuid(left + right, uuid) == WithUuid(left, uuid) + WithUuid(right, uuid)
  {
    if left == [] {
      assert left + right == right;
    } else {
      assert (left + right)[1..] == left[1..] + right;
      WithUuidAppend(left[1..], right, uuid);
      var head := if left[0].uuid == uuid then [left[0]] else [];
      assert head + (WithUuid(left[1..], uuid) + WithUuid(right, uuid))
          == head + WithUuid(left[1..], uuid) + WithUuid(right, uuid);
    }
  }

  lemma {:induction false} WithUuidEmpty(messages: seq<Message>, uuid: Uuid)
    ensures WithUuid(messages, uuid) == [] <==> forall i :: 0 <= i < |messages| ==> messages[i].uuid != uuid
  {
    if messages != [] {
      WithUuidEmpty(messages[1..], uuid);
      if forall i :: 0 <= i < |messages[1..]| ==> messages[1..][i].uuid != uuid {
        assert forall i :: 1 <= i < |messages| ==> messages[i] == messages[1..][i - 1];
      }
    }
  }

  /** One timestamp among messages that carry none: the judgement is exactly that time. */
  lemma JudgeOneStamp(left: seq<Message>, t: nat, right: seq<Message>, secondary: bool, decode: TimestampDecoder)
    requires ReadsTimestamps(decode) && 0 < t <= U64_MAX
    requires WithUuid(left, SYNC_TIMESTAMP_UUID) == [] && WithUuid(right, SYNC_TIMESTAMP_UUID) == []
    ensures var all := left + [Message(SYNC_TIMESTAMP_UUID, TimestampBytes(t))] + right;
            Judge(all, secondary, decode) ==
            if secondary && FirstSemantic(all).Some? then Err(SecondarySemanticMetadata(FirstSemantic(all).value.uuid))
            else Ok(Some(Inspected(t, all)))
  {
    var stamp := Message(SYNC_TIMESTAMP_UUID, TimestampBytes(t));
    WithUuidAppend(left, [stamp], SYNC_TIMESTAMP_UUID);
    WithUuidAppend(left + [stamp], right, SYNC_TIMESTAMP_UUID);
    assert WithUuid([stamp], SYNC_TIMESTAMP_UUID) == [stamp];
    TimestampLength(t);
  }

  lemma FirstSliceUnique(nals: seq<Nal>, k: nat)
    requires k < |nals| && IsSlice(nals[k]) && forall i :: 0 <= i < k ==> !IsSlice(nals[i])
    ensures FirstSlice(nals) == Some(k)
  {
    hide FirstSlice, IsSlice;
    var r := FirstSlice(nals);
    assert r.Some? && r.value >= k;
  }

  /** SEI units in front of the first slice move it back by their number. */
  lemma FirstSliceMoves(nals: seq<Nal>, k: nat, messages: seq<Message>)
    requires FirstSlice(nals) == Some(k)
    ensures FirstSlice(WithSeis(nals, k, messages)) == Some(k + |messages|)
  {
    var all := WithSeis(nals, k, messages);
    forall i | 0 <= i < k + |messages|
      ensures !IsSlice(all[i])
    {
      if i < k {
        assert all[i] == nals[i];
      } else {
        assert all[i] == SeiNal(messages[i - k]);
        assert NalType(all[i]) == 6;
      }
    }
    FirstSliceUnique(all, k + |messages|);
  }

  // ---- The main theorems ----

  /** The units and messages behind a clean access unit without a timestamp. */
  lemma CleanUnit(accessUnit: seq<Byte>, decode: TimestampDecoder)
    requires Inspect(accessUnit, false, decode) == Ok(None)
    ensures Split(accessUnit).Ok? && AllMessages(Split(accessUnit).value).Some?
    ensures var nals := Split(accessUnit).value; var before := AllMessages(nals).value;
            && nals != [] && AllFramable(nals)
            && |before| <= MAX_SEI_MESSAGES_PER_AU && WithUuid(before, SYNC_TIMESTAMP_UUID) == []
  {
    SplitIsFramable(accessUnit);
  }

  /** The enriched units: the timestamp and then the additions, in front of unit `at`. */
  function EnrichedUnits(nals: seq<Nal>, at: nat, t: nat, additions: seq<Message>): seq<Nal>
    requires at <= |nals|
  {
    WithSeis(nals, at, [Message(SYNC_TIMESTAMP_UUID, TimestampBytes(t))] + additions)
  }

  function EnrichedMessages(nals: seq<Nal>, at: nat, t: nat, additions: seq<Message>): seq<Message>
    requires at <= |nals| && AllMessages(nals[..at]).Some? && AllMessages(nals[at..]).Some?
  {
    AllMessages(nals[..at]).value + ([Message(SYNC_TIMESTAMP_UUID, TimestampBytes(t))] + additions)
      + AllMessages(nals[at..]).value
  }

  /** Injecting twice at the first slice is injecting once with both lists in order. */
  lemma WithSeisTwice(nals: seq<Nal>, k: nat, first: seq<Message>, second: seq<Message>)
    requires k <= |nals|
    ensures WithSeis(WithSeis(nals, k, first), k + |first|, second) == WithSeis(nals, k, first + second)
  {
    hide SeiNal;
    var once := WithSeis(nals, k, first);
    assert once[..k + |first|] == nals[..k] + SeiNals(first);
    assert once[k + |first|..] == nals[k..];
    assert SeiNals(first + second) == SeiNals(first) + SeiNals(second);
  }

  lemma StampedUnit(accessUnit: seq<Byte>, t: nat, decode: TimestampDecoder)
    requires t > 0 && Inspect(accessUnit, false, decode) == Ok(None)
    ensures var nals := Split(accessUnit).value;
            && InsertAt(nals) <= |nals|
            && InjectTimestamp(accessUnit, t, decode) ==
               Ok(Join(WithSeis(nals, InsertAt(nals), [Message(SYNC_TIMESTAMP_UUID, TimestampBytes(t))])))
  {
  }

  lemma AddedToUnit(accessUnit: seq<Byte>, nals: seq<Nal>, k: nat, additions: seq<Message>, decode: TimestampDecoder)
    requires Split(accessUnit) == Ok(nals) && FirstSlice(nals) == Some(k)
    requires Inspect(accessUnit, false, decode).Ok? && Inspect(accessUnit, false, decode).value.Some?
    requires !SharesUuid(Inspect(accessUnit, false, decode).value.value.messages, additions)
    requires AllEncodable(additions)
    ensures InjectUserData(accessUnit, additions, decode) == Ok(Join(WithSeis(nals, k, additions)))
  {
  }

  /** The messages of the enriched units. */
  lemma EnrichedParse(nals: seq<Nal>, at: nat, t: nat, additions: seq<Message>)
    requires at <= |nals| && nals != [] && AllFramable(nals) && AllMessages(nals).Some? && AllEncodable(additions)
    ensures AllMessages(nals[..at]).Some? && AllMessages(nals[at..]).Some?
    ensures AllMessages(nals).value == AllMessages(nals[..at]).value + AllMessages(nals[at..]).value
    ensures var units := EnrichedUnits(nals, at, t, additions);
            Split(Join(units)) == Ok(units) && AllMessages(units) == Some(EnrichedMessages(nals, at, t, additions))
  {
    hide Split, Join, AllMessages, AllFramable, WithSeis;
    var stamp := Message(SYNC_TIMESTAMP_UUID, TimestampBytes(t));
    TimestampLength(t);
    var inserted := [stamp] + additions;
    assert AllEncodable(inserted);
    InjectionSplits(nals, at, inserted);
    InjectionMessages(nals, at, inserted);
  }

  /** The judgement on them: that time, unless a secondary stream carries anchor messages. */
  lemma EnrichedJudge(
      left: seq<Message>, t: nat, additions: seq<Message>, right: seq<Message>, secondary: bool, decode: TimestampDecoder)
    requires ReadsTimestamps(decode) && 0 < t <= U64_MAX
    requires WithUuid(left + right, SYNC_TIMESTAMP_UUID) == [] && WithUuid(additions, SYNC_TIMESTAMP_UUID) == []
    ensures var all := left + ([Message(SYNC_TIMESTAMP_UUID, TimestampBytes(t))] + additions) + right;
            Judge(all, secondary, decode) ==
            if secondary && FirstSemantic(all).Some? then Err(SecondarySemanticMetadata(FirstSemantic(all).value.uuid))
            else Ok(Some(Inspected(t, all)))
  {
    hide Judge, WithUuid, FirstSemantic, TimestampBytes, ReadsTimestamps;
    var stamp := Message(SYNC_TIMESTAMP_UUID, TimestampBytes(t));
    WithUuidAppend(left, right, SYNC_TIMESTAMP_UUID);
    WithUuidAppend(additions, right, SYNC_TIMESTAMP_UUID);
    assert left + ([stamp] + additions) + right == left + [stamp] + (additions + right);
    JudgeOneStamp(left, t, additions + right, secondary, decode);
  }

  /**
   * What the inspector says of the enriched units: lossless up to 64 messages, refused
   * beyond, and refused with the offending UUID for a secondary stream that carries
   * anchor context or manifest messages.
   */
  lemma InspectEnriched(nals: seq<Nal>, at: nat, t: nat, additions: seq<Message>, secondary: bool, decode: TimestampDecoder)
    requires ReadsTimestamps(decode) && 0 < t <= U64_MAX
    requires at <= |nals| && nals != [] && AllFramable(nals) && AllMessages(nals).Some?
    requires WithUuid(AllMessages(nals).value, SYNC_TIMESTAMP_UUID) == []
    requires AllEncodable(additions) && WithUuid(additions, SYNC_TIMESTAMP_UUID) == []
    ensures AllMessages(nals[..at]).Some? && AllMessages(nals[at..]).Some?
    ensures AllMessages(nals).value == AllMessages(nals[..at]).value + AllMessages(nals[at..]).value
    ensures var all := EnrichedMessages(nals, at, t, additions);
            && |all| == |AllMessages(nals).value| + 1 + |additions|
            && Inspect(Join(EnrichedUnits(nals, at, t, additions)), secondary, decode) ==
               if |all| > MAX_SEI_MESSAGES_PER_AU then Err(MalformedSei)
               else if secondary && FirstSemantic(all).Some? then Err(SecondarySemanticMetadata(FirstSemantic(all).value.uuid))
               else Ok(Some(Inspected(t, all)))
    ensures var all := EnrichedMessages(nals, at, t, additions);
            var verdict := Inspect(Join(EnrichedUnits(nals, at, t, additions)), secondary, decode);
            |all| <= MAX_SEI_MESSAGES_PER_AU ==>
              && (!secondary || OnlyOrdinary(all) ==> verdict == Ok(Some(Inspected(t, all))))
              && forall j: nat :: secondary && FirstOf(all, j, ANCHOR_CONTEXT_UUID, SESSION_MANIFEST_UUID) ==>
                   verdict == Err(SecondarySemanticMetadata(all[j].uuid))
  {
    hide Split, Join, AllMessages, AllFramable, EnrichedUnits, Judge, WithUuid;
    EnrichedParse(nals, at, t, additions);
    EnrichedJudge(AllMessages(nals[..at]).value, t, additions, AllMessages(nals[at..]).value, secondary, decode);
    FirstSemanticIs(EnrichedMessages(nals, at, t, additions));
  }

  /**
   * Enrich then inspect is lossless: the Receiver gets back the time, every old
   * message and every addition in order, and every original NAL unit unchanged; on a
   * secondary stream too, if no message is an anchor context or a manifest chunk.
   */
  lemma EnrichThenInspect(
      accessUnit: seq<Byte>, t: nat, additions: seq<Message>, secondary: bool, decode: TimestampDecoder)
    requires ReadsTimestamps(decode) && 0 < t <= U64_MAX
    requires Inspect(accessUnit, false, decode) == Ok(None)
    requires FirstSlice(Split(accessUnit).value).Some?
    requires AllEncodable(additions)
    requires !SharesUuid(AllMessages(Split(accessUnit).value).value, additions)
    requires WithUuid(additions, SYNC_TIMESTAMP_UUID) == []
    requires |AllMessages(Split(accessUnit).value).value| + 1 + |additions| <= MAX_SEI_MESSAGES_PER_AU
    ensures InjectTimestamp(accessUnit, t, decode).Ok?
    ensures var nals := Split(accessUnit).value;
            var k := FirstSlice(nals).value;
            var stamp := Message(SYNC_TIMESTAMP_UUID, TimestampBytes(t));
            var enriched := InjectUserData(InjectTimestamp(accessUnit, t, decode).value, additions, decode);
            && enriched.Ok?
            && Split(enriched.value) == Ok(nals[..k] + [SeiNal(stamp)] + SeiNals(additions) + nals[k..])
            && AllMessages(nals[..k]).Some? && AllMessages(nals[k..]).Some?
            && AllMessages(nals).value == AllMessages(nals[..k]).value + AllMessages(nals[k..]).value
            && (!secondary || (OnlyOrdinary(AllMessages(nals).value) && OnlyOrdinary(additions)) ==>
                  Inspect(enriched.value, secondary, decode) ==
                  Ok(Some(Inspected(t, AllMessages(nals[..k]).value + ([stamp] + additions) + AllMessages(nals[k..]).value))))
  {
    CleanUnit(accessUnit, decode);
    var nals := Split(accessUnit).value;
    var k := FirstSlice(nals).value;
    EnrichUnits(accessUnit, nals, k, t, additions, decode);
    InspectEnriched(nals, k, t, additions, secondary, decode);
    EnrichedSplit(nals, k, t, additions);
    if OnlyOrdinary(AllMessages(nals).value) && OnlyOrdinary(additions) {
      OrdinaryStays(AllMessages(nals[..k]).value, t, additions, AllMessages(nals[k..]).value);
    }
  }

  /** No message is an anchor context or a manifest chunk. */
  ghost predicate OnlyOrdinary(messages: seq<Message>) {
    forall i :: 0 <= i < |messages| ==>
      messages[i].uuid != ANCHOR_CONTEXT_UUID && messages[i].uuid != SESSION_MANIFEST_UUID
  }

  lemma OrdinaryStays(left: seq<Message>, t: nat, additions: seq<Message>, right: seq<Message>)
    requires OnlyOrdinary(left + right) && OnlyOrdinary(additions)
    ensures FirstSemantic(left + ([Message(SYNC_TIMESTAMP_UUID, TimestampBytes(t))] + additions) + right).None?
  {
    hide FirstSemantic;
    var stamp := Message(SYNC_TIMESTAMP_UUID, TimestampBytes(t));
    var all := left + ([stamp] + additions) + right;
    assert SYNC_TIMESTAMP_UUID[0] != ANCHOR_CONTEXT_UUID[0] && SYNC_TIMESTAMP_UUID[0] != SESSION_MANIFEST_UUID[0];
    forall i | 0 <= i < |all|
      ensures all[i].uuid != ANCHOR_CONTEXT_UUID && all[i].uuid != SESSION_MANIFEST_UUID
    {
      if i < |left| {
        assert all[i] == (left + right)[i];
      } else if i > |left| + |additions| {
        assert all[i] == (left + right)[i - 1 - |additions|];
      } else if i > |left| {
        assert all[i] == additions[i - |left| - 1];
      }
    }
    FirstSemanticIs(all);
  }

  lemma EnrichUnits(
      accessUnit: seq<Byte>, nals: seq<Nal>, k: nat, t: nat, additions: seq<Message>, decode: TimestampDecoder)
    requires ReadsTimestamps(decode) && 0 < t <= U64_MAX
    requires Inspect(accessUnit, false, decode) == Ok(None)
    requires Split(accessUnit) == Ok(nals) && nals != [] && AllFramable(nals) && FirstSlice(nals) == Some(k)
    requires AllMessages(nals).Some? && |AllMessages(nals).value| < MAX_SEI_MESSAGES_PER_AU
    requires WithUuid(AllMessages(nals).value, SYNC_TIMESTAMP_UUID) == []
    requires AllEncodable(additions) && WithUuid(additions, SYNC_TIMESTAMP_UUID) == []
    requires !SharesUuid(AllMessages(nals).value, additions)
    ensures InjectTimestamp(accessUnit, t, decode) == Ok(Join(EnrichedUnits(nals, k, t, [])))
    ensures InjectUserData(Join(EnrichedUnits(nals, k, t, [])), additions, decode) ==
            Ok(Join(EnrichedUnits(nals, k, t, additions)))
  {
    var stamp := [Message(SYNC_TIMESTAMP_UUID, TimestampBytes(t))];
    assert stamp + [] == stamp;
    StampedUnit(accessUnit, t, decode);
    AddToStamped(nals, k, t, additions, decode);
  }

  lemma AddToStamped(nals: seq<Nal>, k: nat, t: nat, additions: seq<Message>, decode: TimestampDecoder)
    requires ReadsTimestamps(decode) && 0 < t <= U64_MAX
    requires nals != [] && AllFramable(nals) && FirstSlice(nals) == Some(k)
    requires AllMessages(nals).Some? && |AllMessages(nals).value| < MAX_SEI_MESSAGES_PER_AU
    requires WithUuid(AllMessages(nals).value, SYNC_TIMESTAMP_UUID) == []
    requires AllEncodable(additions) && WithUuid(additions, SYNC_TIMESTAMP_UUID) == []
    requires !SharesUuid(AllMessages(nals).value, additions)
    ensures InjectUserData(Join(EnrichedUnits(nals, k, t, [])), additions, decode) ==
            Ok(Join(EnrichedUnits(nals, k, t, additions)))
  {
    var stamp := [Message(SYNC_TIMESTAMP_UUID, TimestampBytes(t))];
    assert stamp + [] == stamp;
    var once := WithSeis(nals, k, stamp);
    hide InjectUserData, Inspect, Split, Join, FirstSlice;
    assert WithSeis(once, k + 1, additions) == WithSeis(nals, k, stamp + additions) by {
      WithSeisTwice(nals, k, stamp, additions);
    }
    assert Split(Join(once)) == Ok(once) by { InjectionSplits(nals, k, stamp); }
    assert FirstSlice(once) == Some(k + 1) by { FirstSliceMoves(nals, k, stamp); }
    StampedIsFresh(nals, k, t, additions, decode);
    AddedToUnit(Join(once), once, k + 1, additions, decode);
  }

  lemma StampedIsFresh(nals: seq<Nal>, k: nat, t: nat, additions: seq<Message>, decode: TimestampDecoder)
    requires ReadsTimestamps(decode) && 0 < t <= U64_MAX
    requires nals != [] && AllFramable(nals) && FirstSlice(nals) == Some(k)
    requires AllMessages(nals).Some? && |AllMessages(nals).value| < MAX_SEI_MESSAGES_PER_AU
    requires WithUuid(AllMessages(nals).value, SYNC_TIMESTAMP_UUID) == []
    requires WithUuid(additions, SYNC_TIMESTAMP_UUID) == []
    requires !SharesUuid(AllMessages(nals).value, additions)
    ensures var verdict := Inspect(Join(EnrichedUnits(nals, k, t, [])), false, decode);
            verdict.Ok? && verdict.value.Some? && !SharesUuid(verdict.value.value.messages, additions)
  {
    var stamp := [Message(SYNC_TIMESTAMP_UUID, TimestampBytes(t))];
    InspectEnriched(nals, k, t, [], false, decode);
    FreshStaysFresh(AllMessages(nals[..k]).value, stamp, AllMessages(nals[k..]).value, additions);
  }

  lemma EnrichedShape(nals: seq<Nal>, k: nat, stamp: Message, additions: seq<Message>)
    requires k <= |nals|
    ensures WithSeis(nals, k, [stamp] + additions) == nals[..k] + [SeiNal(stamp)] + SeiNals(additions) + nals[k..]
  {
    assert SeiNals([stamp] + additions) == [SeiNal(stamp)] + SeiNals(additions);
    assert nals[..k] + ([SeiNal(stamp)] + SeiNals(additions)) == nals[..k] + [SeiNal(stamp)] + SeiNals(additions);
  }

  lemma EnrichedSplit(nals: seq<Nal>, k: nat, t: nat, additions: seq<Message>)
    requires nals != [] && AllFramable(nals) && FirstSlice(nals) == Some(k)
    ensures Split(Join(EnrichedUnits(nals, k, t, additions))) ==
            Ok(nals[..k] + [SeiNal(Message(SYNC_TIMESTAMP_UUID, TimestampBytes(t)))] + SeiNals(additions) + nals[k..])
  {
    var stamp := Message(SYNC_TIMESTAMP_UUID, TimestampBytes(t));
    InjectionSplits(nals, k, [stamp] + additions);
    EnrichedShape(nals, k, stamp, additions);
  }

  lemma FreshStaysFresh(left: seq<Message>, stamp: seq<Message>, right: seq<Message>, additions: seq<Message>)
    requires |stamp| == 1 && stamp[0].uuid == SYNC_TIMESTAMP_UUID
    requires !SharesUuid(left + right, additions) && WithUuid(additions, SYNC_TIMESTAMP_UUID) == []
    ensures !SharesUuid(left + (stamp + []) + right, additions)
  {
    WithUuidEmpty(additions, SYNC_TIMESTAMP_UUID);
    var all := left + (stamp + []) + right;
    forall i, j | 0 <= i < |all| && 0 <= j < |additions|
      ensures all[i].uuid != additions[j].uuid
    {
      if i < |left| {
        assert all[i] == (left + right)[i];
      } else if i > |left| {
        assert all[i] == (left + right)[i - 1];
      }
    }
  }

  /** A unit that was given a timestamp, with or without a slice, is never given a second one, whatever the time. */
  lemma SecondTimestampFails(accessUnit: seq<Byte>, t: nat, again: nat, decode: TimestampDecoder)
    requires ReadsTimestamps(decode) && 0 < t <= U64_MAX
    requires Inspect(accessUnit, false, decode) == Ok(None)
    ensures InjectTimestamp(accessUnit, t, decode).Ok?
    ensures InjectTimestamp(InjectTimestamp(accessUnit, t, decode).value, again, decode) ==
            if |AllMessages(Split(accessUnit).value).value| < MAX_SEI_MESSAGES_PER_AU
            then Err(TimestampCount(2)) else Err(MalformedSei)
  {
    CleanUnit(accessUnit, decode);
    var nals := Split(accessUnit).value;
    var stamp := [Message(SYNC_TIMESTAMP_UUID, TimestampBytes(t))];
    assert stamp + [] == stamp;
    StampedUnit(accessUnit, t, decode);
    InspectEnriched(nals, InsertAt(nals), t, [], false, decode);
  }

  /** Every access unit of one bare slice is a clean unit to enrich. */
  lemma BareSliceIsClean(slice: Nal, decode: TimestampDecoder)
    requires Framable(slice) && IsSlice(slice)
    ensures Split(Join([slice])) == Ok([slice]) && FirstSlice([slice]) == Some(0)
    ensures Inspect(Join([slice]), false, decode) == Ok(None) && AllMessages([slice]) == Some([])
  {
    var none: seq<Message> := [];
    assert MessagesOf(slice) == Some(none) && [slice][1..] == [] && none + none == none;
    assert AllMessages([slice]) == Some(none);
    SplitJoin([slice]);
  }

  // ---- The source's loops ----

  lemma AllMessagesStep(nals: seq<Nal>, i: nat)
    requires i < |nals| && AllMessages(nals[..i]).Some?
    ensures MessagesOf(nals[i]).None? ==> AllMessages(nals).None?
    ensures MessagesOf(nals[i]).Some? ==>
              && AllMessages(nals[..i + 1]) == Some(AllMessages(nals[..i]).value + MessagesOf(nals[i]).value)
              && (AllMessages(nals).Some? ==>
                    |AllMessages(nals).value| >= |AllMessages(nals[..i]).value| + |MessagesOf(nals[i]).value|)
  {
    assert nals[..i + 1] == nals[..i] + [nals[i]];
    AllMessagesAppend(nals[..i], [nals[i]]);
    assert nals == nals[..i + 1] + nals[i + 1..];
    AllMessagesAppend(nals[..i + 1], nals[i + 1..]);
    assert MessagesOf(nals[i]).Some? ==> MessagesOf(nals[i]).value + [] == MessagesOf(nals[i]).value;
  }

  /** The messages of a list of units, unless one does not parse or there are more than 64. */
  method CollectMessages(nals: seq<Nal>) returns (result: Option<seq<Message>>)
    ensures result ==
            if AllMessages(nals).Some? && |AllMessages(nals).value| <= MAX_SEI_MESSAGES_PER_AU
            then AllMessages(nals) else None
  {
    var messages: seq<Message> := [];
    for i := 0 to |nals|
      invariant AllMessages(nals[..i]) == Some(messages) && |messages| <= MAX_SEI_MESSAGES_PER_AU
    {
      AllMessagesStep(nals, i);
      if NalType(nals[i]) == NAL_SEI {
        var parsed := ParseSeiUnit(nals[i]);
        if parsed.None? {
          return None;
        }
        messages := messages + parsed.value;
        if |messages| > MAX_SEI_MESSAGES_PER_AU {
          return None;
        }
      } else {
        assert messages + [] == messages;
      }
    }
    assert nals[..|nals|] == nals;
    return Some(messages);
  }

  method InspectH264(accessUnit: seq<Byte>, secondary: bool, decode: TimestampDecoder)
    returns (result: Result<Option<Inspected>, CodecError>)
    ensures result == Inspect(accessUnit, secondary, decode)
  {
    var nals := SplitAnnexB(accessUnit);
    if nals.Err? {
      return Err(nals.error);
    }
    var messages := CollectMessages(nals.value);
    if messages.None? {
      return Err(MalformedSei);
    }
    return Judge(messages.value, secondary, decode);
  }

  method InjectTimestampH264(accessUnit: seq<Byte>, t: nat, decode: TimestampDecoder)
    returns (result: Result<seq<Byte>, CodecError>)
    ensures result == InjectTimestamp(accessUnit, t, decode)
  {
    var inspected := InspectH264(accessUnit, false, decode);
    if inspected.Err? {
      return Err(inspected.error);
    }
    if inspected.value.Some? {
      return Err(TimestampCount(2));
    }
    var payload :- EncodeTimestamp(t);
    TimestampLength(t);
    result := WriteUnits(accessUnit, [Message(SYNC_TIMESTAMP_UUID, payload)]);
  }

  method InjectUserDataH264(accessUnit: seq<Byte>, additions: seq<Message>, decode: TimestampDecoder)
    returns (result: Result<seq<Byte>, CodecError>)
    ensures result == InjectUserData(accessUnit, additions, decode)
  {
    hide Inspect, Split, Join, WithSeis, SharesUuid, AllEncodable, InsertAt;
    var inspected := InspectH264(accessUnit, false, decode);
    if inspected.Err? {
      return Err(inspected.error);
    }
    if inspected.value.Some? {
      var shared := FindShared(inspected.value.value.messages, additions);
      if shared {
        return Err(TimestampCount(2));
      }
    }
    InspectedSplits(accessUnit, decode);
    result := WriteUnits(accessUnit, additions);
  }

  lemma InspectedSplits(accessUnit: seq<Byte>, decode: TimestampDecoder)
    requires Inspect(accessUnit, false, decode).Ok?
    ensures Split(accessUnit).Ok?
  {
  }

  method FindShared(messages: seq<Message>, additions: seq<Message>) returns (shared: bool)
    ensures shared == SharesUuid(messages, additions)
  {
    for j := 0 to |additions|
      invariant forall i, m :: 0 <= i < |messages| && 0 <= m < j ==> messages[i].uuid != additions[m].uuid
    {
      if exists i :: 0 <= i < |messages| && messages[i].uuid == additions[j].uuid {
        return true;
      }
    }
    return false;
  }

  lemma SeisSnoc(done: seq<Nal>, messages: seq<Message>, i: nat)
    requires i < |messages|
    ensures Join(done + SeiNals(messages[..i + 1])) ==
            Join(done + SeiNals(messages[..i])) + START_CODE + SeiNal(messages[i])
  {
    JoinSnoc(done + SeiNals(messages[..i]), SeiNal(messages[i]));
    assert done + SeiNals(messages[..i + 1]) == done + SeiNals(messages[..i]) + [SeiNal(messages[i])];
  }

  /** One SEI unit per message behind the units already written. */
  method WriteSeis(out: seq<Byte>, ghost done: seq<Nal>, messages: seq<Message>) returns (r: Option<seq<Byte>>)
    requires out == Join(done)
    ensures r == if AllEncodable(messages) then Some(Join(done + SeiNals(messages))) else None
  {
    hide Join, SeiNal, Encodable;
    var bytes := out;
    assert done + SeiNals(messages[..0]) == done;
    for i := 0 to |messages|
      invariant AllEncodable(messages[..i])
      invariant bytes == Join(done + SeiNals(messages[..i]))
    {
      var sei := MakeUserDataSei(messages[i]);
      if sei.Err? {
        return None;
      }
      SeisSnoc(done, messages, i);
      bytes := bytes + sei.value;
    }
    assert messages[..|messages|] == messages;
    return Some(bytes);
  }

  /** The units written before unit `index` is looked at. */
  ghost function Written(nals: seq<Nal>, at: nat, messages: seq<Message>, index: nat): seq<Nal>
    requires at < |nals| && index <= |nals|
  {
    if at < index then WithSeis(nals[..index], at, messages) else nals[..index]
  }

  lemma WrittenStep(nals: seq<Nal>, at: nat, messages: seq<Message>, index: nat)
    requires at < |nals| && index < |nals|
    ensures Written(nals, at, messages, index + 1) ==
            Written(nals, at, messages, index) + (if index == at then SeiNals(messages) else []) + [nals[index]]
  {
    assert nals[..index + 1] == nals[..index] + [nals[index]];
    if at < index {
      assert nals[..index + 1][at..] == nals[..index][at..] + [nals[index]];
      assert nals[..index + 1][..at] == nals[..index][..at];
    } else if at == index {
      assert nals[..index + 1][at..] == [nals[index]];
      assert nals[..index + 1][..at] == nals[..index];
    }
  }

  /** The loop both injectors share: copy the units, writing the SEI units at the insertion point. */
  method WriteUnits(accessUnit: seq<Byte>, messages: seq<Message>) returns (result: Result<seq<Byte>, CodecError>)
    requires Split(accessUnit).Ok?
    ensures result ==
            if AllEncodable(messages)
            then Ok(Join(WithSeis(Split(accessUnit).value, InsertAt(Split(accessUnit).value), messages)))
            else Err(MalformedSei)
  {
    SplitIsFramable(accessUnit);
    var split := SplitAnnexB(accessUnit);
    result := CopyUnits(split.value, InsertAt(split.value), messages);
  }

  method CopyUnits(nals: seq<Nal>, insertAt: nat, messages: seq<Message>) returns (result: Result<seq<Byte>, CodecError>)
    requires insertAt < |nals|
    ensures result == if AllEncodable(messages) then Ok(Join(WithSeis(nals, insertAt, messages))) else Err(MalformedSei)
  {
    var out: seq<Byte> := [];
    for index := 0 to |nals|
      invariant insertAt < index ==> AllEncodable(messages)
      invariant out == Join(Written(nals, insertAt, messages, index))
    {
      ghost var done := Written(nals, insertAt, messages, index);
      WrittenStep(nals, insertAt, messages, index);
      if index == insertAt {
        var seis := WriteSeis(out, done, messages);
        if seis.None? {
          return Err(MalformedSei);
        }
        out := seis.value;
        done := done + SeiNals(messages);
      } else {
        assert done + [] == done;
      }
      JoinSnoc(done, nals[index]);
      out := out + START_CODE;
      out := out + nals[index];
    }
    assert nals[..|nals|] == nals;
    return Ok(out);
  }

  lemma JoinSnoc(nals: seq<Nal>, nal: Nal)
    ensures Join(nals + [nal]) == Join(nals) + START_CODE + nal
  {
    JoinAppend(nals, [nal]);
    assert Join([nal]) == START_CODE + nal;
    assert Join(nals) + (START_CODE + nal) == Join(nals) + START_CODE + nal;
  }
}
