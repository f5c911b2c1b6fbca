/**
 * The stream-admission state machine of `crates/receiver/src/lib.rs`, and what it
 * keeps over every run of accept, transition, disconnect and ingest.
 */
module Registry {
  import opened Common
  import opened IngestQueue
  import opened StreamIdentity
  import opened Text
  import AccessUnit
  import AnnexB

  datatype BootstrapState =
    | Listening | TransportIdentified | MediaProbing | ProvisionalStream | ManifestValidated | DatasetReady | Quarantined

  datatype Policy = Policy(
    expectedEmbodimentId: Text, expectedEdgeInstanceId: Option<Text>, basePort: nat, maxCameras: nat, limits: Limits)

  /** The HMAC key and the library functions the registry calls. */
  datatype Env = Env(hmacKey: seq<Byte>, mac: Mac, decode: AccessUnit.TimestampDecoder)

  datatype Record = Record(
    identity: Identity, listenPort: nat, state: BootstrapState, connected: bool,
    lastPts: Option<nat>, lastCapture: Option<nat>, nextOrdinal: nat, ingest: Queue)

  type CameraKey = (Uuid, Text)

  datatype State = State(streams: map<StreamKey, Record>, highestEpoch: map<CameraKey, nat>)

  datatype ReceiverError =
    | IdentityRefused(error: IdentityError)
    | Embodiment | EdgeInstance | Slot | Duplicate | StaleEpoch | Capacity | Unknown
    | IllegalTransition
    | MissingPts | MissingTimestamp | NonMonotonic | TooLarge
    | CodecRefused(codec: AnnexB.CodecError)

  function KeyOf(id: Identity): StreamKey { StreamKey(id.sessionId, id.cameraId, id.epoch) }

  function CameraOf(key: StreamKey): CameraKey { (key.sessionId, key.cameraId) }

  function Connected(s: State): set<StreamKey> {
    set key | key in s.streams && s.streams[key].connected
  }

  // ---- Accept ----

  /** The identity of a stream that policy lets through, before the registry is consulted. */
  function Authenticate(policy: Policy, env: Env, port: nat, raw: Text): Result<Identity, ReceiverError> {
    match ParseAndVerify(raw, env.hmacKey, env.mac)
    case Err(error) => Err(IdentityRefused(error))
    case Ok(id) =>
      if id.embodimentId != policy.expectedEmbodimentId then Err(Embodiment)
      else if policy.expectedEdgeInstanceId.Some? && policy.expectedEdgeInstanceId.value != id.edgeInstanceId then
        Err(EdgeInstance)
      else if id.slot >= policy.maxCameras then Err(Slot)
      else if ValidateListenPort(id, policy.basePort, port).Some? then
        Err(IdentityRefused(ValidateListenPort(id, policy.basePort, port).value))
      else Ok(id)
  }

  predicate Clashes(record: Record, id: Identity) {
    && record.connected
    && record.identity.sessionId == id.sessionId
    && (record.identity.cameraId == id.cameraId || record.identity.slot == id.slot)
  }

  function Admit(policy: Policy, s: State, id: Identity): Option<ReceiverError> {
    if |Connected(s)| >= policy.maxCameras then Some(Capacity)
    else if exists key :: key in s.streams && Clashes(s.streams[key], id) then Some(Duplicate)
    else if CameraOf(KeyOf(id)) in s.highestEpoch && id.epoch < s.highestEpoch[CameraOf(KeyOf(id))] then Some(StaleEpoch)
    else None
  }

  function FreshRecord(id: Identity, port: nat): Record {
    Record(id, port, TransportIdentified, true, None, None, 0, NewQueue())
  }

  function AcceptStep(policy: Policy, env: Env, s: State, port: nat, raw: Text)
    : (Result<StreamKey, ReceiverError>, State)
  {
    match Authenticate(policy, env, port, raw)
    case Err(error) => (Err(error), s)
    case Ok(id) =>
      match Admit(policy, s, id)
      case Some(error) => (Err(error), s)
      case None =>
        (Ok(KeyOf(id)),
         State(s.streams[KeyOf(id) := FreshRecord(id, port)], s.highestEpoch[CameraOf(KeyOf(id)) := id.epoch]))
  }

  // ---- Transition, disconnect, ingest ----

  predicate Legal(from: BootstrapState, to: BootstrapState) {
    || (from == TransportIdentified && to == MediaProbing)
    || (from == MediaProbing && to == ProvisionalStream)
    || (from == ProvisionalStream && to == ManifestValidated)
    || (from == ManifestValidated && to == DatasetReady)
    || to == Quarantined
  }

  function TransitionStep(s: State, key: StreamKey, to: BootstrapState): (Result<(), ReceiverError>, State) {
    if key !in s.streams then (Err(Unknown), s)
    else if !Legal(s.streams[key].state, to) then (Err(IllegalTransition), s)
    else (Ok(()), s.(streams := s.streams[key := s.streams[key].(state := to)]))
  }

  function DisconnectStep(s: State, key: StreamKey): (Result<(), ReceiverError>, State) {
    if key !in s.streams then (Err(Unknown), s)
    else (Ok(()), s.(streams := s.streams[key := s.streams[key].(connected := false, state := Listening)]))
  }

  /** The frame an access unit becomes, if it may follow what the record has seen. */
  function Envelope(record: Record, key: StreamKey, pts: nat, accessUnit: seq<Byte>, env: Env): Result<Frame, ReceiverError> {
    match AccessUnit.Inspect(accessUnit, record.identity.role == Secondary, env.decode)
    case Err(error) => Err(CodecRefused(error))
    case Ok(None) => Err(MissingTimestamp)
    case Ok(Some(inspected)) =>
      if || (record.lastPts.Some? && pts <= record.lastPts.value)
         || (record.lastCapture.Some? && inspected.timestamp <= record.lastCapture.value)
      then Err(NonMonotonic)
      else Ok(Frame(key, pts, record.nextOrdinal, inspected.timestamp, accessUnit, inspected.messages))
  }

  function Extended(record: Record, frame: Frame, limits: Limits): Record {
    record.(lastPts := Some(frame.pts), lastCapture := Some(frame.captureTime),
            nextOrdinal := SaturatingInc(record.nextOrdinal), ingest := AfterPush(record.ingest, frame, limits))
  }

  function IngestStep(policy: Policy, env: Env, s: State, key: StreamKey, pts: Option<nat>, accessUnit: seq<Byte>)
    : (Result<Frame, ReceiverError>, State)
  {
    if pts.None? then (Err(MissingPts), s)
    else if key !in s.streams then (Err(Unknown), s)
    else
      match Envelope(s.streams[key], key, pts.value, accessUnit, env)
      case Err(error) => (Err(error), s)
      case Ok(frame) =>
        if |frame.encoded| > policy.limits.maxBytes then (Err(TooLarge), s)
        else (Ok(frame), s.(streams := s.streams[key := Extended(s.streams[key], frame, policy.limits)]))
  }

  // ---- Runs, with what has happened since each stream's latest accept ----

  datatype Event =
    | Accept(port: nat, raw: Text)
    | Transition(key: StreamKey, to: BootstrapState)
    | Disconnect(key: StreamKey)
    | Ingest(key: StreamKey, pts: Option<nat>, accessUnit: seq<Byte>)

  /** The states a stream has gone through and the frames it has delivered since its latest accept. */
  datatype Past = Past(trail: seq<BootstrapState>, frames: seq<Frame>)

  datatype Trace = Trace(state: State, past: map<StreamKey, Past>, accepted: seq<StreamKey>)

  const START := Trace(State(map[], map[]), map[], [])

  function TraceStep(policy: Policy, env: Env, t: Trace, event: Event): Trace {
    match event
    case Accept(port, raw) =>
      (match AcceptStep(policy, env, t.state, port, raw)
       case (Ok(key), next) =>
         Trace(next, t.past[key := Past([TransportIdentified], [])], t.accepted + [key])
       case (Err(_), next) => t.(state := next))
    case Transition(key, to) =>
      (match TransitionStep(t.state, key, to)
       case (Ok(_), next) => t.(state := next, past := Moved(t.past, key, to))
       case (Err(_), next) => t.(state := next))
    case Disconnect(key) =>
      (match DisconnectStep(t.state, key)
       case (Ok(_), next) => t.(state := next, past := Moved(t.past, key, Listening))
       case (Err(_), next) => t.(state := next))
    case Ingest(key, pts, accessUnit) =>
      match IngestStep(policy, env, t.state, key, pts, accessUnit)
      case (Ok(frame), next) => t.(state := next, past := Delivered(t.past, key, frame))
      case (Err(_), next) => t.(state := next)
  }

  function Moved(past: map<StreamKey, Past>, key: StreamKey, to: BootstrapState): map<StreamKey, Past> {
    if key in past then past[key := past[key].(trail := past[key].trail + [to])] else past
  }

  function Delivered(past: map<StreamKey, Past>, key: StreamKey, frame: Frame): map<StreamKey, Past> {
    if key in past then past[key := past[key].(frames := past[key].frames + [frame])] else past
  }

  function Run(policy: Policy, env: Env, events: seq<Event>): Trace {
    if events == [] then START
    else TraceStep(policy, env, Run(policy, env, events[..|events| - 1]), events[|events| - 1])
  }

  // ---- The invariant ----

  ghost predicate RecordOk(policy: Policy, s: State, key: StreamKey)
    requires key in s.streams
  {
    var record := s.streams[key];
    && KeyOf(record.identity) == key
    && record.identity.slot < policy.maxCameras
    && record.listenPort == policy.basePort + record.identity.slot
    && CameraOf(key) in s.highestEpoch
    && key.epoch <= s.highestEpoch[CameraOf(key)]
    && (record.connected ==> key.epoch == s.highestEpoch[CameraOf(key)])
  }

  ghost predicate Disjoint(s: State, a: StreamKey, b: StreamKey)
    requires a in s.streams && b in s.streams
  {
    a != b && s.streams[a].connected && s.streams[b].connected && a.sessionId == b.sessionId ==>
      a.cameraId != b.cameraId && s.streams[a].identity.slot != s.streams[b].identity.slot
  }

  /** What the registry holds at every moment. */
  ghost predicate Admission(policy: Policy, s: State) {
    && (forall key :: key in s.streams ==> RecordOk(policy, s, key))
    && (forall a, b :: a in s.streams && b in s.streams ==> Disjoint(s, a, b))
    && |Connected(s)| <= policy.maxCameras
  }

  ghost predicate ValidTrail(trail: seq<BootstrapState>) {
    && trail != [] && trail[0] == TransportIdentified
    && forall i :: 1 <= i < |trail| ==> LegalAt(trail, i)
  }

  /** Entry `i` follows the one before it by a legal transition or a disconnect. */
  ghost predicate LegalAt(trail: seq<BootstrapState>, i: nat)
    requires 1 <= i < |trail|
  {
    Legal(trail[i - 1], trail[i]) || trail[i] == Listening
  }

  /** Frames of one connection: strictly increasing in PTS and capture time, numbered from zero. */
  ghost predicate InOrder(frames: seq<Frame>) {
    && (forall i, j :: 0 <= i < j < |frames| ==>
          frames[i].pts < frames[j].pts && frames[i].captureTime < frames[j].captureTime)
    && (forall i :: 0 <= i < |frames| ==> frames[i].ordinal == Min(U64_MAX, i))
  }

  ghost predicate PastOk(policy: Policy, record: Record, past: Past) {
    && ValidTrail(past.trail) && record.state == past.trail[|past.trail| - 1]
    && InOrder(past.frames)
    && record.lastPts == (if past.frames == [] then None else Some(past.frames[|past.frames| - 1].pts))
    && record.lastCapture == (if past.frames == [] then None else Some(past.frames[|past.frames| - 1].captureTime))
    && record.nextOrdinal == Min(U64_MAX, |past.frames|)
    && (policy.limits.maxFrames >= 1 ==> Means(record.ingest, past.frames, policy.limits))
  }

  ghost predicate TraceOk(policy: Policy, t: Trace) {
    && Admission(policy, t.state)
    && t.past.Keys == t.state.streams.Keys
    && (forall key :: key in t.state.streams ==> PastOk(policy, t.state.streams[key], t.past[key]))
    && (forall i :: 0 <= i < |t.accepted| ==> CameraOf(t.accepted[i]) in t.state.highestEpoch
                                              && t.accepted[i].epoch <= t.state.highestEpoch[CameraOf(t.accepted[i])])
  }

  lemma ConnectedAfterAccept(policy: Policy, s: State, id: Identity, port: nat)
    requires Admission(policy, s) && Admit(policy, s, id).None?
    ensures var next := State(s.streams[KeyOf(id) := FreshRecord(id, port)], s.highestEpoch[CameraOf(KeyOf(id)) := id.epoch]);
            |Connected(next)| <= policy.maxCameras
  {
    var next := State(s.streams[KeyOf(id) := FreshRecord(id, port)], s.highestEpoch[CameraOf(KeyOf(id)) := id.epoch]);
    assert Connected(next) == Connected(s) + {KeyOf(id)};
  }

  lemma AcceptKeepsAdmission(policy: Policy, env: Env, s: State, port: nat, raw: Text)
    requires Admission(policy, s)
    ensures Admission(policy, AcceptStep(policy, env, s, port, raw).1)
  {
    hide ParseAndVerify, Admission;
    var (result, next) := AcceptStep(policy, env, s, port, raw);
    if result.Ok? {
      AdmitKeeps(policy, s, Authenticate(policy, env, port, raw).value, port);
    }
  }

  function Accepted(s: State, id: Identity, port: nat): State {
    State(s.streams[KeyOf(id) := FreshRecord(id, port)], s.highestEpoch[CameraOf(KeyOf(id)) := id.epoch])
  }

  lemma AdmitKeeps(policy: Policy, s: State, id: Identity, port: nat)
    requires Admission(policy, s) && Admit(policy, s, id).None?
    requires id.slot < policy.maxCameras && port == policy.basePort + id.slot
    ensures Admission(policy, Accepted(s, id, port))
  {
    hide RecordOk, Disjoint, FreshRecord, Connected, Admit;
    var next := Accepted(s, id, port);
    ConnectedAfterAccept(policy, s, id, port);
    forall other | other in next.streams
      ensures RecordOk(policy, next, other)
    {
      AdmitKeepsRecord(policy, s, id, port, other);
    }
    forall a, b | a in next.streams && b in next.streams
      ensures Disjoint(next, a, b)
    {
      AdmitKeepsDisjoint(policy, s, id, port, a, b);
    }
  }

  lemma AdmitKeepsRecord(policy: Policy, s: State, id: Identity, port: nat, other: StreamKey)
    requires Admission(policy, s) && Admit(policy, s, id).None?
    requires id.slot < policy.maxCameras && port == policy.basePort + id.slot && other in Accepted(s, id, port).streams
    ensures RecordOk(policy, Accepted(s, id, port), other)
  {
    hide Connected, Disjoint;
    if other != KeyOf(id) {
      assert RecordOk(policy, s, other) && !Clashes(s.streams[other], id);
    }
  }

  lemma AdmitKeepsDisjoint(policy: Policy, s: State, id: Identity, port: nat, a: StreamKey, b: StreamKey)
    requires Admission(policy, s) && Admit(policy, s, id).None?
    requires a in Accepted(s, id, port).streams && b in Accepted(s, id, port).streams
    ensures Disjoint(Accepted(s, id, port), a, b)
  {
    hide Connected;
    var key := KeyOf(id);
    if a != key { assert RecordOk(policy, s, a) && !Clashes(s.streams[a], id); }
    if b != key { assert RecordOk(policy, s, b) && !Clashes(s.streams[b], id); }
    if a != key && b != key { assert Disjoint(s, a, b); }
  }

  /** Changing a record without touching who it is, or connecting it, keeps admission. */
  lemma UpdateKeepsAdmission(policy: Policy, s: State, key: StreamKey, record: Record)
    requires Admission(policy, s) && key in s.streams
    requires record.identity == s.streams[key].identity && record.listenPort == s.streams[key].listenPort
    requires record.connected ==> s.streams[key].connected
    ensures Admission(policy, s.(streams := s.streams[key := record]))
  {
    var next := s.(streams := s.streams[key := record]);
    assert Connected(next) <= Connected(s);
    SubsetSize(Connected(next), Connected(s));
    forall other | other in next.streams
      ensures RecordOk(policy, next, other)
    {
      assert RecordOk(policy, s, other);
    }
    forall a, b | a in next.streams && b in next.streams
      ensures Disjoint(next, a, b)
    {
      assert Disjoint(s, a, b);
    }
  }

  lemma DeliverKeepsPast(policy: Policy, record: Record, past: Past, frame: Frame)
    requires PastOk(policy, record, past) && |frame.encoded| <= policy.limits.maxBytes
    requires record.lastPts.Some? ==> record.lastPts.value < frame.pts
    requires record.lastCapture.Some? ==> record.lastCapture.value < frame.captureTime
    requires frame.ordinal == record.nextOrdinal
    ensures PastOk(policy, Extended(record, frame, policy.limits), past.(frames := past.frames + [frame]))
  {
    if policy.limits.maxFrames >= 1 {
      PushKeepsMeaning(record.ingest, past.frames, frame, policy.limits);
    }
  }

  /** Replacing one record and its past by a matching pair keeps the trace. */
  lemma UpdateKeepsTrace(policy: Policy, t: Trace, key: StreamKey, record: Record, past: Past)
    requires TraceOk(policy, t) && key in t.state.streams
    requires record.identity == t.state.streams[key].identity && record.listenPort == t.state.streams[key].listenPort
    requires record.connected ==> t.state.streams[key].connected
    requires PastOk(policy, record, past)
    ensures TraceOk(policy, t.(state := t.state.(streams := t.state.streams[key := record]), past := t.past[key := past]))
  {
    hide PastOk, Admission;
    UpdateKeepsAdmission(policy, t.state, key, record);
  }

  lemma PastOf(policy: Policy, t: Trace, key: StreamKey)
    requires TraceOk(policy, t) && key in t.state.streams
    ensures key in t.past && PastOk(policy, t.state.streams[key], t.past[key])
  {
    hide PastOk, Admission;
  }

  lemma TransitionKeeps(policy: Policy, t: Trace, key: StreamKey, to: BootstrapState)
    requires TraceOk(policy, t) && TransitionStep(t.state, key, to).0.Ok?
    ensures TraceOk(policy, t.(state := TransitionStep(t.state, key, to).1, past := Moved(t.past, key, to)))
  {
    hide TraceOk, InOrder, Means, ValidTrail;
    PastOf(policy, t, key);
    var record, past := t.state.streams[key], t.past[key];
    MoveKeepsTrail(past.trail, to);
    UpdateKeepsTrace(policy, t, key, record.(state := to), past.(trail := past.trail + [to]));
  }

  lemma DisconnectKeeps(policy: Policy, t: Trace, key: StreamKey)
    requires TraceOk(policy, t) && DisconnectStep(t.state, key).0.Ok?
    ensures TraceOk(policy, t.(state := DisconnectStep(t.state, key).1, past := Moved(t.past, key, Listening)))
  {
    hide TraceOk, InOrder, Means, ValidTrail;
    PastOf(policy, t, key);
    var record, past := t.state.streams[key], t.past[key];
    MoveKeepsTrail(past.trail, Listening);
    UpdateKeepsTrace(policy, t, key, record.(connected := false, state := Listening),
                     past.(trail := past.trail + [Listening]));
  }

  lemma IngestKeeps(policy: Policy, env: Env, t: Trace, key: StreamKey, pts: Option<nat>, accessUnit: seq<Byte>)
    requires TraceOk(policy, t) && IngestStep(policy, env, t.state, key, pts, accessUnit).0.Ok?
    ensures var (result, state) := IngestStep(policy, env, t.state, key, pts, accessUnit);
            TraceOk(policy, t.(state := state, past := Delivered(t.past, key, result.value)))
  {
    hide AccessUnit.Inspect, TraceOk, InOrder, Means, ValidTrail, AfterPush;
    PastOf(policy, t, key);
    var frame := IngestStep(policy, env, t.state, key, pts, accessUnit).0.value;
    var record, past := t.state.streams[key], t.past[key];
    DeliverKeepsPast(policy, record, past, frame);
    UpdateKeepsTrace(policy, t, key, Extended(record, frame, policy.limits), past.(frames := past.frames + [frame]));
  }

  lemma AcceptKeeps(policy: Policy, env: Env, t: Trace, port: nat, raw: Text)
    requires TraceOk(policy, t) && AcceptStep(policy, env, t.state, port, raw).0.Ok?
    ensures var (result, state) := AcceptStep(policy, env, t.state, port, raw);
            TraceOk(policy, Trace(state, t.past[result.value := Past([TransportIdentified], [])], t.accepted + [result.value]))
  {
    hide ParseAndVerify;
    AcceptKeepsAdmission(policy, env, t.state, port, raw);
    AcceptKeepsPast(policy, t, Authenticate(policy, env, port, raw).value, port);
  }

  lemma TraceStepKeeps(policy: Policy, env: Env, t: Trace, event: Event)
    requires TraceOk(policy, t)
    ensures TraceOk(policy, TraceStep(policy, env, t, event))
  {
    hide TraceOk;
    match event
    case Accept(port, raw) =>
      if AcceptStep(policy, env, t.state, port, raw).0.Ok? {
        AcceptKeeps(policy, env, t, port, raw);
      }
    case Transition(key, to) =>
      if TransitionStep(t.state, key, to).0.Ok? {
        TransitionKeeps(policy, t, key, to);
      }
    case Disconnect(key) =>
      if DisconnectStep(t.state, key).0.Ok? {
        DisconnectKeeps(policy, t, key);
      }
    case Ingest(key, pts, accessUnit) =>
      if IngestStep(policy, env, t.state, key, pts, accessUnit).0.Ok? {
        IngestKeeps(policy, env, t, key, pts, accessUnit);
      }
  }

  lemma MoveKeepsTrail(trail: seq<BootstrapState>, to: BootstrapState)
    requires ValidTrail(trail) && (Legal(trail[|trail| - 1], to) || to == Listening)
    ensures ValidTrail(trail + [to])
  {
    forall i | 1 <= i < |trail + [to]|
      ensures LegalAt(trail + [to], i)
    {
      assert i < |trail| ==> LegalAt(trail, i);
    }
  }

  lemma AcceptKeepsPast(policy: Policy, t: Trace, id: Identity, port: nat)
    requires TraceOk(policy, t) && Admit(policy, t.state, id).None?
    ensures var key := KeyOf(id);
            var past := t.past[key := Past([TransportIdentified], [])];
            var streams := t.state.streams[key := FreshRecord(id, port)];
            var highest := t.state.highestEpoch[CameraOf(key) := id.epoch];
            && past.Keys == streams.Keys
            && (forall other :: other in streams ==> PastOk(policy, streams[other], past[other]))
            && (forall i :: 0 <= i < |t.accepted + [key]| ==>
                  CameraOf((t.accepted + [key])[i]) in highest
                  && (t.accepted + [key])[i].epoch <= highest[CameraOf((t.accepted + [key])[i])])
  {
    var key := KeyOf(id);
    NewPast(policy, id, port);
    hide PastOk, Admission, ValidTrail;
    var all := t.accepted + [key];
    forall i | 0 <= i < |all|
      ensures CameraOf(all[i]) in t.state.highestEpoch[CameraOf(key) := id.epoch]
      ensures all[i].epoch <= t.state.highestEpoch[CameraOf(key) := id.epoch][CameraOf(all[i])]
    {
      assert i < |t.accepted| ==> all[i] == t.accepted[i];
    }
  }

  lemma NewPast(policy: Policy, id: Identity, port: nat)
    ensures PastOk(policy, FreshRecord(id, port), Past([TransportIdentified], []))
  {
    assert ValidTrail([TransportIdentified]);
  }

  lemma {:induction false} RunKeeps(policy: Policy, env: Env, events: seq<Event>)
    ensures TraceOk(policy, Run(policy, env, events))
  {
    if events != [] {
      RunKeeps(policy, env, events[..|events| - 1]);
      TraceStepKeeps(policy, env, Run(policy, env, events[..|events| - 1]), events[|events| - 1]);
    } else {
      assert Connected(START.state) == {};
    }
  }

  // ---- What follows ----

  lemma OnlyAcceptIdentifies(trail: seq<BootstrapState>, i: nat)
    requires ValidTrail(trail) && i < |trail| && trail[i] == TransportIdentified
    ensures i == 0
  {
    assert i >= 1 ==> LegalAt(trail, i);
  }

  /** A trail that ends in DatasetReady went through every stage, in order, and nothing else. */
  lemma ReadyTrail(trail: seq<BootstrapState>)
    requires ValidTrail(trail) && trail[|trail| - 1] == DatasetReady
    ensures trail == STAGES
  {
    var n := |trail|;
    assert n >= 2 && LegalAt(trail, n - 1) && trail[n - 2] == ManifestValidated;
    assert n >= 3 && LegalAt(trail, n - 2) && trail[n - 3] == ProvisionalStream;
    assert n >= 4 && LegalAt(trail, n - 3) && trail[n - 4] == MediaProbing;
    assert n >= 5 && LegalAt(trail, n - 4) && trail[n - 5] == TransportIdentified;
    OnlyAcceptIdentifies(trail, n - 5);
  }

  ghost predicate DistinctCamerasAndSlots(s: State) {
    forall a, b :: a in Connected(s) && b in Connected(s) && a != b && a.sessionId == b.sessionId ==>
      a.cameraId != b.cameraId && s.streams[a].identity.slot != s.streams[b].identity.slot
  }

  /** The stream sits on base plus slot and holds the highest epoch among `accepted` for its camera. */
  ghost predicate OnPortWithHighestEpoch(policy: Policy, t: Trace, key: StreamKey)
    requires key in t.state.streams
  {
    && t.state.streams[key].listenPort == policy.basePort + t.state.streams[key].identity.slot
    && forall i :: 0 <= i < |t.accepted| && CameraOf(t.accepted[i]) == CameraOf(key) ==> t.accepted[i].epoch <= key.epoch
  }

  const STAGES := [TransportIdentified, MediaProbing, ProvisionalStream, ManifestValidated, DatasetReady]

  /**
   * On every run: connected streams of a session have distinct cameras and slots,
   * number at most `maxCameras`, sit on base plus slot, hold the highest epoch ever
   * accepted for their camera, and are DatasetReady only after every earlier stage
   * since their latest accept.
   */
  lemma AdmissionOnEveryRun(policy: Policy, env: Env, events: seq<Event>)
    ensures var t := Run(policy, env, events);
            && |Connected(t.state)| <= policy.maxCameras
            && DistinctCamerasAndSlots(t.state)
            && (forall key :: key in Connected(t.state) ==> OnPortWithHighestEpoch(policy, t, key))
            && (forall key :: key in t.state.streams && t.state.streams[key].state == DatasetReady ==>
                  key in t.past && t.past[key].trail == STAGES)
  {
    hide Run;
    RunKeeps(policy, env, events);
    AdmissionMeans(policy, Run(policy, env, events));
    StagesPassed(policy, Run(policy, env, events));
  }

  lemma AdmissionMeans(policy: Policy, t: Trace)
    requires TraceOk(policy, t)
    ensures |Connected(t.state)| <= policy.maxCameras && DistinctCamerasAndSlots(t.state)
    ensures forall key :: key in Connected(t.state) ==> OnPortWithHighestEpoch(policy, t, key)
  {
    hide PastOk;
    forall key | key in Connected(t.state)
      ensures OnPortWithHighestEpoch(policy, t, key)
    {
      assert RecordOk(policy, t.state, key);
    }
    forall a, b | a in Connected(t.state) && b in Connected(t.state) && a != b && a.sessionId == b.sessionId
      ensures a.cameraId != b.cameraId && t.state.streams[a].identity.slot != t.state.streams[b].identity.slot
    {
      assert Disjoint(t.state, a, b);
    }
  }

  lemma StagesPassed(policy: Policy, t: Trace)
    requires TraceOk(policy, t)
    ensures forall key :: key in t.state.streams && t.state.streams[key].state == DatasetReady ==>
              key in t.past && t.past[key].trail == STAGES
  {
    hide TraceOk;
    forall key | key in t.state.streams && t.state.streams[key].state == DatasetReady
      ensures key in t.past && t.past[key].trail == STAGES
    {
      PastOf(policy, t, key);
      ReadyTrail(t.past[key].trail);
    }
  }

  /** On every run, a connection's frames are in order and its queue is their longest fitting suffix. */
  lemma FramesOnEveryRun(policy: Policy, env: Env, events: seq<Event>, key: StreamKey)
    requires key in Run(policy, env, events).state.streams
    ensures var t := Run(policy, env, events);
            && key in t.past && InOrder(t.past[key].frames)
            && (policy.limits.maxFrames >= 1 ==>
                  t.state.streams[key].ingest.items == LongestFit(t.past[key].frames, policy.limits))
  {
    hide Run;
    RunKeeps(policy, env, events);
    PastOf(policy, Run(policy, env, events), key);
  }

  // ---- The source's object ----

  class ReceiverRegistry {
    const policy: Policy
    const env: Env
    var streams: map<StreamKey, Record>
    var highestEpoch: map<CameraKey, nat>

    ghost function Contents(): State
      reads this
    {
      State(streams, highestEpoch)
    }

    constructor (policy: Policy, env: Env)
      ensures Contents() == START.state && this.policy == policy && this.env == env
    {
      this.policy, this.env := policy, env;
      streams, highestEpoch := map[], map[];
    }

    method Accept(port: nat, raw: Text) returns (result: Result<StreamKey, ReceiverError>)
      modifies this
      ensures (result, Contents()) == AcceptStep(policy, env, old(Contents()), port, raw)
    {
      var id :- Authenticate(policy, env, port, raw);
      var key := KeyOf(id);
      if |set k | k in streams && streams[k].connected| >= policy.maxCameras {
        return Err(Capacity);
      }
      if exists k :: k in streams && Clashes(streams[k], id) {
        return Err(Duplicate);
      }
      if CameraOf(key) in highestEpoch && id.epoch < highestEpoch[CameraOf(key)] {
        return Err(StaleEpoch);
      }
      highestEpoch := highestEpoch[CameraOf(key) := id.epoch];
      streams := streams[key := FreshRecord(id, port)];
      return Ok(key);
    }

    method Transition(key: StreamKey, to: BootstrapState) returns (result: Result<(), ReceiverError>)
      modifies this
      ensures (result, Contents()) == TransitionStep(old(Contents()), key, to)
    {
      if key !in streams {
        return Err(Unknown);
      }
      var record := streams[key];
      if !Legal(record.state, to) {
        return Err(IllegalTransition);
      }
      streams := streams[key := record.(state := to)];
      return Ok(());
    }

    method Disconnect(key: StreamKey) returns (result: Result<(), ReceiverError>)
      modifies this
      ensures (result, Contents()) == DisconnectStep(old(Contents()), key)
    {
      if key !in streams {
        return Err(Unknown);
      }
      streams := streams[key := streams[key].(connected := false, state := Listening)];
      return Ok(());
    }

    method IngestBeforeDecode(key: StreamKey, pts: Option<nat>, accessUnit: seq<Byte>)
      returns (result: Result<Frame, ReceiverError>)
      modifies this
      ensures (result, Contents()) == IngestStep(policy, env, old(Contents()), key, pts, accessUnit)
    {
      hide AccessUnit.Inspect;
      if pts.None? {
        return Err(MissingPts);
      }
      if key !in streams {
        return Err(Unknown);
      }
      var record := streams[key];
      var inspected := AccessUnit.InspectH264(accessUnit, record.identity.role == Secondary, env.decode);
      if inspected.Err? {
        return Err(CodecRefused(inspected.error));
      }
      if inspected.value.None? {
        return Err(MissingTimestamp);
      }
      var capture := inspected.value.value.timestamp;
      if (record.lastPts.Some? && pts.value <= record.lastPts.value)
         || (record.lastCapture.Some? && capture <= record.lastCapture.value)
      {
        return Err(NonMonotonic);
      }
      var frame := Frame(key, pts.value, record.nextOrdinal, capture, accessUnit, inspected.value.value.messages);
      var (pushed, queue) := PushStep(record.ingest, frame, policy.limits);
      if pushed.Err? {
        return Err(TooLarge);
      }
      record := record.(ingest := queue);
      record := record.(lastPts := Some(pts.value), lastCapture := Some(capture));
      record := record.(nextOrdinal := SaturatingInc(record.nextOrdinal));
      streams := streams[key := record];
      return Ok(frame);
    }
  }
}
