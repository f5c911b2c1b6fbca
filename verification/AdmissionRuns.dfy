/**
 * What the registry of `crates/receiver/src/lib.rs` answers to a stream that wants in, and
 * to a transition, on every run and in terms of what has been accepted before.
 */
module AdmissionRuns {
  import opened Common
  import opened Registry
  import opened StreamIdentity
  import opened Text
  import opened IngestQueue

  // ---- The registry and its log ----

  ghost predicate Attained(t: Trace, camera: CameraKey)
    requires camera in t.state.highestEpoch
  {
    exists i :: 0 <= i < |t.accepted| && CameraOf(t.accepted[i]) == camera
                && t.accepted[i].epoch == t.state.highestEpoch[camera]
  }

  ghost predicate ConnectionOk(t: Trace, key: StreamKey)
    requires key in t.state.streams
  {
    && key in t.past
    && (t.state.streams[key].connected <==> Listening !in t.past[key].trail)
  }

  /** Streams are what was accepted, epochs were accepted, and only a disconnect disconnects. */
  ghost predicate LogOk(t: Trace) {
    && (forall key :: key in t.state.streams <==> key in t.accepted)
    && (forall camera :: camera in t.state.highestEpoch ==> Attained(t, camera))
    && (forall key :: key in t.state.streams ==> ConnectionOk(t, key))
  }

  lemma UpdateKeepsLog(t: Trace, key: StreamKey, record: Record, past: Past)
    requires LogOk(t) && key in t.state.streams
    requires record.connected <==> Listening !in past.trail
    ensures LogOk(t.(state := t.state.(streams := t.state.streams[key := record]), past := t.past[key := past]))
  {
    var next := t.(state := t.state.(streams := t.state.streams[key := record]), past := t.past[key := past]);
    forall other | other in next.state.streams
      ensures ConnectionOk(next, other)
    {
      assert ConnectionOk(t, other);
    }
    forall camera | camera in next.state.highestEpoch
      ensures Attained(next, camera)
    {
      assert Attained(t, camera);
    }
  }

  lemma AcceptKeepsLog(t: Trace, id: Identity, port: nat)
    requires LogOk(t)
    ensures LogOk(Trace(Accepted(t.state, id, port), t.past[KeyOf(id) := Past([TransportIdentified], [])],
                        t.accepted + [KeyOf(id)]))
  {
    var key := KeyOf(id);
    var next := Trace(Accepted(t.state, id, port), t.past[key := Past([TransportIdentified], [])], t.accepted + [key]);
    forall other | other in next.state.streams
      ensures ConnectionOk(next, other)
    {
      assert other != key ==> ConnectionOk(t, other);
    }
    forall camera | camera in next.state.highestEpoch
      ensures Attained(next, camera)
    {
      if camera == CameraOf(key) {
        assert next.accepted[|t.accepted|] == key;
      } else {
        assert Attained(t, camera);
        var i :| 0 <= i < |t.accepted| && CameraOf(t.accepted[i]) == camera
                 && t.accepted[i].epoch == t.state.highestEpoch[camera];
        assert next.accepted[i] == t.accepted[i];
      }
    }
  }

  lemma StepKeepsLog(policy: Policy, env: Env, t: Trace, event: Event)
    requires LogOk(t)
    ensures LogOk(TraceStep(policy, env, t, event))
  {
    match event
    case Accept(port, raw) =>
      if AcceptStep(policy, env, t.state, port, raw).0.Ok? {
        var id := Authenticate(policy, env, port, raw).value;
        hide Authenticate, Admit, LogOk;
        AcceptKeepsLog(t, id, port);
      }
    case Transition(key, to) =>
      if TransitionStep(t.state, key, to).0.Ok? {
        assert ConnectionOk(t, key);
        hide LogOk;
        var record, past := t.state.streams[key], t.past[key];
        assert to != Listening;
        UpdateKeepsLog(t, key, record.(state := to), past.(trail := past.trail + [to]));
      }
    case Disconnect(key) =>
      if DisconnectStep(t.state, key).0.Ok? {
        assert ConnectionOk(t, key);
        hide LogOk;
        var record, past := t.state.streams[key], t.past[key];
        assert (past.trail + [Listening])[|past.trail|] == Listening;
        UpdateKeepsLog(t, key, record.(connected := false, state := Listening), past.(trail := past.trail + [Listening]));
      }
    case Ingest(key, pts, accessUnit) =>
      var (result, next) := IngestStep(policy, env, t.state, key, pts, accessUnit);
      if result.Ok? {
        assert ConnectionOk(t, key);
        IngestUpdates(policy, env, t.state, key, pts, accessUnit);
        hide LogOk, IngestStep;
        var past := t.past[key];
        UpdateKeepsLog(t, key, next.streams[key], past.(frames := past.frames + [result.value]));
        assert next == t.state.(streams := t.state.streams[key := next.streams[key]]);
      }
  }

  lemma IngestUpdates(policy: Policy, env: Env, s: State, key: StreamKey, pts: Option<nat>, accessUnit: seq<Byte>)
    requires IngestStep(policy, env, s, key, pts, accessUnit).0.Ok?
    ensures key in s.streams
    ensures var next := IngestStep(policy, env, s, key, pts, accessUnit).1;
            && key in next.streams && next == s.(streams := s.streams[key := next.streams[key]])
            && next.streams[key].connected == s.streams[key].connected
            && next.streams[key].identity == s.streams[key].identity
            && next.streams[key].listenPort == s.streams[key].listenPort
  {
    hide Envelope;
  }

  lemma {:induction false} LogOnEveryRun(policy: Policy, env: Env, events: seq<Event>)
    ensures LogOk(Run(policy, env, events))
  {
    hide LogOk, TraceStep;
    if events == [] {
      NothingLogged();
    } else {
      LogOnEveryRun(policy, env, events[..|events| - 1]);
      StepKeepsLog(policy, env, Run(policy, env, events[..|events| - 1]), events[|events| - 1]);
    }
  }

  lemma NothingLogged()
    ensures LogOk(START)
  {
  }

  // ---- Who is let in ----

  /** The port is the slot's, and is a port. */
  predicate OnItsPort(policy: Policy, id: Identity, port: nat) {
    port == policy.basePort + id.slot <= U16_MAX
  }

  /** What the policy alone asks of an identity. */
  predicate PolicyAllows(policy: Policy, id: Identity, port: nat) {
    && id.embodimentId == policy.expectedEmbodimentId
    && (policy.expectedEdgeInstanceId.Some? ==> policy.expectedEdgeInstanceId == Some(id.edgeInstanceId))
    && id.slot < policy.maxCameras
    && OnItsPort(policy, id, port)
  }

  /** A connected stream of the same session has the camera or the slot. */
  ghost predicate Taken(t: Trace, id: Identity) {
    exists key :: key in Connected(t.state) && key.sessionId == id.sessionId
                  && (key.cameraId == id.cameraId || t.state.streams[key].identity.slot == id.slot)
  }

  /** A later epoch of this session and camera has been accepted. */
  ghost predicate Stale(t: Trace, id: Identity) {
    exists i :: 0 <= i < |t.accepted| && t.accepted[i].sessionId == id.sessionId && t.accepted[i].cameraId == id.cameraId
                && id.epoch < t.accepted[i].epoch
  }

  lemma AuthenticatedExactlyWhen(policy: Policy, env: Env, port: nat, raw: Text, id: Identity)
    ensures Authenticate(policy, env, port, raw) == Ok(id) <==>
            ParseAndVerify(raw, env.hmacKey, env.mac) == Ok(id) && PolicyAllows(policy, id, port)
  {
    hide ParseAndVerify;
  }

  lemma AdmittedExactlyWhen(policy: Policy, t: Trace, id: Identity)
    requires TraceOk(policy, t) && LogOk(t)
    ensures Admit(policy, t.state, id) ==
            if |Connected(t.state)| >= policy.maxCameras then Some(Capacity)
            else if Taken(t, id) then Some(Duplicate)
            else if Stale(t, id) then Some(StaleEpoch)
            else None
  {
    hide PastOk;
    TakenIsClash(policy, t, id);
    StaleIsBelow(policy, t, id);
  }

  lemma TakenIsClash(policy: Policy, t: Trace, id: Identity)
    requires TraceOk(policy, t)
    ensures Taken(t, id) <==> exists key :: key in t.state.streams && Clashes(t.state.streams[key], id)
  {
    hide PastOk;
    forall key | key in t.state.streams
      ensures KeyOf(t.state.streams[key].identity) == key
    {
      assert RecordOk(policy, t.state, key);
    }
    if Taken(t, id) {
      var key :| key in Connected(t.state) && key.sessionId == id.sessionId
                 && (key.cameraId == id.cameraId || t.state.streams[key].identity.slot == id.slot);
      assert Clashes(t.state.streams[key], id);
    }
    if key :| key in t.state.streams && Clashes(t.state.streams[key], id) {
      assert key in Connected(t.state);
    }
  }

  lemma StaleIsBelow(policy: Policy, t: Trace, id: Identity)
    requires TraceOk(policy, t) && LogOk(t)
    ensures var camera := CameraOf(KeyOf(id));
            Stale(t, id) <==> camera in t.state.highestEpoch && id.epoch < t.state.highestEpoch[camera]
  {
    hide PastOk, Admission;
    var camera := CameraOf(KeyOf(id));
    if camera in t.state.highestEpoch {
      assert Attained(t, camera);
    }
  }

  /**
   * On every run, a stream is let in exactly when its text is one the key has signed, the
   * policy allows its identity on this port, there is room, its session has neither its
   * camera nor its slot connected, and no later epoch of its camera was ever accepted.
   */
  lemma AcceptedOnEveryRun(policy: Policy, env: Env, events: seq<Event>, port: nat, raw: Text, key: StreamKey)
    ensures var t := Run(policy, env, events);
            AcceptStep(policy, env, t.state, port, raw).0 == Ok(key) <==>
            exists id :: && ParseAndVerify(raw, env.hmacKey, env.mac) == Ok(id) && key == KeyOf(id)
                         && PolicyAllows(policy, id, port) && |Connected(t.state)| < policy.maxCameras
                         && !Taken(t, id) && !Stale(t, id)
  {
    var t := Run(policy, env, events);
    RunKeeps(policy, env, events);
    LogOnEveryRun(policy, env, events);
    hide Run, ParseAndVerify, TraceOk, LogOk, Taken, Stale, Admit, Authenticate, PolicyAllows, Connected;
    var parsed := ParseAndVerify(raw, env.hmacKey, env.mac);
    if parsed.Ok? {
      AuthenticatedExactlyWhen(policy, env, port, raw, parsed.value);
      AdmittedExactlyWhen(policy, t, parsed.value);
    }
    if Authenticate(policy, env, port, raw).Ok? {
      AuthenticatedExactlyWhen(policy, env, port, raw, Authenticate(policy, env, port, raw).value);
    }
  }

  /** A genuine identity the policy allows is refused with the first of these reasons that applies. */
  lemma RefusedOnEveryRun(policy: Policy, env: Env, events: seq<Event>, port: nat, raw: Text, id: Identity)
    requires ParseAndVerify(raw, env.hmacKey, env.mac) == Ok(id)
    ensures var t := Run(policy, env, events);
            var answer := AcceptStep(policy, env, t.state, port, raw).0;
            if id.embodimentId != policy.expectedEmbodimentId then answer == Err(Embodiment)
            else if policy.expectedEdgeInstanceId.Some? && policy.expectedEdgeInstanceId.value != id.edgeInstanceId then answer == Err(EdgeInstance)
            else if id.slot >= policy.maxCameras then answer == Err(Slot)
            else if policy.basePort + id.slot > U16_MAX then answer == Err(IdentityRefused(PortOverflow))
            else if port != policy.basePort + id.slot then
              answer == Err(IdentityRefused(PortSlotMismatch(policy.basePort + id.slot, port)))
            else if |Connected(t.state)| >= policy.maxCameras then answer == Err(Capacity)
            else if Taken(t, id) then answer == Err(Duplicate)
            else if Stale(t, id) then answer == Err(StaleEpoch)
            else answer == Ok(KeyOf(id))
  {
    var t := Run(policy, env, events);
    RunKeeps(policy, env, events);
    LogOnEveryRun(policy, env, events);
    hide Run, ParseAndVerify, TraceOk, LogOk, Taken, Stale, Admit, Connected;
    AdmittedExactlyWhen(policy, t, id);
  }

  // ---- What is kept of an accept ----

  /** Event `i` let in stream `key` with this identity on this port. */
  ghost predicate LetInBy(policy: Policy, env: Env, events: seq<Event>, i: nat, key: StreamKey, id: Identity, port: nat)
    requires i < |events|
  {
    && events[i].Accept? && events[i].port == port
    && ParseAndVerify(events[i].raw, env.hmacKey, env.mac) == Ok(id)
    && AcceptStep(policy, env, Run(policy, env, events[..i]).state, port, events[i].raw).0 == Ok(key)
  }

  ghost predicate LetsIn(policy: Policy, env: Env, events: seq<Event>, i: nat, key: StreamKey)
    requires i < |events|
  {
    && events[i].Accept?
    && AcceptStep(policy, env, Run(policy, env, events[..i]).state, events[i].port, events[i].raw).0 == Ok(key)
  }

  lemma StepKeepsIdentity(policy: Policy, env: Env, t: Trace, event: Event, key: StreamKey)
    requires key in TraceStep(policy, env, t, event).state.streams
    ensures var next := TraceStep(policy, env, t, event).state.streams[key];
            if event.Accept? && AcceptStep(policy, env, t.state, event.port, event.raw).0 == Ok(key) then
              ParseAndVerify(event.raw, env.hmacKey, env.mac) == Ok(next.identity) && next.listenPort == event.port
            else
              && key in t.state.streams && next.identity == t.state.streams[key].identity
              && next.listenPort == t.state.streams[key].listenPort
  {
    hide ParseAndVerify, Admit, Connected;
    if event.Ingest? {
      var (result, next) := IngestStep(policy, env, t.state, event.key, event.pts, event.accessUnit);
      if result.Ok? {
        IngestUpdates(policy, env, t.state, event.key, event.pts, event.accessUnit);
      }
    }
  }

  /** On every run, a stream's identity and port are those of its latest accept. */
  lemma {:induction false} IdentityOnEveryRun(policy: Policy, env: Env, events: seq<Event>, key: StreamKey) returns (i: nat)
    requires key in Run(policy, env, events).state.streams
    ensures i < |events|
    ensures var record := Run(policy, env, events).state.streams[key];
            LetInBy(policy, env, events, i, key, record.identity, record.listenPort)
    ensures forall j :: i < j < |events| ==> !LetsIn(policy, env, events, j, key)
    decreases |events|
  {
    hide Run, LetsIn, LetInBy, ParseAndVerify;
    LastEvent(policy, env, events, key);
    var n, record := |events| - 1, Run(policy, env, events).state.streams[key];
    if LetsIn(policy, env, events, n, key) {
      i := n;
    } else {
      var earlier := events[..n];
      i := IdentityOnEveryRun(policy, env, earlier, key);
      SameBefore(policy, env, earlier, events, i, key, record.identity, record.listenPort);
      forall j | i < j < |events|
        ensures !LetsIn(policy, env, events, j, key)
      {
        if j < n {
          SameBefore(policy, env, earlier, events, j, key, record.identity, record.listenPort);
        }
      }
    }
  }

  /** The last event let the stream in, or left its identity and port alone. */
  lemma LastEvent(policy: Policy, env: Env, events: seq<Event>, key: StreamKey)
    requires key in Run(policy, env, events).state.streams
    ensures events != []
    ensures var n, record := |events| - 1, Run(policy, env, events).state.streams[key];
            if LetsIn(policy, env, events, n, key) then LetInBy(policy, env, events, n, key, record.identity, record.listenPort)
            else
              && key in Run(policy, env, events[..n]).state.streams
              && record.identity == Run(policy, env, events[..n]).state.streams[key].identity
              && record.listenPort == Run(policy, env, events[..n]).state.streams[key].listenPort
  {
    hide TraceStep, AcceptStep, ParseAndVerify;
    var n := |events| - 1;
    StepKeepsIdentity(policy, env, Run(policy, env, events[..n]), events[n], key);
  }

  lemma SameBefore(
      policy: Policy, env: Env, earlier: seq<Event>, events: seq<Event>, i: nat, key: StreamKey, id: Identity, port: nat)
    requires i < |earlier| && earlier <= events
    ensures LetsIn(policy, env, earlier, i, key) == LetsIn(policy, env, events, i, key)
    ensures LetInBy(policy, env, earlier, i, key, id, port) == LetInBy(policy, env, events, i, key, id, port)
  {
    hide Run, AcceptStep, ParseAndVerify;
    assert earlier[..i] == events[..i];
  }

  /** On every run, a stream is known exactly if it was ever let in, and connected exactly if not disconnected since. */
  lemma ConnectedOnEveryRun(policy: Policy, env: Env, events: seq<Event>, key: StreamKey)
    ensures var t := Run(policy, env, events);
            && (key in t.state.streams <==> key in t.accepted)
            && (key in t.state.streams ==>
                  key in t.past && (t.state.streams[key].connected <==> Listening !in t.past[key].trail))
  {
    LogOnEveryRun(policy, env, events);
    hide Run;
    var t := Run(policy, env, events);
    if key in t.state.streams {
      assert ConnectionOk(t, key);
    }
  }

  /** One stage and the stage right after it. */
  ghost predicate Follows(from: BootstrapState, to: BootstrapState) {
    exists i :: 0 <= i < 4 && STAGES[i] == from && STAGES[i + 1] == to
  }

  lemma TrailIsThere(trail: seq<BootstrapState>)
    requires ValidTrail(trail)
    ensures trail != []
  {
  }

  /** A stream moves to quarantine from anywhere, and otherwise only to the next stage. */
  lemma MovesExactlyWhen(policy: Policy, env: Env, events: seq<Event>, key: StreamKey, to: BootstrapState)
    ensures var t := Run(policy, env, events);
            var (answer, next) := TransitionStep(t.state, key, to);
            if key !in t.accepted then answer == Err(Unknown) && next == t.state
            else
              && key in t.past && t.past[key].trail != []
              && var now := t.past[key].trail[|t.past[key].trail| - 1];
              && (answer.Ok? <==> to == Quarantined || Follows(now, to))
              && (answer.Err? ==> answer == Err(IllegalTransition) && next == t.state)
  {
    var t := Run(policy, env, events);
    RunKeeps(policy, env, events);
    ConnectedOnEveryRun(policy, env, events, key);
    hide Run, TraceOk, InOrder, IngestQueue.Means, Legal, Follows, ValidTrail;
    if key in t.state.streams {
      PastOf(policy, t, key);
      TrailIsThere(t.past[key].trail);
      NextStage(t.state.streams[key].state, to);
    }
  }

  lemma StageAt(i: nat)
    requires i < 4
    ensures STAGES[i] == (if i == 0 then TransportIdentified else if i == 1 then MediaProbing
                          else if i == 2 then ProvisionalStream else ManifestValidated)
    ensures STAGES[i + 1] == (if i == 0 then MediaProbing else if i == 1 then ProvisionalStream
                              else if i == 2 then ManifestValidated else DatasetReady)
  {
  }

  lemma NextStage(from: BootstrapState, to: BootstrapState)
    ensures Legal(from, to) <==> to == Quarantined || Follows(from, to)
  {
    if Legal(from, to) && to != Quarantined {
      var i := if from == TransportIdentified then 0 else if from == MediaProbing then 1
               else if from == ProvisionalStream then 2 else 3;
      StageAt(i);
      assert STAGES[i] == from && STAGES[i + 1] == to;
    }
    if Follows(from, to) {
      var i :| 0 <= i < 4 && STAGES[i] == from && STAGES[i + 1] == to;
      StageAt(i);
    }
  }

  // ---- What each event leaves behind ----

  lemma OneMoreEvent(policy: Policy, env: Env, events: seq<Event>, event: Event)
    ensures Run(policy, env, events + [event]) == TraceStep(policy, env, Run(policy, env, events), event)
  {
    assert (events + [event])[..|events|] == events;
  }

  /**
   * On every run, letting a stream in is logged and leaves a fresh record for it, with its
   * identity and port, connected, nothing delivered; no other stream changes. A refusal
   * changes nothing.
   */
  lemma LetInLeaves(policy: Policy, env: Env, events: seq<Event>, port: nat, raw: Text)
    ensures var t, next := Run(policy, env, events), Run(policy, env, events + [Accept(port, raw)]);
            var answer := AcceptStep(policy, env, t.state, port, raw).0;
            if answer.Err? then next == t
            else
              var key := answer.value;
              && next.accepted == t.accepted + [key] && key in next.past && next.past[key] == Past([TransportIdentified], [])
              && key in next.state.streams
              && next.state.streams == t.state.streams[key := next.state.streams[key]]
              && var record := next.state.streams[key];
              && ParseAndVerify(raw, env.hmacKey, env.mac) == Ok(record.identity)
              && record == Record(record.identity, port, TransportIdentified, true, None, None, 0, IngestQueue.NewQueue())
  {
    hide Run, ParseAndVerify, Admit;
    OneMoreEvent(policy, env, events, Accept(port, raw));
  }

  /** On every run, a disconnect is answered for every stream ever let in, and only disconnects it. */
  lemma DisconnectLeaves(policy: Policy, env: Env, events: seq<Event>, key: StreamKey)
    ensures var t, next := Run(policy, env, events), Run(policy, env, events + [Disconnect(key)]);
            var answer := DisconnectStep(t.state, key).0;
            if key !in t.accepted then answer == Err(Unknown) && next == t
            else
              && answer == Ok(()) && key in t.state.streams
              && next.state == t.state.(streams := t.state.streams[key := t.state.streams[key].(connected := false, state := Listening)])
              && next.accepted == t.accepted && key !in Connected(next.state)
              && (forall other :: other != key ==> (other in Connected(next.state) <==> other in Connected(t.state)))
  {
    ConnectedOnEveryRun(policy, env, events, key);
    hide Run;
    OneMoreEvent(policy, env, events, Disconnect(key));
  }

  /** On every run, a transition that is answered moves the one stream and nothing else. */
  lemma MoveLeaves(policy: Policy, env: Env, events: seq<Event>, key: StreamKey, to: BootstrapState)
    ensures var t, next := Run(policy, env, events), Run(policy, env, events + [Transition(key, to)]);
            if TransitionStep(t.state, key, to).0.Err? then next == t
            else
              && key in t.state.streams && key in t.past && next.accepted == t.accepted
              && next.state == t.state.(streams := t.state.streams[key := t.state.streams[key].(state := to)])
              && next.past == t.past[key := t.past[key].(trail := t.past[key].trail + [to])]
  {
    ConnectedOnEveryRun(policy, env, events, key);
    hide Run, Legal;
    OneMoreEvent(policy, env, events, Transition(key, to));
  }
}
