/**
 * What the registry of `crates/receiver/src/lib.rs` delivers: every frame carries its
 * access unit, the time and the messages in it, and nothing else is ever delivered.
 */
module Delivery {
  import opened Common
  import opened IngestQueue
  import opened Registry
  import opened StreamIdentity
  import AccessUnit
  import AnnexB
  import Sei

  /** A frame of stream `key` holds what its own access unit says under the stream's role. */
  ghost predicate Genuine(policy: Policy, env: Env, key: StreamKey, role: Role, frame: Frame) {
    && frame.key == key && |frame.encoded| <= policy.limits.maxBytes
    && AccessUnit.Inspect(frame.encoded, role == Secondary, env.decode)
         == Ok(Some(AccessUnit.Inspected(frame.captureTime, frame.messages)))
  }

  ghost predicate AllGenuine(policy: Policy, env: Env, t: Trace) {
    forall key :: key in t.past && key in t.state.streams ==>
      GenuineFrames(policy, env, key, t.state.streams[key].identity.role, t.past[key].frames)
  }

  ghost predicate GenuineFrames(policy: Policy, env: Env, key: StreamKey, role: Role, frames: seq<Frame>) {
    forall i :: 0 <= i < |frames| ==> Genuine(policy, env, key, role, frames[i])
  }

  lemma OneMoreGenuine(policy: Policy, env: Env, key: StreamKey, role: Role, frames: seq<Frame>, frame: Frame)
    requires GenuineFrames(policy, env, key, role, frames) && Genuine(policy, env, key, role, frame)
    ensures GenuineFrames(policy, env, key, role, frames + [frame])
  {
    hide Genuine;
  }

  lemma IngestIsGenuine(policy: Policy, env: Env, s: State, key: StreamKey, pts: Option<nat>, accessUnit: seq<Byte>)
    requires IngestStep(policy, env, s, key, pts, accessUnit).0.Ok?
    ensures var (result, next) := IngestStep(policy, env, s, key, pts, accessUnit);
            && key in s.streams && Genuine(policy, env, key, s.streams[key].identity.role, result.value)
            && next.streams.Keys == s.streams.Keys
            && forall other :: other in s.streams ==> next.streams[other].identity == s.streams[other].identity
  {
    hide AccessUnit.Inspect;
  }

  lemma StepKeepsGenuine(policy: Policy, env: Env, t: Trace, event: Event)
    requires AllGenuine(policy, env, t)
    ensures AllGenuine(policy, env, TraceStep(policy, env, t, event))
  {
    hide GenuineFrames;
    match event
    case Accept(port, raw) => NothingDelivered(policy, env);
    case Transition(key, to) =>
    case Disconnect(key) =>
    case Ingest(key, pts, accessUnit) =>
      hide IngestStep, AllGenuine;
      if IngestStep(policy, env, t.state, key, pts, accessUnit).0.Ok? {
        IngestKeepsGenuine(policy, env, t, key, pts, accessUnit);
      } else {
        IngestRefusals(policy, env, t.state, key, pts, accessUnit);
      }
  }

  lemma IngestKeepsGenuine(policy: Policy, env: Env, t: Trace, key: StreamKey, pts: Option<nat>, accessUnit: seq<Byte>)
    requires AllGenuine(policy, env, t) && IngestStep(policy, env, t.state, key, pts, accessUnit).0.Ok?
    ensures var (result, next) := IngestStep(policy, env, t.state, key, pts, accessUnit);
            AllGenuine(policy, env, t.(state := next, past := Delivered(t.past, key, result.value)))
  {
    hide GenuineFrames;
    var frame := IngestStep(policy, env, t.state, key, pts, accessUnit).0.value;
    IngestIsGenuine(policy, env, t.state, key, pts, accessUnit);
    hide IngestStep;
    if key in t.past {
      OneMoreGenuine(policy, env, key, t.state.streams[key].identity.role, t.past[key].frames, frame);
    }
  }

  lemma NothingDelivered(policy: Policy, env: Env)
    ensures forall key, role :: GenuineFrames(policy, env, key, role, [])
  {
  }

  /** On every run, whatever a stream has delivered since its latest accept is genuine. */
  lemma {:induction false} GenuineOnEveryRun(policy: Policy, env: Env, events: seq<Event>)
    ensures AllGenuine(policy, env, Run(policy, env, events))
  {
    hide AllGenuine, TraceStep;
    if events == [] {
      NothingYet(policy, env);
    } else {
      GenuineOnEveryRun(policy, env, events[..|events| - 1]);
      StepKeepsGenuine(policy, env, Run(policy, env, events[..|events| - 1]), events[|events| - 1]);
    }
  }

  lemma NothingYet(policy: Policy, env: Env)
    ensures AllGenuine(policy, env, START)
  {
  }

  /** The pts or the time does not exceed that of the last frame delivered. */
  predicate NotLater(frames: seq<Frame>, pts: nat, time: nat) {
    frames != [] && (pts <= frames[|frames| - 1].pts || time <= frames[|frames| - 1].captureTime)
  }

  /**
   * On every run, what an ingest answers: the frame with the stream's key, the pts, the next
   * ordinal, the time, the access unit and the messages; or the first reason to refuse.
   */
  lemma IngestAnswers(
      policy: Policy, env: Env, events: seq<Event>, key: StreamKey, pts: nat, accessUnit: seq<Byte>)
    requires key in Run(policy, env, events).state.streams
    ensures var t := Run(policy, env, events);
            && key in t.past
            && var frames := t.past[key].frames;
            var verdict := AccessUnit.Inspect(accessUnit, t.state.streams[key].identity.role == Secondary, env.decode);
            IngestStep(policy, env, t.state, key, Some(pts), accessUnit).0 ==
            match verdict
            case Err(error) => Err(CodecRefused(error))
            case Ok(None) => Err(MissingTimestamp)
            case Ok(Some(inspected)) =>
              if NotLater(frames, pts, inspected.timestamp) then Err(NonMonotonic)
              else if |accessUnit| > policy.limits.maxBytes then Err(TooLarge)
              else Ok(Frame(key, pts, Min(U64_MAX, |frames|), inspected.timestamp, accessUnit, inspected.messages))
  {
    hide Run, AccessUnit.Inspect, Extended, Means, NotLater;
    LastDelivered(policy, env, events, key);
    var t := Run(policy, env, events);
    var verdict := AccessUnit.Inspect(accessUnit, t.state.streams[key].identity.role == Secondary, env.decode);
    if verdict.Ok? && verdict.value.Some? {
      NotLaterIs(t.state.streams[key], t.past[key].frames, pts, verdict.value.value.timestamp);
    }
  }

  /** The record's last times and next number are those of the frames delivered. */
  predicate Remembers(record: Record, frames: seq<Frame>) {
    && record.lastPts == (if frames == [] then None else Some(frames[|frames| - 1].pts))
    && record.lastCapture == (if frames == [] then None else Some(frames[|frames| - 1].captureTime))
    && record.nextOrdinal == Min(U64_MAX, |frames|)
  }

  lemma LastDelivered(policy: Policy, env: Env, events: seq<Event>, key: StreamKey)
    requires key in Run(policy, env, events).state.streams
    ensures var t := Run(policy, env, events); key in t.past && Remembers(t.state.streams[key], t.past[key].frames)
  {
    RunKeeps(policy, env, events);
    hide Run;
    PastOf(policy, Run(policy, env, events), key);
  }

  lemma NotLaterIs(record: Record, frames: seq<Frame>, pts: nat, time: nat)
    requires Remembers(record, frames)
    ensures NotLater(frames, pts, time) <==>
            || (record.lastPts.Some? && pts <= record.lastPts.value)
            || (record.lastCapture.Some? && time <= record.lastCapture.value)
  {
  }

  lemma IngestRefusals(policy: Policy, env: Env, s: State, key: StreamKey, pts: Option<nat>, accessUnit: seq<Byte>)
    ensures pts.None? ==> IngestStep(policy, env, s, key, pts, accessUnit).0 == Err(MissingPts)
    ensures pts.Some? && key !in s.streams ==> IngestStep(policy, env, s, key, pts, accessUnit).0 == Err(Unknown)
    ensures IngestStep(policy, env, s, key, pts, accessUnit).0.Err? ==> IngestStep(policy, env, s, key, pts, accessUnit).1 == s
  {
    hide AccessUnit.Inspect;
  }

  /**
   * End to end: an access unit enriched by the Edge with a time and additions, within the
   * size limit and later than what its stream has delivered, is delivered by the Receiver
   * with that time and exactly the old messages, the stamp and the additions.
   */
  lemma EnrichedIsDelivered(
      policy: Policy, env: Env, events: seq<Event>, key: StreamKey, pts: nat, accessUnit: seq<Byte>, t: nat,
      additions: seq<Sei.Message>, enriched: seq<Byte>)
    requires key in Run(policy, env, events).state.streams && key in Run(policy, env, events).past
    requires !NotLater(Run(policy, env, events).past[key].frames, pts, t)
    requires AccessUnit.ReadsTimestamps(env.decode) && 0 < t <= U64_MAX
    requires AccessUnit.Inspect(accessUnit, false, env.decode) == Ok(None)
    requires AccessUnit.FirstSlice(AnnexB.Split(accessUnit).value).Some?
    requires AccessUnit.AllEncodable(additions)
    requires var old' := AccessUnit.AllMessages(AnnexB.Split(accessUnit).value).value;
             && !AccessUnit.SharesUuid(old', additions)
             && |old'| + 1 + |additions| <= AccessUnit.MAX_SEI_MESSAGES_PER_AU
             && (Run(policy, env, events).state.streams[key].identity.role == Secondary ==>
                   AccessUnit.OnlyOrdinary(old') && AccessUnit.OnlyOrdinary(additions))
    requires AccessUnit.WithUuid(additions, AccessUnit.SYNC_TIMESTAMP_UUID) == []
    requires AccessUnit.InjectTimestamp(accessUnit, t, env.decode).Ok?
    requires AccessUnit.InjectUserData(AccessUnit.InjectTimestamp(accessUnit, t, env.decode).value, additions, env.decode)
             == Ok(enriched)
    requires |enriched| <= policy.limits.maxBytes
    ensures var frames := Run(policy, env, events).past[key].frames;
            var nals := AnnexB.Split(accessUnit).value;
            var k := AccessUnit.FirstSlice(nals).value;
            var stamp := Sei.Message(AccessUnit.SYNC_TIMESTAMP_UUID, AccessUnit.TimestampBytes(t));
            && AccessUnit.AllMessages(nals[..k]).Some? && AccessUnit.AllMessages(nals[k..]).Some?
            && IngestStep(policy, env, Run(policy, env, events).state, key, Some(pts), enriched).0 ==
               Ok(Frame(key, pts, Min(U64_MAX, |frames|), t, enriched,
                        AccessUnit.AllMessages(nals[..k]).value + ([stamp] + additions) + AccessUnit.AllMessages(nals[k..]).value))
  {
    hide Run, AccessUnit.Inspect, AccessUnit.AllMessages, AccessUnit.WithUuid, AccessUnit.FirstSlice, AccessUnit.SharesUuid,
         AccessUnit.InjectTimestamp, AccessUnit.InjectUserData, AnnexB.Split, IngestStep, NotLater, AccessUnit.OnlyOrdinary;
    var secondary := Run(policy, env, events).state.streams[key].identity.role == Secondary;
    AccessUnit.EnrichThenInspect(accessUnit, t, additions, secondary, env.decode);
    IngestAnswers(policy, env, events, key, pts, enriched);
  }
}
