/**
 * Grouping frames into dataset steps, `StepSynchronizer` of
 * `crates/receiver/src/synchronize.rs`: each anchor frame takes the nearest queued
 * frame of every other camera, and no frame is ever used twice.
 */
module Synchronizer {
  import opened Common
  import opened SessionManifest
  import opened Text
  import IngestQueue
  import Registry

  datatype StoredFrame = StoredFrame(
    cameraId: Text, captureTime: nat, epoch: nat, pts: nat, ordinal: nat, encoded: seq<Byte>)

  /** A frame of a step and its signed distance from the anchor. */
  datatype Choice = Choice(frame: StoredFrame, skew: int)

  /** The anchor, the choices in manifest order, and what is sent: all of them by camera id. */
  datatype Step = Step(anchor: StoredFrame, choices: seq<Choice>, frames: seq<Choice>)

  /** The fields of a decoded anchor context that are compared with the manifest. */
  datatype Context = Context(
    schemaVersion: nat, sessionId: seq<Byte>, revision: nat, observationSchemaId: nat, actionSchemaId: nat,
    observationLength: nat, actionLength: nat, auxiliaryLength: nat, anchorFrameSeq: nat)

  datatype Config = Config(manifest: Manifest, maxFrames: nat, maxSkew: nat)

  type Queues = map<Text, seq<StoredFrame>>

  const I64_MAX := 0x7FFF_FFFF_FFFF_FFFF
  const I64_MIN := -0x8000_0000_0000_0000

  predicate FitsI64(n: int) { I64_MIN <= n <= I64_MAX }

  function StreamedIds(cameras: seq<Camera>): seq<Text> {
    if cameras == [] then []
    else (if cameras[0].excluded then [] else [cameras[0].id]) + StreamedIds(cameras[1..])
  }

  /** The streamed cameras other than the anchor, in manifest order. */
  function Secondaries(ids: seq<Text>, anchorId: Text): seq<Text> {
    if ids == [] then []
    else (if ids[0] == anchorId then [] else [ids[0]]) + Secondaries(ids[1..], anchorId)
  }

  function SecondaryCameras(cfg: Config): seq<Text> {
    Secondaries(StreamedIds(cfg.manifest.cameras), cfg.manifest.anchorCameraId)
  }

  function InitialQueues(cfg: Config): Queues {
    map id | id in StreamedIds(cfg.manifest.cameras) :: []
  }

  predicate ContextOk(m: Manifest, anchor: StoredFrame, c: Context) {
    && c.schemaVersion == 1 && c.sessionId == m.sessionId && c.revision == m.revision
    && c.observationSchemaId == m.observationSchemaId && c.actionSchemaId == m.actionSchemaId
    && c.observationLength == m.observationLength && c.actionLength == m.actionLength
    && c.auxiliaryLength == m.auxiliaryLength && c.anchorFrameSeq == anchor.ordinal
  }

  // ---- Pushing ----

  function PushStep(cfg: Config, queues: Queues, frame: StoredFrame): (Result<(), SynchronizeError>, Queues) {
    if frame.cameraId == cfg.manifest.anchorCameraId then (Err(NonMonotonic), queues)
    else if frame.cameraId !in queues then (Err(CameraCatalog), queues)
    else
      var q := queues[frame.cameraId];
      if q != [] && (frame.captureTime <= q[|q| - 1].captureTime || frame.ordinal <= q[|q| - 1].ordinal) then
        (Err(NonMonotonic), queues)
      else
        var room := if |q| == cfg.maxFrames && q != [] then q[1..] else q;
        (Ok(()), queues[frame.cameraId := room + [frame]])
  }

  // ---- Taking the nearest frame of one camera ----

  function Distance(frame: StoredFrame, at: nat): nat { AbsDiff(frame.captureTime, at) }

  /** The first index at the least distance. */
  function Nearest(q: seq<StoredFrame>, at: nat): (k: nat)
    requires q != []
    ensures k < |q|
    ensures forall i :: 0 <= i < |q| ==> Distance(q[k], at) <= Distance(q[i], at)
    ensures forall i :: 0 <= i < k ==> Distance(q[k], at) < Distance(q[i], at)
  {
    if |q| == 1 then 0
    else
      var k := Nearest(q[..|q| - 1], at);
      if Distance(q[|q| - 1], at) < Distance(q[k], at) then |q| - 1 else k
  }

  function DropUpTo(q: seq<StoredFrame>, time: nat): seq<StoredFrame> {
    if q != [] && q[0].captureTime <= time then DropUpTo(q[1..], time) else q
  }

  /** The frame consumed for an anchor time, if any, and the queue left behind. */
  function TakeNearest(q: seq<StoredFrame>, at: nat, maxSkew: nat): (Option<StoredFrame>, seq<StoredFrame>) {
    if q == [] || Distance(q[Nearest(q, at)], at) > maxSkew then (None, q)
    else
      var k := Nearest(q, at);
      (Some(q[k]), DropUpTo(q[..k] + q[k + 1..], q[k].captureTime))
  }

  ghost predicate Sorted(q: seq<StoredFrame>) {
    forall i, j :: 0 <= i < j < |q| ==> q[i].captureTime < q[j].captureTime
  }

  lemma {:induction false} DropPrefix(front: seq<StoredFrame>, back: seq<StoredFrame>, time: nat)
    requires forall i :: 0 <= i < |front| ==> front[i].captureTime <= time
    requires back != [] ==> time < back[0].captureTime
    ensures DropUpTo(front + back, time) == back
  {
    if front == [] {
      assert front + back == back;
    } else {
      assert (front + back)[1..] == front[1..] + back;
      DropPrefix(front[1..], back, time);
    }
  }

  /** From a sorted queue: the nearest frame, within the skew, and exactly the later frames are left. */
  lemma TakeFromSorted(q: seq<StoredFrame>, at: nat, maxSkew: nat)
    requires Sorted(q)
    ensures var (taken, rest) := TakeNearest(q, at, maxSkew);
            && (taken.None? ==> rest == q && forall i :: 0 <= i < |q| ==> Distance(q[i], at) > maxSkew)
            && (taken.Some? ==>
                  && var k := Nearest(q, at);
                  && taken.value == q[k] && rest == q[k + 1..] && Distance(q[k], at) <= maxSkew
                  && forall i :: 0 <= i < |q| ==> Distance(q[k], at) <= Distance(q[i], at))
  {
    if TakeNearest(q, at, maxSkew).0.Some? {
      var k := Nearest(q, at);
      DropPrefix(q[..k], q[k + 1..], q[k].captureTime);
    }
  }

  /**
   * A frame discarded behind the chosen one is strictly farther than it from every
   * anchor time at or after this one, so nothing useful is thrown away.
   */
  lemma DiscardedIsFarther(q: seq<StoredFrame>, at: nat, maxSkew: nat, i: nat, later: nat)
    requires Sorted(q) && TakeNearest(q, at, maxSkew).0.Some?
    requires q != [] && i < Nearest(q, at) && at <= later
    ensures q[i] !in TakeNearest(q, at, maxSkew).1
    ensures Distance(TakeNearest(q, at, maxSkew).0.value, later) < Distance(q[i], later)
  {
    hide TakeNearest, Nearest;
    TakeFromSorted(q, at, maxSkew);
    var k := Nearest(q, at);
    assert q[i].captureTime < q[k].captureTime;
    assert Distance(q[k], at) < Distance(q[i], at);
    LaterThan(q, k);
  }

  lemma LaterThan(q: seq<StoredFrame>, k: nat)
    requires Sorted(q) && k < |q|
    ensures forall f :: f in q[k + 1..] ==> f.captureTime > q[k].captureTime
  {
    forall f | f in q[k + 1..]
      ensures f.captureTime > q[k].captureTime
    {
      var j :| 0 <= j < |q[k + 1..]| && q[k + 1..][j] == f;
      assert f == q[k + 1 + j];
    }
  }

  // ---- The frames of a step, by camera id ----

  /** The order of strings, octet by octet. */
  predicate TextLeq(a: Text, b: Text) {
    a == [] || (b != [] && (a[0] < b[0] || (a[0] == b[0] && TextLeq(a[1..], b[1..]))))
  }

  lemma {:induction false} TextLeqTotal(a: Text, b: Text)
    ensures TextLeq(a, b) || TextLeq(b, a)
  {
    if a != [] && b != [] && a[0] == b[0] {
      TextLeqTotal(a[1..], b[1..]);
    }
  }

  lemma {:induction false} TextLeqTransitive(a: Text, b: Text, c: Text)
    requires TextLeq(a, b) && TextLeq(b, c)
    ensures TextLeq(a, c)
  {
    if a != [] && a[0] == b[0] == c[0] {
      TextLeqTransitive(a[1..], b[1..], c[1..]);
    }
  }

  predicate ById(a: Choice, b: Choice) { TextLeq(a.frame.cameraId, b.frame.cameraId) }

  /** `x` behind the last frame that is not after it. */
  function InsertById(frames: seq<Choice>, x: Choice): seq<Choice> {
    if frames == [] || ById(frames[|frames| - 1], x) then frames + [x]
    else InsertById(frames[..|frames| - 1], x) + [frames[|frames| - 1]]
  }

  /** The stable order by camera id. */
  function SortById(frames: seq<Choice>): seq<Choice> {
    if frames == [] then [] else InsertById(SortById(frames[..|frames| - 1]), frames[|frames| - 1])
  }

  ghost predicate OrderedById(frames: seq<Choice>) {
    forall i, j :: 0 <= i < j < |frames| ==> ById(frames[i], frames[j])
  }

  lemma {:induction false} InsertKeepsOrder(frames: seq<Choice>, x: Choice)
    requires OrderedById(frames)
    ensures OrderedById(InsertById(frames, x)) && multiset(InsertById(frames, x)) == multiset(frames) + multiset{x}
    decreases |frames|
  {
    hide TextLeq, OrderedById;
    if frames == [] {
      OrderedSnoc([], x);
    } else {
      var front, last := frames[..|frames| - 1], frames[|frames| - 1];
      assert frames == front + [last];
      OrderedFront(front, last);
      if ById(last, x) {
        AllBefore(frames, x);
        OrderedSnoc(frames, x);
      } else {
        InsertKeepsOrder(front, x);
        TextLeqTotal(last.frame.cameraId, x.frame.cameraId);
        var inserted := InsertById(front, x);
        forall y | y in inserted
          ensures ById(y, last)
        {
          assert y in multiset(inserted);
          assert y == x || y in front;
        }
        OrderedSnoc(inserted, last);
      }
    }
  }

  lemma OrderedSnoc(frames: seq<Choice>, x: Choice)
    requires OrderedById(frames) && forall y :: y in frames ==> ById(y, x)
    ensures OrderedById(frames + [x])
  {
    hide ById;
  }

  lemma OrderedFront(front: seq<Choice>, last: Choice)
    requires OrderedById(front + [last])
    ensures OrderedById(front) && forall y :: y in front ==> ById(y, last)
  {
    hide ById;
    var frames := front + [last];
    assert frames[|front|] == last && forall i :: 0 <= i < |front| ==> frames[i] == front[i];
  }

  lemma AllBefore(frames: seq<Choice>, x: Choice)
    requires OrderedById(frames) && frames != [] && ById(frames[|frames| - 1], x)
    ensures forall y :: y in frames ==> ById(y, x)
  {
    hide TextLeq;
    var last := frames[|frames| - 1];
    forall i | 0 <= i < |frames|
      ensures ById(frames[i], x)
    {
      if i < |frames| - 1 {
        TextLeqTransitive(frames[i].frame.cameraId, last.frame.cameraId, x.frame.cameraId);
      }
    }
  }

  lemma NothingOrdered()
    ensures OrderedById([])
  {
  }

  /** Sorting neither loses nor invents a frame. */
  lemma {:induction false} SortSorts(frames: seq<Choice>)
    ensures OrderedById(SortById(frames)) && multiset(SortById(frames)) == multiset(frames)
  {
    hide OrderedById, InsertById;
    if frames == [] {
      NothingOrdered();
    } else {
      var front, last := frames[..|frames| - 1], frames[|frames| - 1];
      SortSorts(front);
      InsertKeepsOrder(SortById(front), last);
      assert frames == front + [last];
    }
  }

  function MakeStep(anchor: StoredFrame, choices: seq<Choice>): Step {
    Step(anchor, choices, SortById([Choice(anchor, 0)] + choices))
  }

  // ---- One anchor step, camera by camera ----

  /** The queues, the last time consumed per camera, and what has been chosen so far. */
  datatype Progress = Progress(queues: Queues, horizon: map<Text, nat>, choices: seq<Choice>, ok: bool)

  function TakeOne(p: Progress, id: Text, at: nat, maxSkew: nat): Progress {
    if id !in p.queues then p.(ok := false)
    else
      var (taken, rest) := TakeNearest(p.queues[id], at, maxSkew);
      if taken.None? then p.(ok := false)
      else
        var frame := taken.value;
        var skew := frame.captureTime - at;
        Progress(p.queues[id := rest], p.horizon[id := frame.captureTime],
                 if FitsI64(skew) then p.choices + [Choice(frame, skew)] else p.choices, FitsI64(skew))
  }

  /** Cameras are served in order; the first that fails ends the step, with the earlier ones consumed. */
  function TakeAll(p: Progress, ids: seq<Text>, at: nat, maxSkew: nat): Progress
    decreases |ids|
  {
    if ids == [] || !p.ok then p else TakeAll(TakeOne(p, ids[0], at, maxSkew), ids[1..], at, maxSkew)
  }

  function AnchorOutcome(cfg: Config, anchor: StoredFrame, context: Option<Context>): Option<SynchronizeError> {
    if anchor.cameraId != cfg.manifest.anchorCameraId then Some(BadContext)
    else if context.None? || !ContextOk(cfg.manifest, anchor, context.value) then Some(BadContext)
    else None
  }

  // ---- Runs ----

  datatype Event = Push(frame: StoredFrame) | Anchor(anchor: StoredFrame, context: Option<Context>)

  datatype Trace = Trace(
    queues: Queues, horizon: map<Text, nat>, steps: seq<Step>, pushed: seq<StoredFrame>, accepted: seq<StoredFrame>)

  function TraceStep(cfg: Config, t: Trace, event: Event): Trace {
    match event
    case Push(frame) =>
      var (result, queues) := PushStep(cfg, t.queues, frame);
      t.(queues := queues, pushed := t.pushed + [frame],
         accepted := if result.Ok? then t.accepted + [frame] else t.accepted)
    case Anchor(anchor, context) =>
      if AnchorOutcome(cfg, anchor, context).Some? then t
      else
        var p := TakeAll(Progress(t.queues, t.horizon, [], true), SecondaryCameras(cfg), anchor.captureTime, cfg.maxSkew);
        t.(queues := p.queues, horizon := p.horizon,
           steps := if p.ok then t.steps + [MakeStep(anchor, p.choices)] else t.steps)
  }

  function Run(cfg: Config, events: seq<Event>): Trace {
    if events == [] then Trace(InitialQueues(cfg), map[], [], [], [])
    else TraceStep(cfg, Run(cfg, events[..|events| - 1]), events[|events| - 1])
  }

  /** A frame that is accepted is later than what its camera has given to steps. */
  ghost predicate PushIsPast(cfg: Config, t: Trace, event: Event) {
    event.Push? && PushStep(cfg, t.queues, event.frame).0.Ok? && event.frame.cameraId in t.horizon ==>
      t.horizon[event.frame.cameraId] < event.frame.captureTime
  }

  ghost predicate PastHorizon(cfg: Config, events: seq<Event>) {
    events != [] ==>
      && PastHorizon(cfg, events[..|events| - 1])
      && PushIsPast(cfg, Run(cfg, events[..|events| - 1]), events[|events| - 1])
  }

  /** Each camera's frames arrive in strictly increasing capture time. */
  ghost predicate Monotone(pushed: seq<StoredFrame>) {
    forall i, j :: 0 <= i < j < |pushed| && pushed[i].cameraId == pushed[j].cameraId ==>
      pushed[i].captureTime < pushed[j].captureTime
  }

  // ---- What one step keeps ----

  ghost predicate QueueOk(queues: Queues, horizon: map<Text, nat>, id: Text)
    requires id in queues
  {
    && Sorted(queues[id])
    && (forall i :: 0 <= i < |queues[id]| ==> queues[id][i].cameraId == id)
    && (id in horizon ==> forall i :: 0 <= i < |queues[id]| ==> horizon[id] < queues[id][i].captureTime)
  }

  ghost predicate QueuesOk(queues: Queues, horizon: map<Text, nat>) {
    forall id :: id in queues ==> QueueOk(queues, horizon, id)
  }

  /** The horizon of every camera only moves forward. */
  ghost predicate Forward(before: map<Text, nat>, after: map<Text, nat>) {
    forall id :: id in before ==> id in after && before[id] <= after[id]
  }

  /** The choice is past the old horizon of its camera and within the new one. */
  ghost predicate Between(before: map<Text, nat>, after: map<Text, nat>, choice: Choice) {
    var id := choice.frame.cameraId;
    && id in after && choice.frame.captureTime <= after[id]
    && (id in before ==> before[id] < choice.frame.captureTime)
  }

  /** Every frame queued or consumed was pushed. */
  ghost predicate FromPushed(queues: Queues, horizon: map<Text, nat>, pushed: seq<StoredFrame>) {
    && (forall id :: id in queues ==> forall i :: 0 <= i < |queues[id]| ==> queues[id][i] in pushed)
    && (forall id :: id in horizon ==> exists f :: f in pushed && f.cameraId == id && f.captureTime == horizon[id])
  }

  /** A queue whose frames are in order, all of one camera, and all pushed. */
  ghost predicate CameraQueue(q: seq<StoredFrame>, id: Text, pushed: seq<StoredFrame>) {
    Sorted(q) && forall i :: 0 <= i < |q| ==> q[i].cameraId == id && q[i] in pushed
  }

  /** Replacing one camera's queue and horizon by a matching pair. */
  lemma ReplaceQueue(
      queues: Queues, horizon: map<Text, nat>, id: Text, q: seq<StoredFrame>, mark: nat, pushed: seq<StoredFrame>)
    requires QueuesOk(queues, horizon) && FromPushed(queues, horizon, pushed)
    requires CameraQueue(q, id, pushed) && forall i :: 0 <= i < |q| ==> mark < q[i].captureTime
    requires exists f :: f in pushed && f.cameraId == id && f.captureTime == mark
    ensures QueuesOk(queues[id := q], horizon[id := mark]) && FromPushed(queues[id := q], horizon[id := mark], pushed)
  {
    var updated := queues[id := q];
    forall other | other in updated
      ensures QueueOk(updated, horizon[id := mark], other)
    {
      assert other != id ==> QueueOk(queues, horizon, other);
    }
  }

  /** Replacing one camera's queue only. */
  lemma SetQueue(queues: Queues, horizon: map<Text, nat>, id: Text, q: seq<StoredFrame>, pushed: seq<StoredFrame>)
    requires QueuesOk(queues, horizon) && FromPushed(queues, horizon, pushed) && CameraQueue(q, id, pushed)
    requires id in horizon ==> forall i :: 0 <= i < |q| ==> horizon[id] < q[i].captureTime
    ensures QueuesOk(queues[id := q], horizon) && FromPushed(queues[id := q], horizon, pushed)
  {
    var updated := queues[id := q];
    forall other | other in updated
      ensures QueueOk(updated, horizon, other)
    {
      assert other != id ==> QueueOk(queues, horizon, other);
    }
  }

  lemma CameraQueueOf(queues: Queues, horizon: map<Text, nat>, id: Text, pushed: seq<StoredFrame>)
    requires QueuesOk(queues, horizon) && FromPushed(queues, horizon, pushed) && id in queues
    ensures CameraQueue(queues[id], id, pushed)
    ensures id in horizon ==> forall i :: 0 <= i < |queues[id]| ==> horizon[id] < queues[id][i].captureTime
  {
    assert QueueOk(queues, horizon, id);
  }

  lemma LaterFrames(q: seq<StoredFrame>, k: nat, rest: seq<StoredFrame>, id: Text, pushed: seq<StoredFrame>)
    requires CameraQueue(q, id, pushed) && k < |q| && rest == q[k + 1..]
    ensures CameraQueue(rest, id, pushed)
    ensures forall i :: 0 <= i < |rest| ==> q[k].captureTime < rest[i].captureTime
  {
  }

  lemma TakeOneKeeps(p: Progress, id: Text, at: nat, maxSkew: nat, pushed: seq<StoredFrame>)
    requires QueuesOk(p.queues, p.horizon) && FromPushed(p.queues, p.horizon, pushed)
    ensures var next := TakeOne(p, id, at, maxSkew);
            && QueuesOk(next.queues, next.horizon) && FromPushed(next.queues, next.horizon, pushed)
            && Forward(p.horizon, next.horizon) && p.choices <= next.choices
            && forall i :: |p.choices| <= i < |next.choices| ==> Between(p.horizon, next.horizon, next.choices[i])
  {
    hide QueuesOk, FromPushed, TakeNearest;
    if id in p.queues && TakeNearest(p.queues[id], at, maxSkew).0.Some? {
      var q := p.queues[id];
      CameraQueueOf(p.queues, p.horizon, id, pushed);
      var k := TakenAt(q, at, maxSkew);
      LaterFrames(q, k, q[k + 1..], id, pushed);
      ReplaceQueue(p.queues, p.horizon, id, q[k + 1..], q[k].captureTime, pushed);
    }
  }

  lemma TakenAt(q: seq<StoredFrame>, at: nat, maxSkew: nat) returns (k: nat)
    requires Sorted(q) && TakeNearest(q, at, maxSkew).0.Some?
    ensures k < |q| && TakeNearest(q, at, maxSkew) == (Some(q[k]), q[k + 1..])
  {
    TakeFromSorted(q, at, maxSkew);
    k := Nearest(q, at);
  }

  ghost predicate AllBetween(before: map<Text, nat>, after: map<Text, nat>, choices: seq<Choice>) {
    forall i :: 0 <= i < |choices| ==> Between(before, after, choices[i])
  }

  lemma BetweenWidens(base: map<Text, nat>, before: map<Text, nat>, after: map<Text, nat>, choice: Choice)
    requires Forward(base, before) && Forward(before, after)
    ensures Forward(base, after)
    ensures Between(base, before, choice) ==> Between(base, after, choice)
    ensures Between(before, after, choice) ==> Between(base, after, choice)
  {
  }

  lemma {:induction false} TakeAllKeeps(
      base: map<Text, nat>, p: Progress, ids: seq<Text>, at: nat, maxSkew: nat, pushed: seq<StoredFrame>)
    requires QueuesOk(p.queues, p.horizon) && FromPushed(p.queues, p.horizon, pushed)
    requires Forward(base, p.horizon) && AllBetween(base, p.horizon, p.choices)
    ensures var last := TakeAll(p, ids, at, maxSkew);
            && QueuesOk(last.queues, last.horizon) && FromPushed(last.queues, last.horizon, pushed)
            && Forward(base, last.horizon) && AllBetween(base, last.horizon, last.choices)
    decreases |ids|
  {
    if ids != [] && p.ok {
      var next := TakeOne(p, ids[0], at, maxSkew);
      TakeOneKeeps(p, ids[0], at, maxSkew, pushed);
      assert Forward(base, next.horizon);
      forall i | 0 <= i < |next.choices|
        ensures Between(base, next.horizon, next.choices[i])
      {
        BetweenWidens(base, p.horizon, next.horizon, next.choices[i]);
        assert i < |p.choices| ==> next.choices[i] == p.choices[i];
      }
      TakeAllKeeps(base, next, ids[1..], at, maxSkew, pushed);
    }
  }

  // ---- What every run keeps ----

  /** No choice of a step is past its camera's horizon. */
  ghost predicate StepsBehind(steps: seq<Step>, horizon: map<Text, nat>) {
    forall i, a :: 0 <= i < |steps| && a in steps[i].choices ==>
      a.frame.cameraId in horizon && a.frame.captureTime <= horizon[a.frame.cameraId]
  }

  /** A camera's frames in later steps were captured strictly later. */
  ghost predicate StepsOrdered(steps: seq<Step>) {
    forall i, j, a, b :: 0 <= i < j < |steps| && a in steps[i].choices && b in steps[j].choices ==>
      a.frame.cameraId == b.frame.cameraId ==> a.frame.captureTime < b.frame.captureTime
  }

  ghost predicate TraceOk(t: Trace) {
    && QueuesOk(t.queues, t.horizon) && FromPushed(t.queues, t.horizon, t.pushed)
    && StepsBehind(t.steps, t.horizon) && StepsOrdered(t.steps)
  }

  lemma PushKeeps(cfg: Config, t: Trace, frame: StoredFrame)
    requires TraceOk(t) && PushIsPast(cfg, t, Push(frame))
    ensures TraceOk(TraceStep(cfg, t, Push(frame)))
  {
    MorePushed(t.queues, t.horizon, t.pushed, frame);
    if PushStep(cfg, t.queues, frame).0.Ok? {
      AppendToQueue(cfg, t, frame);
    }
  }

  lemma MorePushed(queues: Queues, horizon: map<Text, nat>, pushed: seq<StoredFrame>, frame: StoredFrame)
    requires FromPushed(queues, horizon, pushed)
    ensures FromPushed(queues, horizon, pushed + [frame])
  {
    assert forall f :: f in pushed ==> f in pushed + [frame];
  }

  lemma AppendToQueue(cfg: Config, t: Trace, frame: StoredFrame)
    requires QueuesOk(t.queues, t.horizon) && FromPushed(t.queues, t.horizon, t.pushed)
    requires PushIsPast(cfg, t, Push(frame)) && PushStep(cfg, t.queues, frame).0.Ok?
    ensures var queues := PushStep(cfg, t.queues, frame).1;
            QueuesOk(queues, t.horizon) && FromPushed(queues, t.horizon, t.pushed + [frame])
  {
    hide QueuesOk, FromPushed;
    var id, pushed := frame.cameraId, t.pushed + [frame];
    var q := t.queues[id];
    var room := if |q| == cfg.maxFrames && q != [] then q[1..] else q;
    MorePushed(t.queues, t.horizon, t.pushed, frame);
    CameraQueueOf(t.queues, t.horizon, id, pushed);
    assert CameraQueue(room + [frame], id, pushed);
    SetQueue(t.queues, t.horizon, id, room + [frame], pushed);
  }

  lemma HorizonBehind(queues: Queues, horizon: map<Text, nat>, pushed: seq<StoredFrame>, frame: StoredFrame)
    requires FromPushed(queues, horizon, pushed) && Monotone(pushed + [frame]) && frame.cameraId in horizon
    ensures horizon[frame.cameraId] < frame.captureTime
  {
    var f :| f in pushed && f.cameraId == frame.cameraId && f.captureTime == horizon[frame.cameraId];
    PushedLater(pushed, f, frame);
  }

  lemma PushedLater(pushed: seq<StoredFrame>, earlier: StoredFrame, frame: StoredFrame)
    requires Monotone(pushed + [frame]) && earlier in pushed && earlier.cameraId == frame.cameraId
    ensures earlier.captureTime < frame.captureTime
  {
    var i :| 0 <= i < |pushed| && pushed[i] == earlier;
    assert (pushed + [frame])[i] == earlier && (pushed + [frame])[|pushed|] == frame;
  }

  /** A new step past the horizon keeps the order and the bound. */
  lemma AppendStep(steps: seq<Step>, step: Step, before: map<Text, nat>, after: map<Text, nat>)
    requires StepsBehind(steps, before) && StepsOrdered(steps)
    requires Forward(before, after) && AllBetween(before, after, step.choices)
    ensures StepsBehind(steps + [step], after) && StepsOrdered(steps + [step])
  {
    var all := steps + [step];
    forall a | a in step.choices
      ensures Between(before, after, a)
    {
      var k :| 0 <= k < |step.choices| && step.choices[k] == a;
    }
    assert StepsBehind(all, after) by {
      forall i, a | 0 <= i < |all| && a in all[i].choices
        ensures a.frame.cameraId in after && a.frame.captureTime <= after[a.frame.cameraId]
      {
        if i < |steps| { assert a in steps[i].choices; }
      }
    }
    assert StepsOrdered(all) by {
      forall i, j, a, b | 0 <= i < j < |all| && a in all[i].choices && b in all[j].choices
        ensures a.frame.cameraId == b.frame.cameraId ==> a.frame.captureTime < b.frame.captureTime
      {
        assert a in steps[i].choices;
        if j < |steps| { assert b in steps[j].choices; }
      }
    }
  }

  lemma BehindForward(steps: seq<Step>, before: map<Text, nat>, after: map<Text, nat>)
    requires StepsBehind(steps, before) && Forward(before, after)
    ensures StepsBehind(steps, after)
  {
  }

  lemma SelfForward(horizon: map<Text, nat>)
    ensures Forward(horizon, horizon)
  {
  }

  lemma AnchorKeeps(cfg: Config, t: Trace, anchor: StoredFrame, context: Option<Context>)
    requires TraceOk(t)
    ensures TraceOk(TraceStep(cfg, t, Anchor(anchor, context)))
  {
    hide TakeAll, SortById, QueuesOk, FromPushed, StepsBehind, StepsOrdered, SecondaryCameras, Forward, ContextOk;
    if AnchorOutcome(cfg, anchor, context).None? {
      var start := Progress(t.queues, t.horizon, [], true);
      var p := TakeAll(start, SecondaryCameras(cfg), anchor.captureTime, cfg.maxSkew);
      SelfForward(t.horizon);
      TakeAllKeeps(t.horizon, start, SecondaryCameras(cfg), anchor.captureTime, cfg.maxSkew, t.pushed);
      AppendStep(t.steps, MakeStep(anchor, p.choices), t.horizon, p.horizon);
      BehindForward(t.steps, t.horizon, p.horizon);
    }
  }

  lemma {:induction false} RunKeeps(cfg: Config, events: seq<Event>)
    requires PastHorizon(cfg, events)
    ensures TraceOk(Run(cfg, events))
  {
    if events != [] {
      var earlier, event := events[..|events| - 1], events[|events| - 1];
      RunKeeps(cfg, earlier);
      match event
      case Push(frame) => PushKeeps(cfg, Run(cfg, earlier), frame);
      case Anchor(anchor, context) => AnchorKeeps(cfg, Run(cfg, earlier), anchor, context);
    }
  }

  /** Frames that arrive in order are past the horizon. */
  lemma {:induction false} MonotoneIsPast(cfg: Config, events: seq<Event>)
    requires Monotone(Run(cfg, events).pushed)
    ensures PastHorizon(cfg, events)
  {
    if events != [] {
      var earlier, event := events[..|events| - 1], events[|events| - 1];
      var t := Run(cfg, earlier);
      assert Monotone(t.pushed) by {
        assert event.Push? ==> Run(cfg, events).pushed == t.pushed + [event.frame];
        assert t.pushed <= Run(cfg, events).pushed;
      }
      MonotoneIsPast(cfg, earlier);
      RunKeeps(cfg, earlier);
      if event.Push? && event.frame.cameraId in t.horizon {
        HorizonBehind(t.queues, t.horizon, t.pushed, event.frame);
      }
    }
  }

  /**
   * When every accepted frame is past its camera's horizon, then over the whole run the
   * frames a camera contributes to successive steps have strictly increasing times.
   */
  lemma ChosenTimesIncrease(cfg: Config, events: seq<Event>, i: nat, j: nat, a: Choice, b: Choice)
    requires PastHorizon(cfg, events) && i < j < |Run(cfg, events).steps|
    requires a in Run(cfg, events).steps[i].choices && b in Run(cfg, events).steps[j].choices
    ensures a.frame.cameraId == b.frame.cameraId ==> a.frame.captureTime < b.frame.captureTime
  {
    RunKeeps(cfg, events);
  }

  ghost predicate AheadAt(cfg: Config, events: seq<Event>, k: nat)
    requires k <= |events|
  {
    QueuesOk(Run(cfg, events[..k]).queues, Run(cfg, events[..k]).horizon)
  }

  /** The condition is exact: it holds when and only when no queue ever holds a frame behind its camera's horizon. */
  lemma {:induction false} PastHorizonExactlyWhen(cfg: Config, events: seq<Event>)
    ensures PastHorizon(cfg, events) <==> forall k :: 0 <= k <= |events| ==> AheadAt(cfg, events, k)
  {
    assert events[..|events|] == events;
    if events == [] {
      RunKeeps(cfg, events);
    } else {
      var earlier, event := events[..|events| - 1], events[|events| - 1];
      PastHorizonExactlyWhen(cfg, earlier);
      forall k | 0 <= k <= |earlier|
        ensures AheadAt(cfg, earlier, k) <==> AheadAt(cfg, events, k)
      {
        assert earlier[..k] == events[..k];
      }
      if PastHorizon(cfg, events) {
        RunKeeps(cfg, events);
      } else if PastHorizon(cfg, earlier) {
        BehindShows(cfg, Run(cfg, earlier), event);
        assert !AheadAt(cfg, events, |events|);
      }
    }
  }

  lemma BehindShows(cfg: Config, t: Trace, event: Event)
    requires !PushIsPast(cfg, t, event)
    ensures var next := TraceStep(cfg, t, event); !QueuesOk(next.queues, next.horizon)
  {
    var next := TraceStep(cfg, t, event);
    var q := next.queues[event.frame.cameraId];
    assert q[|q| - 1] == event.frame;
    assert !QueueOk(next.queues, next.horizon, event.frame.cameraId);
  }

  /** No frame reuse, when each camera's frames arrive in strictly increasing time. */
  lemma NoFrameReuse(cfg: Config, events: seq<Event>, i: nat, j: nat, a: Choice, b: Choice)
    requires Monotone(Run(cfg, events).pushed)
    requires i < j < |Run(cfg, events).steps|
    requires a in Run(cfg, events).steps[i].choices && b in Run(cfg, events).steps[j].choices
    ensures a.frame != b.frame
    ensures a.frame.cameraId == b.frame.cameraId ==> a.frame.captureTime < b.frame.captureTime
  {
    MonotoneIsPast(cfg, events);
    RunKeeps(cfg, events);
  }

  // ---- What a successful step contains ----

  ghost predicate Distinct(ids: seq<Text>) {
    forall i, j :: 0 <= i < j < |ids| ==> ids[i] != ids[j]
  }

  /** The choice for a camera is the nearest frame of its queue, within the skew. */
  ghost predicate NearestIn(choice: Choice, q: seq<StoredFrame>, at: nat, maxSkew: nat) {
    && choice.frame in q && choice.skew == choice.frame.captureTime - at
    && Distance(choice.frame, at) <= maxSkew
    && forall i :: 0 <= i < |q| ==> Distance(choice.frame, at) <= Distance(q[i], at)
  }

  /** From `at` on, `lost` is farther from every anchor time than the chosen frame. */
  ghost predicate FartherFrom(lost: StoredFrame, chosen: StoredFrame, at: nat) {
    forall later: nat :: at <= later ==> Distance(chosen, later) < Distance(lost, later)
  }

  /**
   * The choice is the nearest of the queue; what is left are the frames behind it, and
   * every other frame is farther from this and every later anchor time.
   */
  ghost predicate ServedFrom(choice: Choice, q: seq<StoredFrame>, rest: seq<StoredFrame>, at: nat, maxSkew: nat) {
    && NearestIn(choice, q, at, maxSkew)
    && exists k :: 0 <= k < |q| && q[k] == choice.frame && rest == q[k + 1..]
                   && forall i :: 0 <= i < k ==> FartherFrom(q[i], choice.frame, at)
  }

  lemma DiscardedAreFarther(q: seq<StoredFrame>, at: nat, maxSkew: nat, k: nat)
    requires Sorted(q) && k < |q| && TakeNearest(q, at, maxSkew) == (Some(q[k]), q[k + 1..])
    ensures forall i :: 0 <= i < k ==> FartherFrom(q[i], q[k], at)
  {
    TakeFromSorted(q, at, maxSkew);
    assert Nearest(q, at) == k;
    forall i, later: nat | 0 <= i < k && at <= later
      ensures Distance(q[k], later) < Distance(q[i], later)
    {
      DiscardedIsFarther(q, at, maxSkew, i, later);
    }
  }

  lemma TakeOneNearest(p: Progress, id: Text, at: nat, maxSkew: nat)
    requires p.ok && TakeOne(p, id, at, maxSkew).ok && (id in p.queues ==> Sorted(p.queues[id]))
    ensures var next := TakeOne(p, id, at, maxSkew);
            && id in p.queues && next.queues.Keys == p.queues.Keys
            && (forall other :: other in p.queues && other != id ==> next.queues[other] == p.queues[other])
            && |next.choices| == |p.choices| + 1 && p.choices <= next.choices
            && ServedFrom(next.choices[|p.choices|], p.queues[id], next.queues[id], at, maxSkew)
  {
    var q := p.queues[id];
    var k := TakenAt(q, at, maxSkew);
    TakeFromSorted(q, at, maxSkew);
    DiscardedAreFarther(q, at, maxSkew, k);
  }

  ghost predicate AllSorted(queues: Queues) { forall id :: id in queues ==> Sorted(queues[id]) }

  /** A successful step has one choice per secondary camera, served from the queue it found. */
  lemma {:induction false} StepTakesNearest(p: Progress, ids: seq<Text>, at: nat, maxSkew: nat)
    requires p.ok && Distinct(ids) && TakeAll(p, ids, at, maxSkew).ok && AllSorted(p.queues)
    ensures var last := TakeAll(p, ids, at, maxSkew);
            && |last.choices| == |p.choices| + |ids| && p.choices <= last.choices && last.queues.Keys == p.queues.Keys
            && (forall id :: id in p.queues && id !in ids ==> last.queues[id] == p.queues[id])
            && forall k :: 0 <= k < |ids| ==>
                 && ids[k] in p.queues
                 && ServedFrom(last.choices[|p.choices| + k], p.queues[ids[k]], last.queues[ids[k]], at, maxSkew)
    decreases |ids|
  {
    hide TakeOne, ServedFrom, Sorted;
    if ids != [] {
      var next, tail := TakeOne(p, ids[0], at, maxSkew), ids[1..];
      assert !next.ok ==> TakeAll(p, ids, at, maxSkew) == next;
      TakeOneNearest(p, ids[0], at, maxSkew);
      ServedStaysSorted(p, ids[0], at, maxSkew);
      StepTakesNearest(next, tail, at, maxSkew);
      assert ids[0] !in tail;
      var last := TakeAll(p, ids, at, maxSkew);
      forall k | 0 <= k < |ids|
        ensures ids[k] in p.queues
        ensures ServedFrom(last.choices[|p.choices| + k], p.queues[ids[k]], last.queues[ids[k]], at, maxSkew)
      {
        if k == 0 {
          assert last.choices[|p.choices|] == next.choices[|p.choices|];
        } else {
          assert tail[k - 1] == ids[k] && |next.choices| + (k - 1) == |p.choices| + k;
        }
      }
    }
  }

  lemma ServedStaysSorted(p: Progress, id: Text, at: nat, maxSkew: nat)
    requires AllSorted(p.queues)
    ensures AllSorted(TakeOne(p, id, at, maxSkew).queues)
  {
    if id in p.queues && TakeNearest(p.queues[id], at, maxSkew).0.Some? {
      var k := TakenAt(p.queues[id], at, maxSkew);
    }
  }

  lemma {:induction false} TakeAllSorted(p: Progress, ids: seq<Text>, at: nat, maxSkew: nat)
    requires AllSorted(p.queues)
    ensures AllSorted(TakeAll(p, ids, at, maxSkew).queues)
    decreases |ids|
  {
    hide AllSorted;
    if ids != [] && p.ok {
      ServedStaysSorted(p, ids[0], at, maxSkew);
      TakeAllSorted(TakeOne(p, ids[0], at, maxSkew), ids[1..], at, maxSkew);
    }
  }

  /** Queues are in order on every run, whatever arrives. */
  lemma {:induction false} SortedOnEveryRun(cfg: Config, events: seq<Event>)
    ensures AllSorted(Run(cfg, events).queues)
  {
    if events != [] {
      var t := Run(cfg, events[..|events| - 1]);
      SortedOnEveryRun(cfg, events[..|events| - 1]);
      match events[|events| - 1]
      case Push(frame) =>
      case Anchor(anchor, context) =>
        TakeAllSorted(Progress(t.queues, t.horizon, [], true), SecondaryCameras(cfg), anchor.captureTime, cfg.maxSkew);
    }
  }

  lemma {:induction false} StreamedIdsFrom(cameras: seq<Camera>)
    ensures forall id :: id in StreamedIds(cameras) <==> exists i :: 0 <= i < |cameras| && cameras[i].id == id && !cameras[i].excluded
  {
    if cameras != [] {
      StreamedIdsFrom(cameras[1..]);
      var head := if cameras[0].excluded then [] else [cameras[0].id];
      forall id
        ensures id in StreamedIds(cameras) <==> exists i :: 0 <= i < |cameras| && cameras[i].id == id && !cameras[i].excluded
      {
        if i :| 0 <= i < |cameras| && cameras[i].id == id && !cameras[i].excluded {
          assert i > 0 ==> cameras[1..][i - 1] == cameras[i];
        }
      }
    }
  }

  lemma {:induction false} StreamedIdsDistinct(cameras: seq<Camera>)
    requires DistinctCameras(cameras)
    ensures Distinct(StreamedIds(cameras))
  {
    if cameras != [] {
      StreamedIdsDistinct(cameras[1..]);
      StreamedIdsFrom(cameras[1..]);
      assert cameras[0].id !in StreamedIds(cameras[1..]);
    }
  }

  lemma {:induction false} SecondariesDistinct(ids: seq<Text>, anchorId: Text)
    requires Distinct(ids)
    ensures Distinct(Secondaries(ids, anchorId))
    ensures forall id :: id in Secondaries(ids, anchorId) <==> id in ids && id != anchorId
  {
    if ids != [] {
      SecondariesDistinct(ids[1..], anchorId);
      assert ids[0] !in ids[1..];
    }
  }

  /** The cameras of an accepted manifest are distinct, so each secondary one is served once per step. */
  lemma SecondaryCamerasDistinct(cfg: Config)
    requires DistinctCameras(cfg.manifest.cameras)
    ensures Distinct(SecondaryCameras(cfg))
    ensures forall id :: id in SecondaryCameras(cfg) <==> id in InitialQueues(cfg) && id != cfg.manifest.anchorCameraId
  {
    StreamedIdsDistinct(cfg.manifest.cameras);
    SecondariesDistinct(StreamedIds(cfg.manifest.cameras), cfg.manifest.anchorCameraId);
  }

  /**
   * On every run, whatever arrives: a step that an anchor adds has one choice per
   * secondary camera, the nearest of that camera's queue at that moment and within the
   * skew; the later frames stay queued, and every frame discarded is farther than the
   * chosen one from this and every later anchor time.
   */
  lemma StepOnEveryRun(cfg: Config, events: seq<Event>)
    requires DistinctCameras(cfg.manifest.cameras) && events != [] && events[|events| - 1].Anchor?
    requires |Run(cfg, events[..|events| - 1]).steps| < |Run(cfg, events).steps|
    ensures var earlier, next := Run(cfg, events[..|events| - 1]), Run(cfg, events);
            var ids, at := SecondaryCameras(cfg), events[|events| - 1].anchor.captureTime;
            && |next.steps| == |earlier.steps| + 1 && earlier.steps <= next.steps
            && var step := next.steps[|earlier.steps|];
            && |step.choices| == |ids|
            && forall k :: 0 <= k < |ids| ==>
                 && ids[k] in earlier.queues && ids[k] in next.queues
                 && ServedFrom(step.choices[k], earlier.queues[ids[k]], next.queues[ids[k]], at, cfg.maxSkew)
  {
    var earlier := Run(cfg, events[..|events| - 1]);
    SecondaryCamerasDistinct(cfg);
    SortedOnEveryRun(cfg, events[..|events| - 1]);
    hide ServedFrom, AllSorted, TakeAll, Distinct, DistinctCameras;
    StepTakesNearest(Progress(earlier.queues, earlier.horizon, [], true), SecondaryCameras(cfg),
                     events[|events| - 1].anchor.captureTime, cfg.maxSkew);
  }

  // ---- Where the order comes from ----

  function Stored(frame: IngestQueue.Frame): StoredFrame {
    StoredFrame(frame.key.cameraId, frame.captureTime, frame.key.epoch, frame.pts, frame.ordinal, frame.encoded)
  }

  function StoredAll(frames: seq<IngestQueue.Frame>): (stored: seq<StoredFrame>)
    ensures |stored| == |frames| && forall i :: 0 <= i < |frames| ==> stored[i] == Stored(frames[i])
  {
    seq(|frames|, i requires 0 <= i < |frames| => Stored(frames[i]))
  }

  /** The frames the registry delivers for one connection arrive in the order the synchronizer needs. */
  lemma ConnectionFeedsInOrder(policy: Registry.Policy, env: Registry.Env, events: seq<Registry.Event>, key: IngestQueue.StreamKey)
    requires key in Registry.Run(policy, env, events).state.streams
    ensures key in Registry.Run(policy, env, events).past
    ensures Monotone(StoredAll(Registry.Run(policy, env, events).past[key].frames))
  {
    Registry.FramesOnEveryRun(policy, env, events, key);
  }

  /**
   * `frames` merges what the connections of a run delivered: each frame stands at position
   * `at` of its own connection, and a connection's frames keep their order.
   */
  ghost predicate Merges(t: Registry.Trace, frames: seq<IngestQueue.Frame>, at: seq<nat>) {
    && |at| == |frames|
    && (forall i :: 0 <= i < |frames| ==>
          && frames[i].key in t.past && at[i] < |t.past[frames[i].key].frames|
          && frames[i] == t.past[frames[i].key].frames[at[i]])
    && (forall i, j :: 0 <= i < j < |frames| && frames[i].key == frames[j].key ==> at[i] < at[j])
  }

  ghost predicate OneConnectionPerCamera(frames: seq<IngestQueue.Frame>) {
    forall i, j :: 0 <= i < j < |frames| && frames[i].key.cameraId == frames[j].key.cameraId ==> frames[i].key == frames[j].key
  }

  /**
   * However the deliveries of a registry run's connections interleave, one connection
   * per camera, the frames arrive in the order the synchronizer needs.
   */
  lemma DeliveriesFeedInOrder(
      policy: Registry.Policy, env: Registry.Env, events: seq<Registry.Event>, frames: seq<IngestQueue.Frame>, at: seq<nat>)
    requires Merges(Registry.Run(policy, env, events), frames, at) && OneConnectionPerCamera(frames)
    ensures Monotone(StoredAll(frames))
  {
    var t := Registry.Run(policy, env, events);
    forall i, j | 0 <= i < j < |frames| && frames[i].key.cameraId == frames[j].key.cameraId
      ensures frames[i].captureTime < frames[j].captureTime
    {
      assert frames[i].key in t.state.streams by { Registry.RunKeeps(policy, env, events); }
      Registry.FramesOnEveryRun(policy, env, events, frames[i].key);
      assert at[i] < at[j] && Registry.InOrder(t.past[frames[i].key].frames);
    }
  }

  // ---- The source's object ----

  class StepSynchronizer {
    const cfg: Config
    var queues: Queues

    constructor (cfg: Config)
      requires cfg.maxFrames > 0 && cfg.maxSkew > 0
      ensures this.cfg == cfg && queues == InitialQueues(cfg)
    {
      this.cfg, queues := cfg, InitialQueues(cfg);
    }

    static method New(cfg: Config) returns (result: Result<StepSynchronizer, SynchronizeError>)
      ensures result.Ok? <==> cfg.maxFrames != 0 && cfg.maxSkew != 0
      ensures result.Ok? ==> result.value.cfg == cfg && result.value.queues == InitialQueues(cfg)
      ensures result.Err? ==> result.error == BadManifest
    {
      if cfg.maxFrames == 0 || cfg.maxSkew == 0 {
        return Err(BadManifest);
      }
      var synchronizer := new StepSynchronizer(cfg);
      return Ok(synchronizer);
    }

    method PushSecondary(frame: StoredFrame) returns (result: Result<(), SynchronizeError>)
      modifies this
      ensures (result, queues) == PushStep(cfg, old(queues), frame)
    {
      if frame.cameraId == cfg.manifest.anchorCameraId {
        return Err(NonMonotonic);
      }
      if frame.cameraId !in queues {
        return Err(CameraCatalog);
      }
      var queue := queues[frame.cameraId];
      if queue != [] {
        var last := queue[|queue| - 1];
        if frame.captureTime <= last.captureTime || frame.ordinal <= last.ordinal {
          return Err(NonMonotonic);
        }
      }
      if |queue| == cfg.maxFrames && queue != [] {
        queue := queue[1..];
      }
      queue := queue + [frame];
      queues := queues[frame.cameraId := queue];
      return Ok(());
    }

    method AnchorStep(anchor: StoredFrame, context: Option<Context>, ghost horizon: map<Text, nat>)
      returns (result: Result<Step, SynchronizeError>)
      modifies this
      ensures AnchorOutcome(cfg, anchor, context).Some? ==>
                result == Err(AnchorOutcome(cfg, anchor, context).value) && queues == old(queues)
      ensures AnchorOutcome(cfg, anchor, context).None? ==>
                var p := TakeAll(Progress(old(queues), horizon, [], true), SecondaryCameras(cfg), anchor.captureTime, cfg.maxSkew);
                queues == p.queues && result == if p.ok then Ok(MakeStep(anchor, p.choices)) else Err(MissingCamera)
    {
      if anchor.cameraId != cfg.manifest.anchorCameraId {
        return Err(BadContext);
      }
      if context.None? || !ContextOk(cfg.manifest, anchor, context.value) {
        return Err(BadContext);
      }
      hide TakeAll, SortById, SecondaryCameras;
      var served, choices, complete := ServeAll(queues, SecondaryCameras(cfg), anchor.captureTime, cfg.maxSkew, horizon);
      queues := served;
      if !complete {
        return Err(MissingCamera);
      }
      var frames := SortFrames([Choice(anchor, 0)] + choices);
      return Ok(Step(anchor, choices, frames));
    }
  }

  /** The cameras in turn, up to the first that cannot be served. */
  method ServeAll(queues: Queues, ids: seq<Text>, at: nat, maxSkew: nat, ghost horizon: map<Text, nat>)
    returns (served: Queues, choices: seq<Choice>, complete: bool)
    ensures var p := TakeAll(Progress(queues, horizon, [], true), ids, at, maxSkew);
            served == p.queues && choices == p.choices && complete == p.ok
  {
    hide TakeAll, TakeOne;
    served, choices, complete := queues, [], true;
    ghost var start := Progress(queues, horizon, [], true);
    ghost var marks: map<Text, nat> := horizon;
    var i := 0;
    assert ids[0..] == ids;
    while i < |ids|
      invariant 0 <= i <= |ids| && complete
      invariant TakeAll(Progress(served, marks, choices, true), ids[i..], at, maxSkew) == TakeAll(start, ids, at, maxSkew)
    {
      TakeAllUnfold(Progress(served, marks, choices, true), ids, i, at, maxSkew);
      served, choices, complete, marks := ServeOne(served, choices, ids[i], at, maxSkew, marks);
      if !complete {
        return;
      }
      i := i + 1;
    }
    TakeAllDone(Progress(served, marks, choices, true), ids, at, maxSkew);
  }

  method ServeOne(
      queues: Queues, choices: seq<Choice>, id: Text, at: nat, maxSkew: nat, ghost marks: map<Text, nat>)
    returns (served: Queues, chosen: seq<Choice>, ok: bool, ghost after: map<Text, nat>)
    ensures Progress(served, after, chosen, ok) == TakeOne(Progress(queues, marks, choices, true), id, at, maxSkew)
  {
    hide TakeNearest;
    served, chosen, ok, after := queues, choices, false, marks;
    if id !in queues {
      return;
    }
    var taken, rest := TakeFromQueue(queues[id], at, maxSkew);
    if taken.None? {
      return;
    }
    var skew := taken.value.captureTime - at;
    served := queues[id := rest];
    after := marks[id := taken.value.captureTime];
    if !FitsI64(skew) {
      return;
    }
    chosen := choices + [Choice(taken.value, skew)];
    ok := true;
  }

  lemma TakeAllUnfold(p: Progress, ids: seq<Text>, i: nat, at: nat, maxSkew: nat)
    requires p.ok && i < |ids|
    ensures var next := TakeOne(p, ids[i], at, maxSkew);
            TakeAll(p, ids[i..], at, maxSkew) == if next.ok then TakeAll(next, ids[i + 1..], at, maxSkew) else next
  {
    hide TakeOne;
    assert ids[i..][1..] == ids[i + 1..];
  }

  lemma TakeAllDone(p: Progress, ids: seq<Text>, at: nat, maxSkew: nat)
    ensures TakeAll(p, ids[|ids|..], at, maxSkew) == p
  {
  }

  /** One camera of an anchor step: remove the nearest frame and everything not after it. */
  method TakeFromQueue(queue: seq<StoredFrame>, at: nat, maxSkew: nat)
    returns (taken: Option<StoredFrame>, rest: seq<StoredFrame>)
    ensures (taken, rest) == TakeNearest(queue, at, maxSkew)
  {
    if queue == [] {
      return None, queue;
    }
    var index := 0;
    for i := 1 to |queue|
      invariant index == Nearest(queue[..i], at)
    {
      assert queue[..i + 1][..i] == queue[..i];
      if Distance(queue[i], at) < Distance(queue[index], at) {
        index := i;
      }
    }
    assert queue[..|queue|] == queue;
    if Distance(queue[index], at) > maxSkew {
      return None, queue;
    }
    rest := PopUpTo(queue[..index] + queue[index + 1..], queue[index].captureTime);
    return Some(queue[index]), rest;
  }

  method SortFrames(frames: seq<Choice>) returns (sorted: seq<Choice>)
    ensures sorted == SortById(frames)
  {
    sorted := [];
    for i := 0 to |frames|
      invariant sorted == SortById(frames[..i])
    {
      assert frames[..i + 1][..i] == frames[..i];
      sorted := InsertFrame(sorted, frames[i]);
    }
    assert frames[..|frames|] == frames;
  }

  method InsertFrame(frames: seq<Choice>, x: Choice) returns (inserted: seq<Choice>)
    ensures inserted == InsertById(frames, x)
  {
    var k := |frames|;
    assert frames[..k] == frames && InsertById(frames, x) + [] == InsertById(frames, x);
    while k > 0 && !ById(frames[k - 1], x)
      invariant 0 <= k <= |frames|
      invariant InsertById(frames, x) == InsertById(frames[..k], x) + frames[k..]
    {
      assert frames[..k][..k - 1] == frames[..k - 1] && [frames[k - 1]] + frames[k..] == frames[k - 1..];
      k := k - 1;
    }
    return frames[..k] + [x] + frames[k..];
  }

  method PopUpTo(frames: seq<StoredFrame>, time: nat) returns (queue: seq<StoredFrame>)
    ensures queue == DropUpTo(frames, time)
  {
    queue := frames;
    while queue != [] && queue[0].captureTime <= time
      invariant DropUpTo(queue, time) == DropUpTo(frames, time)
      decreases |queue|
    {
      queue := queue[1..];
    }
  }
}
