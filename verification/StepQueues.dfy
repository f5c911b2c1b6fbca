/**
 * What the camera queues of `crates/receiver/src/synchronize.rs` hold at every moment of
 * a run, and exactly what an anchor frame does to them.
 */
module StepQueues {
  import opened Common
  import opened SessionManifest
  import opened Synchronizer
  import IngestQueue
  import Registry
  import opened Text

  // ---- One anchor frame ----

  /** `m` is the first index at the least distance from `at`. */
  ghost predicate FirstNearest(q: seq<StoredFrame>, m: nat, at: nat) {
    && m < |q|
    && (forall i :: 0 <= i < |q| ==> AbsDiff(q[m].captureTime, at) <= AbsDiff(q[i].captureTime, at))
    && (forall i :: 0 <= i < m ==> AbsDiff(q[m].captureTime, at) < AbsDiff(q[i].captureTime, at))
  }

  /** Some queued frame is within the skew. */
  ghost predicate Close(q: seq<StoredFrame>, at: nat, maxSkew: nat) {
    exists i :: 0 <= i < |q| && AbsDiff(q[i].captureTime, at) <= maxSkew
  }

  /** And the signed skew of the nearest fits 64 bits. */
  ghost predicate Usable(q: seq<StoredFrame>, at: nat, maxSkew: nat) {
    Close(q, at, maxSkew)
    && forall m: nat :: FirstNearest(q, m, at) ==> -0x8000_0000_0000_0000 <= q[m].captureTime - at <= 0x7FFF_FFFF_FFFF_FFFF
  }

  /** What is left of a queue after its nearest frame was taken: the later frames. */
  ghost predicate Left(q: seq<StoredFrame>, rest: seq<StoredFrame>, at: nat) {
    exists m: nat :: FirstNearest(q, m, at) && rest == q[m + 1..]
  }

  /** Every camera before the `k`-th has a usable frame. */
  ghost predicate Reached(queues: Queues, ids: seq<Text>, k: nat, at: nat, maxSkew: nat)
    requires k <= |ids|
  {
    forall j :: 0 <= j < k ==> ids[j] in queues && Usable(queues[ids[j]], at, maxSkew)
  }

  lemma NearestIsFirst(q: seq<StoredFrame>, at: nat, m: nat)
    requires q != [] && FirstNearest(q, m, at)
    ensures m == Nearest(q, at)
  {
  }

  lemma TakeNearestMeans(q: seq<StoredFrame>, at: nat, maxSkew: nat)
    requires Sorted(q)
    ensures var (taken, rest) := TakeNearest(q, at, maxSkew);
            && (taken.Some? <==> Close(q, at, maxSkew))
            && (taken.None? ==> rest == q)
            && (taken.Some? ==> Left(q, rest, at) && (Usable(q, at, maxSkew) <==> FitsI64(taken.value.captureTime - at)))
  {
    TakeFromSorted(q, at, maxSkew);
    if q != [] {
      var m := Nearest(q, at);
      assert FirstNearest(q, m, at);
      forall other: nat | FirstNearest(q, other, at)
        ensures other == m
      {
        NearestIsFirst(q, at, other);
      }
    }
  }

  lemma TakeOneMeans(p: Progress, id: Text, at: nat, maxSkew: nat)
    requires p.ok && id in p.queues && Sorted(p.queues[id])
    ensures var next := TakeOne(p, id, at, maxSkew);
            && next.queues.Keys == p.queues.Keys
            && (forall other :: other in p.queues && other != id ==> next.queues[other] == p.queues[other])
            && (next.ok <==> Usable(p.queues[id], at, maxSkew))
            && (if Close(p.queues[id], at, maxSkew) then Left(p.queues[id], next.queues[id], at)
                else next.queues[id] == p.queues[id])
  {
    hide TakeOne, TakeNearest, Close, Left, Usable, FitsI64, Sorted;
    TakeNearestMeans(p.queues[id], at, maxSkew);
    UsableIsClose(p.queues[id], at, maxSkew);
    if TakeNearest(p.queues[id], at, maxSkew).0.None? {
      TakesNothing(p, id, at, maxSkew);
    } else {
      TakesOne(p, id, at, maxSkew);
    }
  }

  lemma TakesNothing(p: Progress, id: Text, at: nat, maxSkew: nat)
    requires id in p.queues && TakeNearest(p.queues[id], at, maxSkew).0.None?
    ensures TakeOne(p, id, at, maxSkew) == p.(ok := false)
  {
    hide TakeNearest;
  }

  lemma TakesOne(p: Progress, id: Text, at: nat, maxSkew: nat)
    requires id in p.queues && TakeNearest(p.queues[id], at, maxSkew).0.Some?
    ensures var next := TakeOne(p, id, at, maxSkew);
            && next.queues.Keys == p.queues.Keys
            && (forall other :: other in p.queues && other != id ==> next.queues[other] == p.queues[other])
            && next.queues[id] == TakeNearest(p.queues[id], at, maxSkew).1
            && (next.ok <==> FitsI64(TakeNearest(p.queues[id], at, maxSkew).0.value.captureTime - at))
  {
    hide TakeNearest;
  }

  lemma UsableIsClose(q: seq<StoredFrame>, at: nat, maxSkew: nat)
    ensures Usable(q, at, maxSkew) ==> Close(q, at, maxSkew)
  {
  }

  ghost predicate HasAll(queues: Queues, ids: seq<Text>) { forall i :: 0 <= i < |ids| ==> ids[i] in queues }

  /** Camera `k` after the step: its later frames if it was reached and close, and untouched otherwise. */
  ghost predicate ServedAt(queues: Queues, after: Queues, ids: seq<Text>, k: nat, at: nat, maxSkew: nat)
    requires k < |ids| && HasAll(queues, ids) && HasAll(after, ids)
  {
    if Reached(queues, ids, k, at, maxSkew) && Close(queues[ids[k]], at, maxSkew)
    then Left(queues[ids[k]], after[ids[k]], at)
    else after[ids[k]] == queues[ids[k]]
  }

  lemma {:induction false} TakeAllMeans(p: Progress, ids: seq<Text>, at: nat, maxSkew: nat)
    requires p.ok && Distinct(ids) && AllSorted(p.queues) && HasAll(p.queues, ids)
    ensures var last := TakeAll(p, ids, at, maxSkew);
            && last.queues.Keys == p.queues.Keys
            && (forall id :: id in p.queues && id !in ids ==> last.queues[id] == p.queues[id])
            && (last.ok <==> Reached(p.queues, ids, |ids|, at, maxSkew))
            && forall k :: 0 <= k < |ids| ==> ServedAt(p.queues, last.queues, ids, k, at, maxSkew)
    decreases |ids|
  {
    hide TakeOne, Left, Close, Usable, Sorted;
    if ids != [] {
      var next, tail := TakeOne(p, ids[0], at, maxSkew), ids[1..];
      var last := TakeAll(p, ids, at, maxSkew);
      TakeOneMeans(p, ids[0], at, maxSkew);
      assert ids[0] !in tail;
      if next.ok {
        ServedStaysSorted(p, ids[0], at, maxSkew);
        TakeAllMeans(next, tail, at, maxSkew);
        forall k | 0 <= k < |ids|
          ensures ServedAt(p.queues, last.queues, ids, k, at, maxSkew)
        {
          if k > 0 {
            ReachedTail(p.queues, next.queues, ids, k, at, maxSkew);
            assert ServedAt(next.queues, last.queues, tail, k - 1, at, maxSkew);
          }
        }
        ReachedTail(p.queues, next.queues, ids, |ids|, at, maxSkew);
      } else {
        assert TakeAll(next, tail, at, maxSkew) == next && last == next;
        forall k | 0 < k <= |ids|
          ensures !Reached(p.queues, ids, k, at, maxSkew)
        {
          assert !Usable(p.queues[ids[0]], at, maxSkew);
        }
      }
    }
  }

  lemma ReachedTail(queues: Queues, next: Queues, ids: seq<Text>, k: nat, at: nat, maxSkew: nat)
    requires 0 < k <= |ids| && next.Keys == queues.Keys && Distinct(ids)
    requires forall i :: 0 <= i < |ids| ==> ids[i] in queues
    requires Usable(queues[ids[0]], at, maxSkew)
    requires forall i :: 1 <= i < |ids| ==> next[ids[i]] == queues[ids[i]]
    ensures Reached(queues, ids, k, at, maxSkew) <==> Reached(next, ids[1..], k - 1, at, maxSkew)
  {
    hide Usable;
    var tail := ids[1..];
    if Reached(next, tail, k - 1, at, maxSkew) {
      forall j | 0 <= j < k
        ensures ids[j] in queues && Usable(queues[ids[j]], at, maxSkew)
      {
        if j > 0 {
          assert tail[j - 1] == ids[j] && ids[j] != ids[0];
        }
      }
    }
    if Reached(queues, ids, k, at, maxSkew) {
      forall j | 0 <= j < k - 1
        ensures tail[j] in next && Usable(next[tail[j]], at, maxSkew)
      {
        assert tail[j] == ids[j + 1] && ids[j + 1] != ids[0];
      }
    }
  }

  // ---- Runs ----

  lemma {:induction false} KeysOnEveryRun(cfg: Config, events: seq<Event>)
    requires DistinctCameras(cfg.manifest.cameras)
    ensures Run(cfg, events).queues.Keys == InitialQueues(cfg).Keys
    ensures HasAll(Run(cfg, events).queues, SecondaryCameras(cfg))
  {
    hide SecondaryCameras;
    SecondaryCamerasDistinct(cfg);
    if events != [] {
      var front, event := events[..|events| - 1], events[|events| - 1];
      var t := Run(cfg, front);
      KeysOnEveryRun(cfg, front);
      SortedOnEveryRun(cfg, front);
      match event
      case Push(frame) =>
      case Anchor(anchor, context) =>
        if AnchorOutcome(cfg, anchor, context).None? {
          TakeAllMeans(Progress(t.queues, t.horizon, [], true), SecondaryCameras(cfg), anchor.captureTime, cfg.maxSkew);
        }
    }
    assert HasAll(InitialQueues(cfg), SecondaryCameras(cfg));
  }

  /** The anchor is the anchor camera's, and its context is the manifest's for this very frame. */
  ghost predicate FitsManifest(m: Manifest, anchor: StoredFrame, context: Option<Context>) {
    && anchor.cameraId == m.anchorCameraId && context.Some?
    && context.value.schemaVersion == 1
    && context.value.sessionId == m.sessionId && context.value.revision == m.revision
    && context.value.observationSchemaId == m.observationSchemaId && context.value.actionSchemaId == m.actionSchemaId
    && context.value.observationLength == m.observationLength && context.value.actionLength == m.actionLength
    && context.value.auxiliaryLength == m.auxiliaryLength
    && context.value.anchorFrameSeq == anchor.ordinal
  }

  /**
   * On every run, exactly what an anchor frame does: nothing, unless its context fits the
   * manifest and the frame; then each secondary camera in turn gives its nearest frame if
   * every camera before it could, and a step is added if and only if all could.
   */
  lemma AnchorOnEveryRun(cfg: Config, events: seq<Event>, anchor: StoredFrame, context: Option<Context>)
    requires DistinctCameras(cfg.manifest.cameras)
    ensures var t, next := Run(cfg, events), Run(cfg, events + [Anchor(anchor, context)]);
            var ids, at := SecondaryCameras(cfg), anchor.captureTime;
            && HasAll(t.queues, ids) && HasAll(next.queues, ids)
            && (!FitsManifest(cfg.manifest, anchor, context) ==> next == t)
            && (FitsManifest(cfg.manifest, anchor, context) ==>
                  && (forall k :: 0 <= k < |ids| ==> ServedAt(t.queues, next.queues, ids, k, at, cfg.maxSkew))
                  && (forall id :: id in t.queues && id !in ids ==> id in next.queues && next.queues[id] == t.queues[id])
                  && (|next.steps| == |t.steps| + 1 <==> Reached(t.queues, ids, |ids|, at, cfg.maxSkew))
                  && (|next.steps| == |t.steps| || |next.steps| == |t.steps| + 1))
  {
    hide SecondaryCameras, Reached, ServedAt, MakeStep, TakeAll, Distinct;
    assert (events + [Anchor(anchor, context)])[..|events|] == events;
    var t := Run(cfg, events);
    SecondaryCamerasDistinct(cfg);
    SortedOnEveryRun(cfg, events);
    KeysOnEveryRun(cfg, events);
    KeysOnEveryRun(cfg, events + [Anchor(anchor, context)]);
    if AnchorOutcome(cfg, anchor, context).None? {
      TakeAllMeans(Progress(t.queues, t.horizon, [], true), SecondaryCameras(cfg), anchor.captureTime, cfg.maxSkew);
    }
  }

  /** The queue's frame is followed by one that is not later in both time and number. */
  ghost predicate Behind(q: seq<StoredFrame>, frame: StoredFrame) {
    q != [] && (frame.captureTime <= q[|q| - 1].captureTime || frame.ordinal <= q[|q| - 1].ordinal)
  }

  function Newest(frames: seq<StoredFrame>, n: nat): seq<StoredFrame> {
    if |frames| <= n then frames else frames[|frames| - n..]
  }

  /**
   * The frames of camera `id` that the queue is about: what the latest consumption left,
   * and every frame accepted since, none evicted.
   */
  ghost function Since(cfg: Config, events: seq<Event>, id: Text): seq<StoredFrame>
    decreases |events|
  {
    if events == [] then []
    else
      var front, event := events[..|events| - 1], events[|events| - 1];
      var before, after := Run(cfg, front), Run(cfg, events);
      match event
      case Push(frame) =>
        if frame.cameraId == id && after.accepted == before.accepted + [frame] then Since(cfg, front, id) + [frame]
        else Since(cfg, front, id)
      case Anchor(_, _) =>
        if id in before.queues && id in after.queues && after.queues[id] != before.queues[id] then after.queues[id]
        else Since(cfg, front, id)
  }

  lemma NewestSnoc(frames: seq<StoredFrame>, frame: StoredFrame, n: nat)
    requires n > 0
    ensures var q := Newest(frames, n);
            (if |q| == n && q != [] then q[1..] else q) + [frame] == Newest(frames + [frame], n)
  {
  }

  lemma LeftIsShorter(q: seq<StoredFrame>, rest: seq<StoredFrame>, at: nat)
    requires Left(q, rest, at)
    ensures |rest| < |q|
  {
  }

  lemma PushKeepsNewest(cfg: Config, events: seq<Event>, id: Text)
    requires cfg.maxFrames > 0 && events != [] && events[|events| - 1].Push?
    requires id in Run(cfg, events[..|events| - 1]).queues
    requires Run(cfg, events[..|events| - 1]).queues[id] == Newest(Since(cfg, events[..|events| - 1], id), cfg.maxFrames)
    ensures id in Run(cfg, events).queues && Run(cfg, events).queues[id] == Newest(Since(cfg, events, id), cfg.maxFrames)
  {
    hide Newest;
    var front, frame := events[..|events| - 1], events[|events| - 1].frame;
    var t := Run(cfg, front);
    NewestSnoc(Since(cfg, front, id), frame, cfg.maxFrames);
    assert t.accepted != t.accepted + [frame];
  }

  lemma AnchorKeepsNewest(cfg: Config, events: seq<Event>, id: Text)
    requires cfg.maxFrames > 0 && events != [] && events[|events| - 1].Anchor? && DistinctCameras(cfg.manifest.cameras)
    requires id in Run(cfg, events[..|events| - 1]).queues
    requires Run(cfg, events[..|events| - 1]).queues[id] == Newest(Since(cfg, events[..|events| - 1], id), cfg.maxFrames)
    ensures id in Run(cfg, events).queues && Run(cfg, events).queues[id] == Newest(Since(cfg, events, id), cfg.maxFrames)
  {
    hide Reached, Left, SecondaryCameras;
    var front, event := events[..|events| - 1], events[|events| - 1];
    assert events == front + [event];
    KeysOnEveryRun(cfg, front);
    KeysOnEveryRun(cfg, events);
    AnchorOnEveryRun(cfg, front, event.anchor, event.context);
    var before, after := Run(cfg, front).queues[id], Run(cfg, events).queues[id];
    if after != before {
      var ids := SecondaryCameras(cfg);
      assert id in ids;
      var k :| 0 <= k < |ids| && ids[k] == id;
      assert ServedAt(Run(cfg, front).queues, Run(cfg, events).queues, ids, k, event.anchor.captureTime, cfg.maxSkew);
      LeftIsShorter(before, after, event.anchor.captureTime);
    }
  }

  /**
   * On every run each camera's queue is exactly the newest `maxFrames` of those frames, so
   * no accepted frame is lost before it is consumed or pushed out by newer ones.
   */
  lemma {:induction false} QueueIsNewest(cfg: Config, events: seq<Event>, id: Text)
    requires cfg.maxFrames > 0 && DistinctCameras(cfg.manifest.cameras) && id in InitialQueues(cfg)
    ensures id in Run(cfg, events).queues && Run(cfg, events).queues[id] == Newest(Since(cfg, events, id), cfg.maxFrames)
    ensures |Run(cfg, events).queues[id]| <= cfg.maxFrames
    decreases |events|
  {
    hide Newest;
    if events != [] {
      QueueIsNewest(cfg, events[..|events| - 1], id);
      if events[|events| - 1].Push? {
        PushKeepsNewest(cfg, events, id);
      } else {
        AnchorKeepsNewest(cfg, events, id);
      }
    }
    NewestLength(Since(cfg, events, id), cfg.maxFrames);
  }

  lemma NewestLength(frames: seq<StoredFrame>, n: nat)
    ensures |Newest(frames, n)| <= n && (frames == [] ==> Newest(frames, n) == [])
  {
  }

  /** And exactly which pushes are accepted: those of a streamed secondary camera, not behind its queue. */
  lemma PushOnEveryRun(cfg: Config, events: seq<Event>, frame: StoredFrame)
    requires DistinctCameras(cfg.manifest.cameras)
    ensures var t, next := Run(cfg, events), Run(cfg, events + [Push(frame)]);
            && (next.accepted == t.accepted + [frame] <==>
                  frame.cameraId in SecondaryCameras(cfg) && frame.cameraId in t.queues && !Behind(t.queues[frame.cameraId], frame))
            && (next.accepted == t.accepted || next.accepted == t.accepted + [frame])
            && (next.accepted == t.accepted ==> next.queues == t.queues)
            && (forall id :: id in t.queues && id != frame.cameraId ==> id in next.queues && next.queues[id] == t.queues[id])
  {
    hide SecondaryCameras, InitialQueues, DistinctCameras;
    assert (events + [Push(frame)])[..|events|] == events;
    KeysOnEveryRun(cfg, events);
    SecondaryCamerasDistinct(cfg);
    assert Run(cfg, events).accepted != Run(cfg, events).accepted + [frame];
  }

  // ---- The cameras, the answers and what is sent ----

  /** A camera the manifest streams. */
  ghost predicate IsStreamed(m: Manifest, id: Text) {
    exists c :: c in m.cameras && !c.excluded && c.id == id
  }

  lemma {:induction false} StreamedAre(cameras: seq<Camera>, id: Text)
    ensures id in StreamedIds(cameras) <==> exists c :: c in cameras && !c.excluded && c.id == id
  {
    if cameras != [] {
      StreamedAre(cameras[1..], id);
      assert cameras == [cameras[0]] + cameras[1..];
    }
  }

  /** The secondary cameras are the streamed ones other than the anchor. */
  lemma SecondariesAre(cfg: Config, id: Text)
    requires DistinctCameras(cfg.manifest.cameras)
    ensures id in SecondaryCameras(cfg) <==> IsStreamed(cfg.manifest, id) && id != cfg.manifest.anchorCameraId
    ensures id in InitialQueues(cfg) <==> IsStreamed(cfg.manifest, id)
  {
    StreamedAre(cfg.manifest.cameras, id);
    SecondaryCamerasDistinct(cfg);
  }

  /** On every run, what a pushed frame is answered. */
  lemma PushAnswers(cfg: Config, events: seq<Event>, frame: StoredFrame)
    requires DistinctCameras(cfg.manifest.cameras)
    ensures var queues := Run(cfg, events).queues;
            var answer := PushStep(cfg, queues, frame).0;
            if frame.cameraId == cfg.manifest.anchorCameraId then answer == Err(NonMonotonic)
            else if !IsStreamed(cfg.manifest, frame.cameraId) then answer == Err(CameraCatalog)
            else
              && frame.cameraId in queues
              && answer == if Behind(queues[frame.cameraId], frame) then Err(NonMonotonic) else Ok(())
  {
    hide SecondaryCameras, InitialQueues, DistinctCameras, IsStreamed, Run;
    KeysOnEveryRun(cfg, events);
    SecondariesAre(cfg, frame.cameraId);
  }

  /** An anchor is refused before anything is taken exactly when its context does not fit. */
  lemma AnchorRefused(cfg: Config, anchor: StoredFrame, context: Option<Context>)
    ensures AnchorOutcome(cfg, anchor, context) == if FitsManifest(cfg.manifest, anchor, context) then None else Some(BadContext)
  {
  }

  /**
   * On every run, what a new step sends: the anchor with skew zero and the choices, in the
   * order of the camera ids; each choice is the first of the nearest frames of its camera's
   * queue of that moment, with its signed distance from the anchor.
   */
  lemma SentOnEveryRun(cfg: Config, events: seq<Event>, anchor: StoredFrame, context: Option<Context>)
    requires DistinctCameras(cfg.manifest.cameras)
    requires |Run(cfg, events).steps| < |Run(cfg, events + [Anchor(anchor, context)]).steps|
    ensures var t, next := Run(cfg, events), Run(cfg, events + [Anchor(anchor, context)]);
            var ids, at := SecondaryCameras(cfg), anchor.captureTime;
            && |next.steps| == |t.steps| + 1
            && var step := next.steps[|t.steps|];
            && step.anchor == anchor && |step.choices| == |ids|
            && OrderedById(step.frames) && multiset(step.frames) == multiset{Choice(anchor, 0)} + multiset(step.choices)
            && forall k :: 0 <= k < |ids| ==>
                 ids[k] in t.queues && ChosenFrom(step.choices[k], t.queues[ids[k]], at)
  {
    var all := events + [Anchor(anchor, context)];
    assert all[..|events|] == events;
    var t, next := Run(cfg, events), Run(cfg, all);
    var ids, at := SecondaryCameras(cfg), anchor.captureTime;
    StepOnEveryRun(cfg, all);
    SortedOnEveryRun(cfg, events);
    var step := next.steps[|t.steps|];
    assert step == MakeStep(anchor, step.choices);
    hide Run, SecondaryCameras, ServedFrom, ChosenFrom, OrderedById, SortById, MakeStep, Sorted;
    MadeStep(anchor, step.choices);
    forall k | 0 <= k < |ids|
      ensures ids[k] in t.queues && ChosenFrom(step.choices[k], t.queues[ids[k]], at)
    {
      ServedIsChosen(step.choices[k], t.queues[ids[k]], next.queues[ids[k]], at, cfg.maxSkew);
    }
  }

  lemma MadeStep(anchor: StoredFrame, choices: seq<Choice>)
    ensures var step := MakeStep(anchor, choices);
            && step.anchor == anchor && step.choices == choices
            && OrderedById(step.frames) && multiset(step.frames) == multiset{Choice(anchor, 0)} + multiset(choices)
  {
    hide SortById;
    SortSorts([Choice(anchor, 0)] + choices);
    assert multiset([Choice(anchor, 0)] + choices) == multiset{Choice(anchor, 0)} + multiset(choices);
  }

  /** The choice is the first nearest frame of the queue and carries its signed distance. */
  ghost predicate ChosenFrom(choice: Choice, q: seq<StoredFrame>, at: nat) {
    exists m: nat :: FirstNearest(q, m, at) && choice == Choice(q[m], q[m].captureTime - at)
  }

  lemma ServedIsChosen(choice: Choice, q: seq<StoredFrame>, rest: seq<StoredFrame>, at: nat, maxSkew: nat)
    requires ServedFrom(choice, q, rest, at, maxSkew) && Sorted(q)
    ensures ChosenFrom(choice, q, at)
  {
    var k :| 0 <= k < |q| && q[k] == choice.frame && rest == q[k + 1..]
             && forall i :: 0 <= i < k ==> FartherFrom(q[i], choice.frame, at);
    assert FirstNearest(q, k, at);
  }

  // ---- What the registry delivers is taken ----

  /** Every queued frame is of its camera and was pushed. */
  ghost predicate QueuedWerePushed(t: Trace) {
    forall id, k :: id in t.queues && 0 <= k < |t.queues[id]| ==> t.queues[id][k].cameraId == id && t.queues[id][k] in t.pushed
  }

  lemma PushedStay(cfg: Config, t: Trace, frame: StoredFrame)
    requires QueuedWerePushed(t)
    ensures QueuedWerePushed(TraceStep(cfg, t, Push(frame)))
  {
    var next := TraceStep(cfg, t, Push(frame));
    forall id, k | id in next.queues && 0 <= k < |next.queues[id]|
      ensures next.queues[id][k].cameraId == id && next.queues[id][k] in next.pushed
    {
      var g := next.queues[id][k];
      assert next.pushed[|t.pushed|] == frame;
      assert g == frame || (id in t.queues && g in t.queues[id]);
      if g != frame {
        var j :| 0 <= j < |t.queues[id]| && t.queues[id][j] == g;
      }
    }
  }

  lemma LeftIsQueued(q: seq<StoredFrame>, rest: seq<StoredFrame>, at: nat)
    requires Left(q, rest, at)
    ensures forall k :: 0 <= k < |rest| ==> rest[k] in q
  {
  }

  lemma AnchorsStay(cfg: Config, events: seq<Event>, anchor: StoredFrame, context: Option<Context>)
    requires DistinctCameras(cfg.manifest.cameras) && QueuedWerePushed(Run(cfg, events))
    ensures QueuedWerePushed(Run(cfg, events + [Anchor(anchor, context)]))
  {
    var all := events + [Anchor(anchor, context)];
    assert all[..|events|] == events;
    var t, next := Run(cfg, events), Run(cfg, all);
    assert next.pushed == t.pushed;
    AnchorOnEveryRun(cfg, events, anchor, context);
    KeysOnEveryRun(cfg, events);
    KeysOnEveryRun(cfg, all);
    hide Run, Left, Close, Reached, SecondaryCameras;
    if FitsManifest(cfg.manifest, anchor, context) {
      forall id, k | id in next.queues && 0 <= k < |next.queues[id]|
        ensures next.queues[id][k].cameraId == id && next.queues[id][k] in next.pushed
      {
        var ids, at := SecondaryCameras(cfg), anchor.captureTime;
        if id in ids {
          var j :| 0 <= j < |ids| && ids[j] == id;
          assert ServedAt(t.queues, next.queues, ids, j, at, cfg.maxSkew);
          if next.queues[id] != t.queues[id] {
            LeftIsQueued(t.queues[id], next.queues[id], at);
          }
        }
        assert next.queues[id][k] in t.queues[id];
        var i :| 0 <= i < |t.queues[id]| && t.queues[id][i] == next.queues[id][k];
      }
    }
  }

  lemma {:induction false} PushedOnEveryRun(cfg: Config, events: seq<Event>)
    requires DistinctCameras(cfg.manifest.cameras)
    ensures QueuedWerePushed(Run(cfg, events))
  {
    hide QueuedWerePushed, TraceStep;
    if events == [] {
      NothingQueued(cfg);
    } else {
      var front, event := events[..|events| - 1], events[|events| - 1];
      PushedOnEveryRun(cfg, front);
      match event
      case Push(frame) => PushedStay(cfg, Run(cfg, front), frame);
      case Anchor(anchor, context) =>
        assert events == front + [Anchor(anchor, context)];
        AnchorsStay(cfg, front, anchor, context);
    }
  }

  lemma NothingQueued(cfg: Config)
    ensures QueuedWerePushed(Run(cfg, []))
  {
  }

  /**
   * What the registry delivers is taken: if the frames pushed so far are the first ones of a
   * merge of a registry run's deliveries, one connection per camera, then the next one is
   * accepted, whatever anchors came in between; its number is at most the largest 64-bit one.
   */
  lemma DeliveriesAreTaken(
      policy: Registry.Policy, env: Registry.Env, deliveries: seq<Registry.Event>, frames: seq<IngestQueue.Frame>,
      at: seq<nat>, cfg: Config, events: seq<Event>, n: nat)
    requires DistinctCameras(cfg.manifest.cameras) && n < |frames|
    requires Merges(Registry.Run(policy, env, deliveries), frames, at) && OneConnectionPerCamera(frames) && at[n] <= U64_MAX
    requires Run(cfg, events).pushed == StoredAll(frames[..n])
    requires IsStreamed(cfg.manifest, frames[n].key.cameraId) && frames[n].key.cameraId != cfg.manifest.anchorCameraId
    ensures var f := frames[n];
            var stored := StoredFrame(f.key.cameraId, f.captureTime, f.key.epoch, f.pts, f.ordinal, f.encoded);
            stored == Stored(f) && PushStep(cfg, Run(cfg, events).queues, stored).0 == Ok(())
  {
    hide Run, Registry.Run, Merges, DistinctCameras, IsStreamed, StoredAll, PushStep;
    var queues, frame := Run(cfg, events).queues, Stored(frames[n]);
    PushAnswers(cfg, events, frame);
    var q := queues[frame.cameraId];
    if q != [] {
      LastWasPushed(cfg, events, frame.cameraId);
      var i := AmongStored(frames, n, q[|q| - 1]);
      LaterInConnection(policy, env, deliveries, frames, at, i, n);
    }
  }

  lemma LastWasPushed(cfg: Config, events: seq<Event>, id: Text)
    requires DistinctCameras(cfg.manifest.cameras) && id in Run(cfg, events).queues && Run(cfg, events).queues[id] != []
    ensures var q := Run(cfg, events).queues[id];
            q[|q| - 1].cameraId == id && q[|q| - 1] in Run(cfg, events).pushed
  {
    PushedOnEveryRun(cfg, events);
    hide Run;
  }

  lemma AmongStored(frames: seq<IngestQueue.Frame>, n: nat, stored: StoredFrame) returns (i: nat)
    requires n <= |frames| && stored in StoredAll(frames[..n])
    ensures i < n && stored == Stored(frames[i])
  {
    i :| 0 <= i < |StoredAll(frames[..n])| && StoredAll(frames[..n])[i] == stored;
  }

  lemma LaterInConnection(
      policy: Registry.Policy, env: Registry.Env, deliveries: seq<Registry.Event>, frames: seq<IngestQueue.Frame>,
      at: seq<nat>, i: nat, n: nat)
    requires Merges(Registry.Run(policy, env, deliveries), frames, at) && i < n < |frames| && at[n] <= U64_MAX
    requires frames[i].key == frames[n].key
    ensures frames[i].captureTime < frames[n].captureTime && frames[i].ordinal < frames[n].ordinal
  {
    var t, key := Registry.Run(policy, env, deliveries), frames[i].key;
    assert key in t.state.streams by { Registry.RunKeeps(policy, env, deliveries); }
    Registry.FramesOnEveryRun(policy, env, deliveries, key);
    assert at[i] < at[n] && Registry.InOrder(t.past[key].frames);
  }
}
