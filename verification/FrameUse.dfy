/**
 * How often a frame is used: the exact conditions under which the steps of
 * `crates/receiver/src/synchronize.rs` never reuse a frame and never go back in time.
 */
module FrameUse {
  import opened Common
  import opened SessionManifest
  import opened Synchronizer
  import opened Text

  // ---- A frame is used at most as often as it was accepted ----

  function FramesOf(choices: seq<Choice>): (frames: seq<StoredFrame>)
    ensures |frames| == |choices| && forall i :: 0 <= i < |frames| ==> frames[i] == choices[i].frame
  {
    seq(|choices|, i requires 0 <= i < |choices| => choices[i].frame)
  }

  /** How many of the choices of all steps are this frame. */
  function Uses(steps: seq<Step>, f: StoredFrame): nat {
    if steps == [] then 0
    else Uses(steps[..|steps| - 1], f) + multiset(FramesOf(steps[|steps| - 1].choices))[f]
  }

  function Queued(queues: Queues, f: StoredFrame): nat {
    if f.cameraId in queues then multiset(queues[f.cameraId])[f] else 0
  }

  /** Every frame waits in the queue of its own camera. */
  ghost predicate Homed(queues: Queues) {
    forall id :: id in queues ==> forall i :: 0 <= i < |queues[id]| ==> queues[id][i].cameraId == id
  }

  lemma {:induction false} DropShrinks(q: seq<StoredFrame>, time: nat)
    ensures multiset(DropUpTo(q, time)) <= multiset(q)
    ensures forall f :: f in DropUpTo(q, time) ==> f in q
  {
    if q != [] && q[0].captureTime <= time {
      DropShrinks(q[1..], time);
      assert q == [q[0]] + q[1..];
    }
  }

  /** What is taken and what is left are together no more than what was there. */
  lemma TakeConserves(q: seq<StoredFrame>, at: nat, maxSkew: nat)
    requires TakeNearest(q, at, maxSkew).0.Some?
    ensures var (taken, rest) := TakeNearest(q, at, maxSkew);
            && multiset(rest) + multiset{taken.value} <= multiset(q)
            && taken.value in q && forall f :: f in rest ==> f in q
  {
    var k := Nearest(q, at);
    var others := q[..k] + q[k + 1..];
    assert q == q[..k] + [q[k]] + q[k + 1..];
    assert multiset(others) + multiset{q[k]} == multiset(q);
    DropShrinks(others, q[k].captureTime);
    assert forall f :: f in others ==> f in q;
  }

  ghost function Held(p: Progress, f: StoredFrame): nat { multiset(FramesOf(p.choices))[f] + Queued(p.queues, f) }

  lemma TakeOneConserves(p: Progress, id: Text, at: nat, maxSkew: nat, f: StoredFrame)
    requires Homed(p.queues)
    ensures Homed(TakeOne(p, id, at, maxSkew).queues)
    ensures Held(TakeOne(p, id, at, maxSkew), f) <= Held(p, f)
  {
    hide TakeNearest;
    if id in p.queues && TakeNearest(p.queues[id], at, maxSkew).0.Some? {
      var (taken, rest) := TakeNearest(p.queues[id], at, maxSkew);
      TakeConserves(p.queues[id], at, maxSkew);
      assert forall f :: f in p.queues[id] ==> f.cameraId == id;
      assert forall i :: 0 <= i < |rest| ==> rest[i] in p.queues[id];
      var choice := Choice(taken.value, taken.value.captureTime - at);
      assert FramesOf(p.choices + [choice]) == FramesOf(p.choices) + [taken.value];
    }
  }

  lemma {:induction false} TakeAllConserves(p: Progress, ids: seq<Text>, at: nat, maxSkew: nat, f: StoredFrame)
    requires Homed(p.queues)
    ensures Homed(TakeAll(p, ids, at, maxSkew).queues)
    ensures Held(TakeAll(p, ids, at, maxSkew), f) <= Held(p, f)
    decreases |ids|
  {
    hide Homed, Held;
    if ids != [] && p.ok {
      TakeOneConserves(p, ids[0], at, maxSkew, f);
      TakeAllConserves(TakeOne(p, ids[0], at, maxSkew), ids[1..], at, maxSkew, f);
    }
  }

  lemma PushConserves(cfg: Config, t: Trace, frame: StoredFrame, f: StoredFrame)
    requires Homed(t.queues)
    ensures var next := TraceStep(cfg, t, Push(frame));
            && Homed(next.queues)
            && Queued(next.queues, f) + multiset(t.accepted)[f] <= Queued(t.queues, f) + multiset(next.accepted)[f]
  {
    if PushStep(cfg, t.queues, frame).0.Ok? {
      var q := t.queues[frame.cameraId];
      RoomCount(q, frame, cfg.maxFrames, f);
      QueueCount(t.accepted, frame, f);
      PushKeepsHome(t.queues, frame, cfg.maxFrames);
    }
  }

  function Room(q: seq<StoredFrame>, maxFrames: nat): seq<StoredFrame> {
    if |q| == maxFrames && q != [] then q[1..] else q
  }

  lemma QueueCount(q: seq<StoredFrame>, frame: StoredFrame, f: StoredFrame)
    ensures multiset(q + [frame])[f] == multiset(q)[f] + if f == frame then 1 else 0
  {
  }

  lemma RoomCount(q: seq<StoredFrame>, frame: StoredFrame, maxFrames: nat, f: StoredFrame)
    ensures multiset(Room(q, maxFrames) + [frame])[f] <= multiset(q)[f] + if f == frame then 1 else 0
  {
    QueueCount(Room(q, maxFrames), frame, f);
    if q != [] {
      assert q == [q[0]] + q[1..];
    }
  }

  lemma PushKeepsHome(queues: Queues, frame: StoredFrame, maxFrames: nat)
    requires Homed(queues) && frame.cameraId in queues
    ensures Homed(queues[frame.cameraId := Room(queues[frame.cameraId], maxFrames) + [frame]])
  {
  }

  lemma AnchorConserves(cfg: Config, t: Trace, anchor: StoredFrame, context: Option<Context>, f: StoredFrame)
    requires Homed(t.queues)
    ensures var next := TraceStep(cfg, t, Anchor(anchor, context));
            && Homed(next.queues) && next.accepted == t.accepted
            && Uses(next.steps, f) + Queued(next.queues, f) <= Uses(t.steps, f) + Queued(t.queues, f)
  {
    if AnchorOutcome(cfg, anchor, context).None? {
      var start := Progress(t.queues, t.horizon, [], true);
      var p := TakeAll(start, SecondaryCameras(cfg), anchor.captureTime, cfg.maxSkew);
      TakeAllConserves(start, SecondaryCameras(cfg), anchor.captureTime, cfg.maxSkew, f);
      var step := MakeStep(anchor, p.choices);
      assert (t.steps + [step])[..|t.steps|] == t.steps;
    }
  }

  /** On every run a frame's uses and its copies still queued are at most its accepted pushes. */
  lemma {:induction false} UsedAtMostAccepted(cfg: Config, events: seq<Event>, f: StoredFrame)
    ensures var t := Run(cfg, events);
            Homed(t.queues) && Uses(t.steps, f) + Queued(t.queues, f) <= multiset(t.accepted)[f]
  {
    hide TraceStep, Homed;
    if events == [] {
      NothingHeld(cfg, f);
    } else {
      var t := Run(cfg, events[..|events| - 1]);
      UsedAtMostAccepted(cfg, events[..|events| - 1], f);
      match events[|events| - 1]
      case Push(frame) =>
        PushConserves(cfg, t, frame, f);
        StepsUnchanged(cfg, t, frame);
      case Anchor(anchor, context) => AnchorConserves(cfg, t, anchor, context, f);
    }
  }

  lemma NothingHeld(cfg: Config, f: StoredFrame)
    ensures var t := Run(cfg, []); Homed(t.queues) && t.steps == [] && Queued(t.queues, f) == 0
  {
  }

  lemma StepsUnchanged(cfg: Config, t: Trace, frame: StoredFrame)
    ensures TraceStep(cfg, t, Push(frame)).steps == t.steps
  {
  }

  lemma {:induction false} UsedIn(steps: seq<Step>, i: nat, a: Choice)
    requires i < |steps| && a in steps[i].choices
    ensures Uses(steps, a.frame) >= 1
  {
    var front, last := steps[..|steps| - 1], steps[|steps| - 1];
    if i == |steps| - 1 {
      var k :| 0 <= k < |last.choices| && last.choices[k] == a;
      assert FramesOf(last.choices)[k] == a.frame;
      assert a.frame in multiset(FramesOf(last.choices));
    } else {
      UsedIn(front, i, a);
    }
  }

  lemma {:induction false} UsedTwice(steps: seq<Step>, i: nat, j: nat, a: Choice, b: Choice)
    requires i < j < |steps| && a in steps[i].choices && b in steps[j].choices && a.frame == b.frame
    ensures Uses(steps, a.frame) >= 2
  {
    var front, last := steps[..|steps| - 1], steps[|steps| - 1];
    if j == |steps| - 1 {
      UsedIn(front, i, a);
      UsedIn([last], 0, b);
      assert [last][..0] == [];
    } else {
      UsedTwice(front, i, j, a, b);
    }
  }

  ghost predicate NoneTwice(frames: seq<StoredFrame>) { forall f :: multiset(frames)[f] <= 1 }

  /** When no frame is accepted twice, no frame is in two steps, whatever the order of arrival. */
  lemma NoReuse(cfg: Config, events: seq<Event>, i: nat, j: nat, a: Choice, b: Choice)
    requires NoneTwice(Run(cfg, events).accepted) && i < j < |Run(cfg, events).steps|
    requires a in Run(cfg, events).steps[i].choices && b in Run(cfg, events).steps[j].choices
    ensures a.frame != b.frame
  {
    UsedAtMostAccepted(cfg, events, a.frame);
    if a.frame == b.frame {
      UsedTwice(Run(cfg, events).steps, i, j, a, b);
    }
  }

  // ---- Both conditions are needed, for every configuration and every pair of frames ----

  function Of(x: StoredFrame, id: Text): StoredFrame { x.(cameraId := id) }

  /** The context that fits the configuration and an anchor frame. */
  function ContextFor(cfg: Config, anchor: StoredFrame): Context {
    var m := cfg.manifest;
    Context(1, m.sessionId, m.revision, m.observationSchemaId, m.actionSchemaId,
            m.observationLength, m.actionLength, m.auxiliaryLength, anchor.ordinal)
  }

  function Pushes(ids: seq<Text>, x: StoredFrame): seq<Event> {
    if ids == [] then [] else Pushes(ids[..|ids| - 1], x) + [Push(Of(x, ids[|ids| - 1]))]
  }

  /** A frame like `x` for every secondary camera, and the anchor. */
  function Round(cfg: Config, x: StoredFrame): seq<Event> {
    Pushes(SecondaryCameras(cfg), x) + [AnchorOf(cfg, x)]
  }

  /** No frame is queued for the cameras of `ids`. */
  ghost predicate Idle(queues: Queues, ids: seq<Text>) {
    forall i :: 0 <= i < |ids| ==> ids[i] in queues && queues[ids[i]] == []
  }

  /** The first `n` cameras of `ids` have `x` queued, and the others nothing. */
  ghost predicate Filled(queues: Queues, ids: seq<Text>, x: StoredFrame, n: nat)
    requires n <= |ids|
  {
    forall i :: 0 <= i < |ids| ==> ids[i] in queues && queues[ids[i]] == if i < n then [Of(x, ids[i])] else []
  }

  lemma {:induction false} PushesFill(cfg: Config, events: seq<Event>, ids: seq<Text>, x: StoredFrame, n: nat)
    requires n <= |ids| && Distinct(ids) && cfg.manifest.anchorCameraId !in ids && Idle(Run(cfg, events).queues, ids)
    ensures var t := Run(cfg, events + Pushes(ids[..n], x));
            Filled(t.queues, ids, x, n) && t.steps == Run(cfg, events).steps
  {
    hide TraceStep, Filled, Idle, Distinct;
    if n == 0 {
      assert events + [] == events;
      IdleIsFilled(Run(cfg, events).queues, ids, x);
    } else {
      PushesFill(cfg, events, ids, x, n - 1);
      assert ids[..n][..n - 1] == ids[..n - 1];
      var earlier := events + Pushes(ids[..n - 1], x);
      var all := events + Pushes(ids[..n], x);
      assert all[..|earlier|] == earlier && all[|earlier|] == Push(Of(x, ids[n - 1])) && |all| == |earlier| + 1;
      FillOne(cfg, Run(cfg, earlier), ids, x, n);
    }
  }

  lemma IdleIsFilled(queues: Queues, ids: seq<Text>, x: StoredFrame)
    requires Idle(queues, ids)
    ensures Filled(queues, ids, x, 0)
  {
  }

  lemma FillOne(cfg: Config, t: Trace, ids: seq<Text>, x: StoredFrame, n: nat)
    requires 0 < n <= |ids| && Distinct(ids) && cfg.manifest.anchorCameraId !in ids && Filled(t.queues, ids, x, n - 1)
    ensures var next := TraceStep(cfg, t, Push(Of(x, ids[n - 1])));
            Filled(next.queues, ids, x, n) && next.steps == t.steps
  {
    assert ids[n - 1] in ids && t.queues[ids[n - 1]] == [];
  }

  /** Served in turn, every camera gives its `x`. */
  function Given(ids: seq<Text>, x: StoredFrame): seq<Choice> {
    seq(|ids|, i requires 0 <= i < |ids| => Choice(Of(x, ids[i]), 0))
  }

  lemma TakeOnly(p: Progress, id: Text, x: StoredFrame, maxSkew: nat)
    requires id in p.queues && p.queues[id] == [Of(x, id)]
    ensures var next := TakeOne(p, id, x.captureTime, maxSkew);
            next.ok && next.choices == p.choices + [Choice(Of(x, id), 0)] && next.queues == p.queues[id := []]
  {
    TakeFromSorted([Of(x, id)], x.captureTime, maxSkew);
  }

  lemma {:induction false} TakesEach(p: Progress, ids: seq<Text>, x: StoredFrame, maxSkew: nat)
    requires p.ok && Distinct(ids) && Filled(p.queues, ids, x, |ids|)
    ensures var last := TakeAll(p, ids, x.captureTime, maxSkew);
            && last.ok && last.choices == p.choices + Given(ids, x) && Idle(last.queues, ids)
            && (forall id :: id in p.queues && id !in ids ==> id in last.queues && last.queues[id] == p.queues[id])
    decreases |ids|
  {
    hide TakeOne, Filled, Distinct, Idle, Given, Of;
    if ids == [] {
      NothingGiven(p, x);
    } else {
      var next, tail := TakeOne(p, ids[0], x.captureTime, maxSkew), ids[1..];
      FirstEmptied(p.queues, ids, x);
      TakeOnly(p, ids[0], x, maxSkew);
      TakesEach(next, tail, x, maxSkew);
      GivenCons(p.choices, ids, x);
      IdleCons(TakeAll(next, tail, x.captureTime, maxSkew).queues, ids);
    }
  }

  lemma NothingGiven(p: Progress, x: StoredFrame)
    ensures p.choices + Given([], x) == p.choices && Idle(p.queues, [])
  {
  }

  lemma GivenCons(choices: seq<Choice>, ids: seq<Text>, x: StoredFrame)
    requires ids != []
    ensures choices + [Choice(Of(x, ids[0]), 0)] + Given(ids[1..], x) == choices + Given(ids, x)
  {
    assert Given(ids, x) == [Choice(Of(x, ids[0]), 0)] + Given(ids[1..], x);
  }

  lemma FirstEmptied(queues: Queues, ids: seq<Text>, x: StoredFrame)
    requires ids != [] && Distinct(ids) && Filled(queues, ids, x, |ids|)
    ensures ids[0] in queues && queues[ids[0]] == [Of(x, ids[0])]
    ensures Distinct(ids[1..]) && ids[0] !in ids[1..] && Filled(queues[ids[0] := []], ids[1..], x, |ids| - 1)
  {
  }

  lemma IdleCons(queues: Queues, ids: seq<Text>)
    requires ids != [] && Idle(queues, ids[1..]) && ids[0] in queues && queues[ids[0]] == []
    ensures Idle(queues, ids)
  {
    forall i | 0 <= i < |ids|
      ensures ids[i] in queues && queues[ids[i]] == []
    {
      assert i > 0 ==> ids[1..][i - 1] == ids[i];
    }
  }

  function AnchorOf(cfg: Config, x: StoredFrame): Event {
    var anchor := Of(x, cfg.manifest.anchorCameraId);
    Anchor(anchor, Some(ContextFor(cfg, anchor)))
  }

  lemma AnchorGives(cfg: Config, t: Trace, ids: seq<Text>, x: StoredFrame)
    requires ids == SecondaryCameras(cfg) && Distinct(ids) && Filled(t.queues, ids, x, |ids|)
    ensures var next := TraceStep(cfg, t, AnchorOf(cfg, x));
            && Idle(next.queues, ids)
            && next.steps == t.steps + [MakeStep(Of(x, cfg.manifest.anchorCameraId), Given(ids, x))]
  {
    hide MakeStep, SecondaryCameras;
    var start := Progress(t.queues, t.horizon, [], true);
    TakesEach(start, ids, x, cfg.maxSkew);
    assert start.choices + Given(ids, x) == Given(ids, x);
  }

  /** After a round every secondary camera's `x` is in a new step, and nothing is queued. */
  lemma RoundRuns(cfg: Config, events: seq<Event>, ids: seq<Text>, x: StoredFrame)
    requires ids == SecondaryCameras(cfg) && Distinct(ids) && cfg.manifest.anchorCameraId !in ids
    requires Idle(Run(cfg, events).queues, ids)
    ensures var t := Run(cfg, events + Round(cfg, x));
            && Idle(t.queues, ids)
            && t.steps == Run(cfg, events).steps + [MakeStep(Of(x, cfg.manifest.anchorCameraId), Given(ids, x))]
  {
    hide MakeStep, SecondaryCameras, Distinct, Idle, Filled, TraceStep, Pushes;
    var earlier, all := events + Pushes(ids, x), events + Round(cfg, x);
    assert ids[..|ids|] == ids;
    PushesFill(cfg, events, ids, x, |ids|);
    assert all == earlier + [AnchorOf(cfg, x)];
    assert all[..|all| - 1] == earlier && all[|all| - 1] == AnchorOf(cfg, x);
    AnchorGives(cfg, Run(cfg, earlier), ids, x);
  }

  /**
   * For every configuration and every two frames of one secondary camera, whatever their
   * times, there is a run of two steps that uses the first and then the second. So a
   * frame accepted again is used again, and an accepted frame that is not past the
   * horizon makes a camera go back in time.
   */
  lemma AnyTwoFramesFollow(cfg: Config, f: StoredFrame, g: StoredFrame)
    requires DistinctCameras(cfg.manifest.cameras)
    requires f.cameraId == g.cameraId && f.cameraId in SecondaryCameras(cfg)
    ensures var steps := Run(cfg, Round(cfg, f) + Round(cfg, g)).steps;
            |steps| == 2 && Choice(f, 0) in steps[0].choices && Choice(g, 0) in steps[1].choices
  {
    hide Run, Round, SecondaryCameras, Idle, Distinct, SortById;
    var ids := SecondaryCameras(cfg);
    StartsIdle(cfg);
    assert [] + Round(cfg, f) == Round(cfg, f);
    RoundRuns(cfg, [], ids, f);
    RoundRuns(cfg, Round(cfg, f), ids, g);
    var k :| 0 <= k < |ids| && ids[k] == f.cameraId;
    assert Given(ids, f)[k] == Choice(f, 0) && Given(ids, g)[k] == Choice(g, 0);
  }

  lemma StartsIdle(cfg: Config)
    requires DistinctCameras(cfg.manifest.cameras)
    ensures Distinct(SecondaryCameras(cfg)) && cfg.manifest.anchorCameraId !in SecondaryCameras(cfg)
    ensures Run(cfg, []).steps == [] && Idle(Run(cfg, []).queues, SecondaryCameras(cfg))
  {
    SecondaryCamerasDistinct(cfg);
  }
}
