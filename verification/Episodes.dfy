/**
 * Episode recording, `SessionManager` of `crates/receiver/src/session.rs`: what an
 * episode is over every run of ingest, begin, end, take and schema update.
 */
module Episodes {
  import opened Common

  datatype Step = Step(sessionId: seq<Byte>, revision: nat, captureTime: nat)

  datatype EpisodeState = Recording | PostRoll | Finalized | Invalid

  datatype Episode = Episode(
    sessionId: seq<Byte>, revision: nat, state: EpisodeState, steps: seq<Step>, postRollRemaining: nat)

  datatype SessionError = SchemaFrozen | WrongState | InvalidStep | Capacity

  datatype Config = Config(sessionId: seq<Byte>, preRollCapacity: nat, episodeCapacity: nat)

  datatype Manager = Manager(revision: nat, preRoll: seq<Step>, active: Option<Episode>)

  function LastStep(m: Manager): Option<Step> {
    if m.active.Some? && m.active.value.steps != [] then Some(m.active.value.steps[|m.active.value.steps| - 1])
    else if m.preRoll != [] then Some(m.preRoll[|m.preRoll| - 1])
    else None
  }

  predicate StepAllowed(cfg: Config, m: Manager, step: Step) {
    && step.sessionId == cfg.sessionId && step.revision == m.revision && step.captureTime != 0
    && (LastStep(m).Some? ==> LastStep(m).value.captureTime < step.captureTime)
  }

  /** An episode with one more step; the last step of the post-roll finalizes it. */
  function Recorded(e: Episode, step: Step): Episode {
    var longer := e.(steps := e.steps + [step]);
    if e.state != PostRoll then longer
    else
      var left := SaturatingSub(e.postRollRemaining, 1);
      longer.(postRollRemaining := left, state := if left == 0 then Finalized else PostRoll)
  }

  function IngestStep(cfg: Config, m: Manager, step: Step): (Result<(), SessionError>, Manager) {
    if !StepAllowed(cfg, m, step) then (Err(InvalidStep), m)
    else if m.active.Some? then
      if |m.active.value.steps| == cfg.episodeCapacity then
        (Err(Capacity), m.(active := Some(m.active.value.(state := Invalid))))
      else (Ok(()), m.(active := Some(Recorded(m.active.value, step))))
    else
      var kept := if |m.preRoll| == cfg.preRollCapacity && m.preRoll != [] then m.preRoll[1..] else m.preRoll;
      (Ok(()), m.(preRoll := kept + [step]))
  }

  function BeginStep(cfg: Config, m: Manager): (Result<(), SessionError>, Manager) {
    if m.active.Some? then (Err(WrongState), m)
    else
      (Ok(()), m.(active := Some(Episode(cfg.sessionId, m.revision, Recording, m.preRoll, 0)), preRoll := []))
  }

  function EndStep(m: Manager, postRollSteps: nat): (Result<(), SessionError>, Manager) {
    if m.active.None? || m.active.value.state != Recording then (Err(WrongState), m)
    else
      var e := m.active.value.(postRollRemaining := postRollSteps, state := if postRollSteps == 0 then Finalized else PostRoll);
      (Ok(()), m.(active := Some(e)))
  }

  function TakeStep(m: Manager): (Result<Episode, SessionError>, Manager) {
    if m.active.None? || (m.active.value.state != Finalized && m.active.value.state != Invalid) then (Err(WrongState), m)
    else (Ok(m.active.value), m.(active := None))
  }

  function UpdateStep(m: Manager, revision: nat): (Result<(), SessionError>, Manager) {
    if m.active.Some? then (Err(SchemaFrozen), m)
    else if revision == 0 then (Err(InvalidStep), m)
    else (Ok(()), m.(revision := revision, preRoll := []))
  }

  // ---- Runs, with every admitted step and every episode taken ----

  datatype Event = Ingest(step: Step) | Begin | End(postRollSteps: nat) | Take | UpdateSchema(revision: nat)

  /**
   * Where an episode's first step stands among the admitted ones, how many had been
   * admitted at the clearing before it and when it was begun, how many steps it held when
   * it was ended, and the post-roll it was ended with.
   */
  datatype Marks = Marks(from: nat, clearedAt: nat, begunAt: nat, endedAt: nat, postRoll: nat)

  datatype Taken = Taken(episode: Episode, marks: Marks)

  /** `clears` holds how many steps had been admitted at each take and each schema update, `cleared` the latest. */
  datatype Trace = Trace(
    manager: Manager, admitted: seq<Step>, taken: seq<Taken>, marks: Marks, clears: set<nat>, cleared: nat)

  function Start(revision: nat): Trace { Trace(Manager(revision, [], None), [], [], Marks(0, 0, 0, 0, 0), {}, 0) }

  function TraceStep(cfg: Config, t: Trace, event: Event): Trace {
    match event
    case Ingest(step) =>
      (match IngestStep(cfg, t.manager, step)
       case (Ok(_), next) => t.(manager := next, admitted := t.admitted + [step])
       case (Err(_), next) => t.(manager := next))
    case Begin =>
      (match BeginStep(cfg, t.manager)
       case (Ok(_), next) => t.(manager := next, marks := Marks(|t.admitted| - Min(|t.admitted|, |t.manager.preRoll|), t.cleared, |t.admitted|, 0, 0))
       case (Err(_), next) => t.(manager := next))
    case End(postRollSteps) =>
      (match EndStep(t.manager, postRollSteps)
       case (Ok(_), next) =>
         t.(manager := next, marks := t.marks.(endedAt := |next.active.value.steps|, postRoll := postRollSteps))
       case (Err(_), next) => t.(manager := next))
    case Take =>
      (match TakeStep(t.manager)
       case (Ok(episode), next) =>
         t.(manager := next, taken := t.taken + [Taken(episode, t.marks)], clears := t.clears + {|t.admitted|},
            cleared := |t.admitted|)
       case (Err(_), next) => t.(manager := next))
    case UpdateSchema(revision) =>
      (match UpdateStep(t.manager, revision)
       case (Ok(_), next) => t.(manager := next, clears := t.clears + {|t.admitted|}, cleared := |t.admitted|)
       case (Err(_), next) => t.(manager := next))
  }

  function Run(cfg: Config, revision: nat, events: seq<Event>): Trace {
    if events == [] then Start(revision)
    else TraceStep(cfg, Run(cfg, revision, events[..|events| - 1]), events[|events| - 1])
  }

  // ---- The invariant ----

  /** `steps` are the admitted steps from position `from` on. */
  ghost predicate IsSlice(steps: seq<Step>, admitted: seq<Step>, from: nat) {
    from + |steps| <= |admitted| && steps == admitted[from..from + |steps|]
  }

  /** Strictly increasing in time, all of one session and revision. */
  ghost predicate Uniform(steps: seq<Step>, sessionId: seq<Byte>, revision: nat) {
    && (forall i, j :: 0 <= i < j < |steps| ==> steps[i].captureTime < steps[j].captureTime)
    && (forall i :: 0 <= i < |steps| ==> steps[i].sessionId == sessionId && steps[i].revision == revision)
  }

  /** The post-roll asked for is recorded before the episode is final; only a full episode is invalid. */
  ghost predicate StateOk(cfg: Config, e: Episode, marks: Marks) {
    match e.state
    case Recording => true
    case PostRoll =>
      0 < e.postRollRemaining && marks.endedAt + marks.postRoll == |e.steps| + e.postRollRemaining
    case Finalized => marks.endedAt + marks.postRoll <= |e.steps|
    case Invalid => |e.steps| == cfg.episodeCapacity
  }

  ghost predicate EpisodeOk(cfg: Config, e: Episode, admitted: seq<Step>, marks: Marks) {
    && IsSlice(e.steps, admitted, marks.from)
    && e.sessionId == cfg.sessionId && Uniform(e.steps, e.sessionId, e.revision)
    && (cfg.preRollCapacity <= cfg.episodeCapacity ==> |e.steps| <= cfg.episodeCapacity)
    && StateOk(cfg, e, marks)
  }

  ghost predicate ManagerOk(cfg: Config, t: Trace) {
    var m := t.manager;
    if m.active.Some? then
      && m.preRoll == [] && m.active.value.revision == m.revision
      && EpisodeOk(cfg, m.active.value, t.admitted, t.marks)
      && t.marks.from + |m.active.value.steps| == |t.admitted|
    else
      && |m.preRoll| <= cfg.preRollCapacity && |m.preRoll| <= |t.admitted|
      && IsSlice(m.preRoll, t.admitted, |t.admitted| - |m.preRoll|)
      && Uniform(m.preRoll, cfg.sessionId, m.revision)
  }

  /** Where the steps not yet in a taken episode start. */
  ghost function Open(t: Trace): nat {
    if t.manager.active.Some? then t.marks.from else Max(0, |t.admitted| - |t.manager.preRoll|)
  }

  ghost predicate TakenOk(cfg: Config, t: Trace) {
    && (forall k :: 0 <= k < |t.taken| ==> EpisodeOk(cfg, t.taken[k].episode, t.admitted, t.taken[k].marks))
    && (forall k :: 0 <= k < |t.taken| ==> t.taken[k].marks.from + |t.taken[k].episode.steps| <= Open(t))
    && (forall j, k :: 0 <= j < k < |t.taken| ==> t.taken[j].marks.from + |t.taken[j].episode.steps| <= t.taken[k].marks.from)
  }

  ghost predicate TraceOk(cfg: Config, t: Trace) { ManagerOk(cfg, t) && TakenOk(cfg, t) }

  lemma UniformSnoc(steps: seq<Step>, step: Step, sessionId: seq<Byte>, revision: nat)
    requires Uniform(steps, sessionId, revision) && step.sessionId == sessionId && step.revision == revision
    requires steps != [] ==> steps[|steps| - 1].captureTime < step.captureTime
    ensures Uniform(steps + [step], sessionId, revision)
  {
    var all := steps + [step];
    forall i, j | 0 <= i < j < |all|
      ensures all[i].captureTime < all[j].captureTime
    {
      assert i < |steps| - 1 ==> steps[i].captureTime < steps[|steps| - 1].captureTime;
    }
  }

  lemma SliceKept(steps: seq<Step>, admitted: seq<Step>, from: nat, step: Step)
    requires IsSlice(steps, admitted, from)
    ensures IsSlice(steps, admitted + [step], from)
    ensures from + |steps| == |admitted| ==> IsSlice(steps + [step], admitted + [step], from)
  {
  }

  lemma TakenKept(cfg: Config, t: Trace, step: Step, next: Trace)
    requires TakenOk(cfg, t) && next.taken == t.taken && next.admitted == t.admitted + [step] && Open(t) <= Open(next)
    ensures TakenOk(cfg, next)
  {
    forall k | 0 <= k < |t.taken|
      ensures EpisodeOk(cfg, t.taken[k].episode, next.admitted, t.taken[k].marks)
    {
      SliceKept(t.taken[k].episode.steps, t.admitted, t.taken[k].marks.from, step);
    }
  }

  lemma IngestKeeps(cfg: Config, t: Trace, step: Step)
    requires cfg.preRollCapacity > 0 && TraceOk(cfg, t)
    ensures TraceOk(cfg, TraceStep(cfg, t, Ingest(step)))
  {
    hide IsSlice, Uniform;
    var m := t.manager;
    var (result, after) := IngestStep(cfg, m, step);
    var next := TraceStep(cfg, t, Ingest(step));
    if result.Ok? {
      if m.active.Some? {
        ActiveKeeps(cfg, t, step);
      } else {
        PreRollKeeps(cfg, t, step);
      }
      hide EpisodeOk;
      TakenKept(cfg, t, step, next);
    }
  }

  lemma ActiveKeeps(cfg: Config, t: Trace, step: Step)
    requires ManagerOk(cfg, t) && t.manager.active.Some? && StepAllowed(cfg, t.manager, step)
    requires |t.manager.active.value.steps| != cfg.episodeCapacity
    ensures EpisodeOk(cfg, Recorded(t.manager.active.value, step), t.admitted + [step], t.marks)
  {
    hide IsSlice, Uniform;
    var steps := t.manager.active.value.steps;
    SliceKept(steps, t.admitted, t.marks.from, step);
    UniformSnoc(steps, step, cfg.sessionId, t.manager.revision);
  }

  lemma DropOldest(steps: seq<Step>, admitted: seq<Step>, from: nat, sessionId: seq<Byte>, revision: nat)
    requires steps != [] && IsSlice(steps, admitted, from) && Uniform(steps, sessionId, revision)
    ensures IsSlice(steps[1..], admitted, from + 1) && Uniform(steps[1..], sessionId, revision)
  {
  }

  lemma PreRollKeeps(cfg: Config, t: Trace, step: Step)
    requires cfg.preRollCapacity > 0 && ManagerOk(cfg, t) && t.manager.active.None? && StepAllowed(cfg, t.manager, step)
    ensures var next := IngestStep(cfg, t.manager, step).1.preRoll;
            && |next| <= cfg.preRollCapacity && |next| <= |t.admitted| + 1
            && IsSlice(next, t.admitted + [step], |t.admitted| + 1 - |next|)
            && Uniform(next, cfg.sessionId, t.manager.revision)
            && |t.admitted| - |t.manager.preRoll| <= |t.admitted| + 1 - |next|
  {
    hide IsSlice, Uniform;
    var preRoll := t.manager.preRoll;
    var from := |t.admitted| - |preRoll|;
    var kept := preRoll;
    if |preRoll| == cfg.preRollCapacity {
      DropOldest(preRoll, t.admitted, from, cfg.sessionId, t.manager.revision);
      kept := preRoll[1..];
      assert kept != [] ==> kept[|kept| - 1] == preRoll[|preRoll| - 1];
    }
    UniformSnoc(kept, step, cfg.sessionId, t.manager.revision);
    SliceKept(kept, t.admitted, |t.admitted| - |kept|, step);
  }

  lemma TraceStepKeeps(cfg: Config, t: Trace, event: Event)
    requires cfg.preRollCapacity > 0 && TraceOk(cfg, t)
    ensures TraceOk(cfg, TraceStep(cfg, t, event))
  {
    hide TraceOk, TraceStep;
    match event
    case Ingest(step) => IngestKeeps(cfg, t, step);
    case Begin => BeginKeeps(cfg, t);
    case End(postRollSteps) => EndKeeps(cfg, t, postRollSteps);
    case Take => TakeKeeps(cfg, t);
    case UpdateSchema(revision) => UpdateKeeps(cfg, t, revision);
  }

  lemma BeginKeeps(cfg: Config, t: Trace)
    requires cfg.preRollCapacity > 0 && TraceOk(cfg, t)
    ensures TraceOk(cfg, TraceStep(cfg, t, Begin))
  {
    hide IsSlice, Uniform;
    assert forall k :: 0 <= k < |t.taken| ==> EpisodeOk(cfg, t.taken[k].episode, t.admitted, t.taken[k].marks);
    hide TakenOk;
    assert ManagerOk(cfg, TraceStep(cfg, t, Begin));
    TakenUnchanged(cfg, t, TraceStep(cfg, t, Begin));
  }

  lemma EndKeeps(cfg: Config, t: Trace, postRollSteps: nat)
    requires TraceOk(cfg, t)
    ensures TraceOk(cfg, TraceStep(cfg, t, End(postRollSteps)))
  {
    hide IsSlice, Uniform, TakenOk;
    TakenUnchanged(cfg, t, TraceStep(cfg, t, End(postRollSteps)));
  }

  lemma TakeKeeps(cfg: Config, t: Trace)
    requires TraceOk(cfg, t)
    ensures TraceOk(cfg, TraceStep(cfg, t, Take))
  {
    hide StateOk;
    var next := TraceStep(cfg, t, Take);
    if TakeStep(t.manager).0.Ok? {
      assert IsSlice([], t.admitted, |t.admitted|) && Uniform([], cfg.sessionId, t.manager.revision);
      hide IsSlice, Uniform, EpisodeOk;
      TakenMore(cfg, t, next);
    }
  }

  lemma UpdateKeeps(cfg: Config, t: Trace, revision: nat)
    requires TraceOk(cfg, t)
    ensures TraceOk(cfg, TraceStep(cfg, t, UpdateSchema(revision)))
  {
    hide EpisodeOk, TakenOk;
    TakenUnchanged(cfg, t, TraceStep(cfg, t, UpdateSchema(revision)));
  }

  lemma TakenUnchanged(cfg: Config, t: Trace, next: Trace)
    requires TakenOk(cfg, t) && next.taken == t.taken && next.admitted == t.admitted && Open(t) <= Open(next)
    ensures TakenOk(cfg, next)
  {
    hide EpisodeOk;
  }

  lemma TakenMore(cfg: Config, t: Trace, next: Trace)
    requires TakenOk(cfg, t) && next.admitted == t.admitted && t.manager.active.Some?
    requires EpisodeOk(cfg, t.manager.active.value, t.admitted, t.marks)
    requires next.taken == t.taken + [Taken(t.manager.active.value, t.marks)]
    requires Open(t) == t.marks.from && t.marks.from + |t.manager.active.value.steps| <= Open(next)
    ensures TakenOk(cfg, next)
  {
    hide EpisodeOk, Open;
  }

  lemma {:induction false} RunKeeps(cfg: Config, revision: nat, events: seq<Event>)
    requires cfg.preRollCapacity > 0
    ensures TraceOk(cfg, Run(cfg, revision, events))
  {
    if events != [] {
      RunKeeps(cfg, revision, events[..|events| - 1]);
      TraceStepKeeps(cfg, Run(cfg, revision, events[..|events| - 1]), events[|events| - 1]);
    }
  }

  /**
   * On every run each episode, taken or active, is one contiguous run of the admitted
   * steps, strictly increasing in time, of the episode's session and frozen revision, and
   * no two episodes share a position among the admitted steps.
   */
  lemma EpisodesAreSlices(cfg: Config, revision: nat, events: seq<Event>)
    requires cfg.preRollCapacity > 0
    ensures var t := Run(cfg, revision, events);
            && (forall k :: 0 <= k < |t.taken| ==>
                  && IsSlice(t.taken[k].episode.steps, t.admitted, t.taken[k].marks.from)
                  && t.taken[k].episode.sessionId == cfg.sessionId
                  && Uniform(t.taken[k].episode.steps, t.taken[k].episode.sessionId, t.taken[k].episode.revision))
            && (forall j, k :: 0 <= j < k < |t.taken| ==>
                  t.taken[j].marks.from + |t.taken[j].episode.steps| <= t.taken[k].marks.from)
            && (t.manager.active.Some? ==>
                  var e := t.manager.active.value;
                  && IsSlice(e.steps, t.admitted, t.marks.from) && Uniform(e.steps, cfg.sessionId, e.revision)
                  && forall k :: 0 <= k < |t.taken| ==>
                       t.taken[k].marks.from + |t.taken[k].episode.steps| <= t.marks.from)
  {
    RunKeeps(cfg, revision, events);
  }

  /**
   * An episode taken as finalized holds at least the post-roll it was ended with; one
   * taken as invalid is exactly full; none is taken while recording or in post-roll.
   */
  lemma TakenEpisodesAreComplete(cfg: Config, revision: nat, events: seq<Event>)
    requires cfg.preRollCapacity > 0
    ensures var t := Run(cfg, revision, events);
            forall k :: 0 <= k < |t.taken| ==>
              var e, marks := t.taken[k].episode, t.taken[k].marks;
              || (e.state == Finalized && marks.endedAt + marks.postRoll <= |e.steps|)
              || (e.state == Invalid && |e.steps| == cfg.episodeCapacity)
  {
    RunKeeps(cfg, revision, events);
  }

  ghost predicate Bounded(cfg: Config, t: Trace) {
    && (forall k :: 0 <= k < |t.taken| ==> |t.taken[k].episode.steps| <= cfg.episodeCapacity)
    && (t.manager.active.Some? ==> |t.manager.active.value.steps| <= cfg.episodeCapacity)
  }

  /** `n` steps of the session, at times 1 to `n`. */
  function Clock(sessionId: seq<Byte>, revision: nat, n: nat): seq<Event> {
    if n == 0 then [] else Clock(sessionId, revision, n - 1) + [Ingest(Step(sessionId, revision, n))]
  }

  lemma {:induction false} PreRollFills(cfg: Config, revision: nat, n: nat)
    requires n <= cfg.preRollCapacity
    ensures var m := Run(cfg, revision, Clock(cfg.sessionId, revision, n)).manager;
            && m.active.None? && m.revision == revision && |m.preRoll| == n
            && (n > 0 ==> m.preRoll[n - 1].captureTime == n)
  {
    if n > 0 {
      PreRollFills(cfg, revision, n - 1);
      var events := Clock(cfg.sessionId, revision, n);
      assert events[..|events| - 1] == Clock(cfg.sessionId, revision, n - 1);
    }
  }

  /** A larger pre-roll makes an episode that is over its capacity from the start. */
  lemma LargerPreRollOverflows(cfg: Config, revision: nat)
    requires cfg.episodeCapacity < cfg.preRollCapacity
    ensures !Bounded(cfg, Run(cfg, revision, Clock(cfg.sessionId, revision, cfg.preRollCapacity) + [Begin]))
  {
    PreRollFills(cfg, revision, cfg.preRollCapacity);
    var filled := Clock(cfg.sessionId, revision, cfg.preRollCapacity);
    assert (filled + [Begin])[..|filled|] == filled;
  }

  /**
   * Episodes stay within their capacity on every run exactly when the pre-roll is no
   * larger than an episode: the capacity is tested for equality, and the constructor
   * does not compare the two.
   */
  lemma BoundedExactlyWhen(cfg: Config, revision: nat)
    requires cfg.preRollCapacity > 0
    ensures (forall events :: Bounded(cfg, Run(cfg, revision, events))) <==> cfg.preRollCapacity <= cfg.episodeCapacity
  {
    if cfg.preRollCapacity <= cfg.episodeCapacity {
      forall events
        ensures Bounded(cfg, Run(cfg, revision, events))
      {
        RunKeeps(cfg, revision, events);
      }
    } else {
      LargerPreRollOverflows(cfg, revision);
    }
  }

  // ---- How far the pre-roll reaches ----

  /** Where the newest `n` of the first `end` steps begin, not before `cleared`. */
  function NewestFrom(cleared: nat, end: nat, n: nat): nat { Max(cleared, end - Min(end, n)) }

  ghost predicate MarksOk(cfg: Config, marks: Marks) {
    marks.clearedAt <= marks.begunAt && marks.from == NewestFrom(marks.clearedAt, marks.begunAt, cfg.preRollCapacity)
  }

  ghost predicate ReachOk(cfg: Config, t: Trace) {
    && t.cleared <= |t.admitted|
    && (t.manager.active.None? ==> |t.manager.preRoll| == |t.admitted| - NewestFrom(t.cleared, |t.admitted|, cfg.preRollCapacity))
    && (t.manager.active.Some? ==> MarksOk(cfg, t.marks))
    && forall k :: 0 <= k < |t.taken| ==> MarksOk(cfg, t.taken[k].marks)
  }

  lemma ReachStep(cfg: Config, t: Trace, event: Event)
    requires cfg.preRollCapacity > 0 && ReachOk(cfg, t) && (t.manager.active.Some? ==> t.manager.preRoll == [])
    ensures ReachOk(cfg, TraceStep(cfg, t, event))
  {
    hide MarksOk, StepAllowed;
    match event
    case Ingest(step) =>
    case Begin =>
      if t.manager.active.None? {
        MarksBegin(cfg, t);
      }
    case End(postRollSteps) => MarksEnd(cfg, t.marks);
    case Take =>
    case UpdateSchema(revision) =>
  }

  lemma MarksBegin(cfg: Config, t: Trace)
    requires ReachOk(cfg, t) && t.manager.active.None?
    ensures MarksOk(cfg, TraceStep(cfg, t, Begin).marks)
  {
  }

  lemma MarksEnd(cfg: Config, marks: Marks)
    ensures forall endedAt: nat, postRoll: nat ::
              MarksOk(cfg, marks.(endedAt := endedAt, postRoll := postRoll)) <==> MarksOk(cfg, marks)
  {
  }

  lemma {:induction false} ReachOnEveryRun(cfg: Config, revision: nat, events: seq<Event>)
    requires cfg.preRollCapacity > 0
    ensures ReachOk(cfg, Run(cfg, revision, events))
  {
    if events != [] {
      var t := Run(cfg, revision, events[..|events| - 1]);
      ReachOnEveryRun(cfg, revision, events[..|events| - 1]);
      ClearsOnEveryRun(cfg, revision, events[..|events| - 1]);
      ReachStep(cfg, t, events[|events| - 1]);
    }
  }

  /**
   * On every run the pre-roll is exactly the newest `preRollCapacity` steps admitted since
   * the last take or schema update, and every episode, taken or active, begins with exactly
   * those of its beginning and goes on with every step admitted since.
   */
  lemma PreRollIsNewest(cfg: Config, revision: nat, events: seq<Event>)
    requires cfg.preRollCapacity > 0
    ensures var t := Run(cfg, revision, events);
            && t.cleared <= |t.admitted|
            && (t.manager.active.None? ==>
                  t.manager.preRoll == t.admitted[NewestFrom(t.cleared, |t.admitted|, cfg.preRollCapacity)..])
            && (t.manager.active.Some? ==>
                  && t.marks.clearedAt <= t.marks.begunAt <= |t.admitted|
                  && t.manager.active.value.steps
                     == t.admitted[NewestFrom(t.marks.clearedAt, t.marks.begunAt, cfg.preRollCapacity)..])
            && forall k :: 0 <= k < |t.taken| ==>
                 && t.taken[k].marks.clearedAt <= t.taken[k].marks.begunAt
                 && t.taken[k].marks.from == NewestFrom(t.taken[k].marks.clearedAt, t.taken[k].marks.begunAt, cfg.preRollCapacity)
  {
    RunKeeps(cfg, revision, events);
    ReachOnEveryRun(cfg, revision, events);
    BegunOnEveryRun(cfg, revision, events);
    hide Run, TakenOk, Uniform, StateOk;
  }

  lemma {:induction false} BegunOnEveryRun(cfg: Config, revision: nat, events: seq<Event>)
    ensures Run(cfg, revision, events).marks.begunAt <= |Run(cfg, revision, events).admitted|
  {
    if events != [] {
      BegunOnEveryRun(cfg, revision, events[..|events| - 1]);
    }
  }

  // ---- Exactly when a step may repeat or go back in time ----

  /** Nothing is held to compare with exactly when nothing was admitted since the last clearing. */
  ghost predicate ClearsOk(t: Trace) {
    && (forall i :: i in t.clears ==> i <= |t.admitted|)
    && (LastStep(t.manager).None? <==> t.admitted == [] || |t.admitted| in t.clears)
    && (LastStep(t.manager).Some? ==> t.admitted != [] && LastStep(t.manager).value == t.admitted[|t.admitted| - 1])
    && (forall i :: 0 < i < |t.admitted| && i !in t.clears ==> t.admitted[i - 1].captureTime < t.admitted[i].captureTime)
    && (t.manager.active.Some? ==> t.manager.preRoll == [])
  }

  lemma AdmitKeepsClears(cfg: Config, t: Trace, step: Step)
    requires ClearsOk(t) && IngestStep(cfg, t.manager, step).0.Ok?
    ensures ClearsOk(TraceStep(cfg, t, Ingest(step)))
  {
    var next := TraceStep(cfg, t, Ingest(step));
    assert next.admitted[|t.admitted|] == step;
    assert LastStep(next.manager) == Some(step);
  }

  lemma {:induction false} ClearsOnEveryRun(cfg: Config, revision: nat, events: seq<Event>)
    ensures ClearsOk(Run(cfg, revision, events))
  {
    if events == [] {
      assert LastStep(Run(cfg, revision, events).manager).None?;
    } else {
      hide ClearsOk, TraceStep;
      ClearsOnEveryRun(cfg, revision, events[..|events| - 1]);
      StepKeepsClears(cfg, Run(cfg, revision, events[..|events| - 1]), events[|events| - 1]);
    }
  }

  lemma StepKeepsClears(cfg: Config, t: Trace, event: Event)
    requires ClearsOk(t)
    ensures ClearsOk(TraceStep(cfg, t, event))
  {
    match event
    case Ingest(step) =>
      if IngestStep(cfg, t.manager, step).0.Ok? {
        AdmitKeepsClears(cfg, t, step);
      }
    case Begin =>
    case End(postRollSteps) =>
    case Take =>
    case UpdateSchema(next) =>
  }

  /**
   * On every run a step of the session and revision is admitted, capacity permitting,
   * exactly when it is later than the last admitted step or nothing was admitted since
   * the last take or schema update.
   */
  lemma AdmittedExactlyWhen(cfg: Config, revision: nat, events: seq<Event>, step: Step)
    ensures var t := Run(cfg, revision, events);
            IngestStep(cfg, t.manager, step).0.Ok? <==>
              && step.sessionId == cfg.sessionId && step.revision == t.manager.revision && step.captureTime != 0
              && (t.manager.active.Some? ==> |t.manager.active.value.steps| != cfg.episodeCapacity)
              && (|t.admitted| in t.clears || t.admitted == []
                  || t.admitted[|t.admitted| - 1].captureTime < step.captureTime)
  {
    ClearsOnEveryRun(cfg, revision, events);
  }

  ghost predicate Increasing(steps: seq<Step>) {
    forall i, j :: 0 <= i < j < |steps| ==> steps[i].captureTime < steps[j].captureTime
  }

  ghost predicate RisesAt(steps: seq<Step>, i: nat) {
    0 < i < |steps| ==> steps[i - 1].captureTime < steps[i].captureTime
  }

  lemma {:induction false} RisesEverywhere(steps: seq<Step>, i: nat, j: nat)
    requires i < j < |steps| && forall k :: i < k <= j ==> RisesAt(steps, k)
    ensures steps[i].captureTime < steps[j].captureTime
  {
    assert RisesAt(steps, j);
    if i < j - 1 {
      RisesEverywhere(steps, i, j - 1);
    }
  }

  /**
   * The whole session never goes back in time, so no step is in two episodes, exactly when
   * the first step after each take and each schema update is later than the one before it.
   */
  lemma NeverBackExactlyWhen(cfg: Config, revision: nat, events: seq<Event>)
    ensures var t := Run(cfg, revision, events);
            Increasing(t.admitted) <==> forall i :: i in t.clears ==> RisesAt(t.admitted, i)
  {
    ClearsOnEveryRun(cfg, revision, events);
    var t := Run(cfg, revision, events);
    if forall i :: i in t.clears ==> RisesAt(t.admitted, i) {
      forall i, j | 0 <= i < j < |t.admitted|
        ensures t.admitted[i].captureTime < t.admitted[j].captureTime
      {
        assert forall k :: i < k <= j ==> RisesAt(t.admitted, k);
        RisesEverywhere(t.admitted, i, j);
      }
    }
  }

  /** In such a session no step is in two of the episodes taken. */
  lemma IncreasingSharesNothing(cfg: Config, revision: nat, events: seq<Event>, j: nat, k: nat, a: Step, b: Step)
    requires cfg.preRollCapacity > 0 && Increasing(Run(cfg, revision, events).admitted)
    requires j < k < |Run(cfg, revision, events).taken|
    requires a in Run(cfg, revision, events).taken[j].episode.steps && b in Run(cfg, revision, events).taken[k].episode.steps
    ensures a.captureTime < b.captureTime
  {
    EpisodesAreSlices(cfg, revision, events);
    var t := Run(cfg, revision, events);
    var x :| 0 <= x < |t.taken[j].episode.steps| && t.taken[j].episode.steps[x] == a;
    var y :| 0 <= y < |t.taken[k].episode.steps| && t.taken[k].episode.steps[y] == b;
    assert t.admitted[t.taken[j].marks.from + x] == a && t.admitted[t.taken[k].marks.from + y] == b;
  }

  /** An episode of one step. */
  function OneStepEpisode(step: Step): seq<Event> { [Ingest(step), Begin, End(0), Take] }

  ghost predicate Empty(t: Trace, revision: nat) {
    t.manager == Manager(revision, [], None)
  }

  lemma OneStepRuns(cfg: Config, revision: nat, events: seq<Event>, step: Step)
    requires cfg.preRollCapacity > 0 && step.sessionId == cfg.sessionId && step.revision == revision && step.captureTime != 0
    requires Empty(Run(cfg, revision, events), revision)
    ensures var t := Run(cfg, revision, events + OneStepEpisode(step));
            && Empty(t, revision) && |t.taken| == |Run(cfg, revision, events).taken| + 1
            && t.taken[..|t.taken| - 1] == Run(cfg, revision, events).taken
            && t.taken[|t.taken| - 1].episode.steps == [step]
  {
    hide Run, TraceStep;
    var all := events + OneStepEpisode(step);
    var n := |events|;
    assert all[..n + 4] == all && all[..n] == events;
    RunStep(cfg, revision, all, n);
    RunStep(cfg, revision, all, n + 1);
    RunStep(cfg, revision, all, n + 2);
    RunStep(cfg, revision, all, n + 3);
    FourSteps(cfg, revision, Run(cfg, revision, events), step);
  }

  lemma FourSteps(cfg: Config, revision: nat, t: Trace, step: Step)
    requires cfg.preRollCapacity > 0 && step.sessionId == cfg.sessionId && step.revision == revision && step.captureTime != 0
    requires Empty(t, revision)
    ensures var begun := TraceStep(cfg, TraceStep(cfg, t, Ingest(step)), Begin);
            var next := TraceStep(cfg, TraceStep(cfg, begun, End(0)), Take);
            && Empty(next, revision) && |next.taken| == |t.taken| + 1 && next.taken[..|t.taken|] == t.taken
            && next.taken[|t.taken|].episode.steps == [step]
  {
    var one := TraceStep(cfg, t, Ingest(step));
    assert one.manager == Manager(revision, [step], None);
    var begun := TraceStep(cfg, one, Begin);
    assert begun.manager == Manager(revision, [], Some(Episode(cfg.sessionId, revision, Recording, [step], 0)));
  }

  lemma RunStep(cfg: Config, revision: nat, events: seq<Event>, n: nat)
    requires n < |events|
    ensures Run(cfg, revision, events[..n + 1]) == TraceStep(cfg, Run(cfg, revision, events[..n]), events[n])
  {
    assert events[..n + 1][..n] == events[..n];
  }

  /**
   * The condition is needed: for any two steps of the session, whatever their times and
   * even if equal, there is a run whose two episodes are the first step and the second.
   */
  lemma AnyTwoEpisodesFollow(cfg: Config, revision: nat, a: Step, b: Step)
    requires cfg.preRollCapacity > 0
    requires a.sessionId == b.sessionId == cfg.sessionId && a.revision == b.revision == revision
    requires a.captureTime != 0 && b.captureTime != 0
    ensures var t := Run(cfg, revision, OneStepEpisode(a) + OneStepEpisode(b));
            |t.taken| == 2 && t.taken[0].episode.steps == [a] && t.taken[1].episode.steps == [b]
  {
    assert [] + OneStepEpisode(a) == OneStepEpisode(a);
    OneStepRuns(cfg, revision, [], a);
    OneStepRuns(cfg, revision, OneStepEpisode(a), b);
  }

  // ---- The source's object ----

  class SessionManager {
    const cfg: Config
    var revision: nat
    var preRoll: seq<Step>
    var active: Option<Episode>

    ghost function State(): Manager
      reads this
    {
      Manager(revision, preRoll, active)
    }

    constructor (cfg: Config, revision: nat)
      requires revision != 0 && cfg.preRollCapacity > 0 && cfg.episodeCapacity > 0
      ensures this.cfg == cfg && State() == Start(revision).manager
    {
      this.cfg, this.revision, preRoll, active := cfg, revision, [], None;
    }

    static method New(cfg: Config, revision: nat) returns (result: Result<SessionManager, SessionError>)
      ensures result.Ok? <==> revision != 0 && cfg.preRollCapacity != 0 && cfg.episodeCapacity != 0
      ensures result.Ok? ==> result.value.cfg == cfg && result.value.State() == Start(revision).manager
      ensures result.Err? ==> result.error == Capacity
    {
      if revision == 0 || cfg.preRollCapacity == 0 || cfg.episodeCapacity == 0 {
        return Err(Capacity);
      }
      var manager := new SessionManager(cfg, revision);
      return Ok(manager);
    }

    method IngestOne(step: Step) returns (result: Result<(), SessionError>)
      modifies this
      ensures (result, State()) == IngestStep(cfg, old(State()), step)
    {
      if step.sessionId != cfg.sessionId || step.revision != revision || step.captureTime == 0 {
        return Err(InvalidStep);
      }
      var last: Option<Step> := None;
      if active.Some? && active.value.steps != [] {
        last := Some(active.value.steps[|active.value.steps| - 1]);
      } else if preRoll != [] {
        last := Some(preRoll[|preRoll| - 1]);
      }
      if last.Some? && step.captureTime <= last.value.captureTime {
        return Err(InvalidStep);
      }
      if active.Some? {
        var episode := active.value;
        if |episode.steps| == cfg.episodeCapacity {
          active := Some(episode.(state := Invalid));
          return Err(Capacity);
        }
        episode := episode.(steps := episode.steps + [step]);
        if episode.state == PostRoll {
          episode := episode.(postRollRemaining := SaturatingSub(episode.postRollRemaining, 1));
          if episode.postRollRemaining == 0 {
            episode := episode.(state := Finalized);
          }
        }
        active := Some(episode);
      } else {
        if |preRoll| == cfg.preRollCapacity && preRoll != [] {
          preRoll := preRoll[1..];
        }
        preRoll := preRoll + [step];
      }
      return Ok(());
    }

    method BeginEpisode() returns (result: Result<(), SessionError>)
      modifies this
      ensures (result, State()) == BeginStep(cfg, old(State()))
    {
      if active.Some? {
        return Err(WrongState);
      }
      active := Some(Episode(cfg.sessionId, revision, Recording, preRoll, 0));
      preRoll := [];
      return Ok(());
    }

    method EndEpisode(postRollSteps: nat) returns (result: Result<(), SessionError>)
      modifies this
      ensures (result, State()) == EndStep(old(State()), postRollSteps)
    {
      if active.None? || active.value.state != Recording {
        return Err(WrongState);
      }
      var episode := active.value.(postRollRemaining := postRollSteps);
      active := Some(episode.(state := if postRollSteps == 0 then Finalized else PostRoll));
      return Ok(());
    }

    method TakeFinalized() returns (result: Result<Episode, SessionError>)
      modifies this
      ensures (result, State()) == TakeStep(old(State()))
    {
      if active.None? || (active.value.state != Finalized && active.value.state != Invalid) {
        return Err(WrongState);
      }
      result := Ok(active.value);
      active := None;
    }

    method UpdateSchemaRevision(newRevision: nat) returns (result: Result<(), SessionError>)
      modifies this
      ensures (result, State()) == UpdateStep(old(State()), newRevision)
    {
      if active.Some? {
        return Err(SchemaFrozen);
      }
      if newRevision == 0 {
        return Err(InvalidStep);
      }
      revision, preRoll := newRevision, [];
      return Ok(());
    }
  }
}
