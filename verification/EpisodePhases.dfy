/**
 * When an episode of `crates/receiver/src/session.rs` begins, ends, overflows and may be
 * taken, and what every call is answered, from the calls that have succeeded alone.
 */
module EpisodePhases {
  import opened Common
  import opened Episodes

  /** What the answers so far say: an episode is open, was ended, was overrun; and the revision in force. */
  datatype Phase = Phase(open: bool, ended: bool, overrun: bool, revision: nat)

  /** The answer to one event, with the episode of a take left out. */
  function Answer(cfg: Config, m: Manager, event: Event): Result<(), SessionError> {
    match event
    case Ingest(step) => IngestStep(cfg, m, step).0
    case Begin => BeginStep(cfg, m).0
    case End(postRollSteps) => EndStep(m, postRollSteps).0
    case Take => (match TakeStep(m).0 case Ok(_) => Ok(()) case Err(error) => Err(error))
    case UpdateSchema(revision) => UpdateStep(m, revision).0
  }

  /** The phase after an event and its answer. */
  function After(p: Phase, event: Event, answer: Result<(), SessionError>): Phase {
    if answer.Err? then
      if event.Ingest? && answer.error == Capacity then p.(overrun := true) else p
    else
      match event
      case Ingest(_) => p
      case Begin => Phase(true, false, false, p.revision)
      case End(_) => p.(ended := true)
      case Take => p.(open := false)
      case UpdateSchema(revision) => p.(revision := revision)
  }

  function PhaseOf(cfg: Config, revision: nat, events: seq<Event>): Phase {
    if events == [] then Phase(false, false, false, revision)
    else
      var n := |events| - 1;
      After(PhaseOf(cfg, revision, events[..n]), events[n], Answer(cfg, Run(cfg, revision, events[..n]).manager, events[n]))
  }

  /** An episode that was ended has recorded the post-roll it was ended with. */
  predicate Completed(e: Episode, marks: Marks) { marks.endedAt + marks.postRoll <= |e.steps| }

  function StateOf(p: Phase, e: Episode, marks: Marks): EpisodeState {
    if p.overrun then Invalid
    else if !p.ended then Recording
    else if Completed(e, marks) then Finalized
    else PostRoll
  }

  ghost predicate InPhase(p: Phase, t: Trace) {
    && t.manager.revision == p.revision && (t.manager.active.Some? <==> p.open)
    && (t.manager.active.Some? ==>
          var e := t.manager.active.value;
          && e.revision == p.revision && e.state == StateOf(p, e, t.marks)
          && (e.state == PostRoll ==> t.marks.endedAt + t.marks.postRoll == |e.steps| + e.postRollRemaining))
  }

  lemma StepKeepsPhase(cfg: Config, p: Phase, t: Trace, event: Event)
    requires InPhase(p, t)
    ensures InPhase(After(p, event, Answer(cfg, t.manager, event)), TraceStep(cfg, t, event))
  {
    match event
    case Ingest(step) =>
      if IngestStep(cfg, t.manager, step).0.Ok? && t.manager.active.Some? {
        RecordKeepsPhase(p, t.manager.active.value, t.marks, step);
      }
    case Begin =>
    case End(postRollSteps) =>
    case Take =>
    case UpdateSchema(revision) =>
  }

  lemma RecordKeepsPhase(p: Phase, e: Episode, marks: Marks, step: Step)
    requires e.state == StateOf(p, e, marks)
    requires e.state == PostRoll ==> marks.endedAt + marks.postRoll == |e.steps| + e.postRollRemaining
    ensures var next := Recorded(e, step);
            && next.revision == e.revision && next.state == StateOf(p, next, marks)
            && (next.state == PostRoll ==> marks.endedAt + marks.postRoll == |next.steps| + next.postRollRemaining)
  {
  }

  /**
   * On every run the manager's state follows from the answers: an episode is active from a
   * begin to the take after it; it is invalid once a step was refused for capacity, records
   * until it is ended, and is final once its post-roll is recorded; the revision is that of
   * the latest update, and every active episode has it.
   */
  lemma {:induction false} PhaseOnEveryRun(cfg: Config, revision: nat, events: seq<Event>)
    ensures InPhase(PhaseOf(cfg, revision, events), Run(cfg, revision, events))
  {
    hide InPhase, After, Answer, TraceStep;
    if events == [] {
      AtStart(revision);
    } else {
      var n := |events| - 1;
      PhaseOnEveryRun(cfg, revision, events[..n]);
      StepKeepsPhase(cfg, PhaseOf(cfg, revision, events[..n]), Run(cfg, revision, events[..n]), events[n]);
    }
  }

  lemma AtStart(revision: nat)
    ensures InPhase(Phase(false, false, false, revision), Start(revision))
  {
  }

  /** A step that the session, the revision and the time allow, whatever the capacity. */
  ghost predicate Welcome(cfg: Config, p: Phase, t: Trace, step: Step) {
    && step.sessionId == cfg.sessionId && step.revision == p.revision && step.captureTime != 0
    && (|t.admitted| in t.clears || t.admitted == [] || t.admitted[|t.admitted| - 1].captureTime < step.captureTime)
  }

  /** What each event must be answered, from the phase and the admitted steps. */
  ghost predicate AnsweredRight(cfg: Config, p: Phase, t: Trace, event: Event, answer: Result<(), SessionError>) {
    var recorded := |t.admitted| - t.marks.from;
    match event
    case Ingest(step) =>
      answer == (if !Welcome(cfg, p, t, step) then Err(InvalidStep)
                 else if p.open && recorded == cfg.episodeCapacity then Err(Capacity)
                 else Ok(()))
    case Begin => answer == (if p.open then Err(WrongState) else Ok(()))
    case End(_) => answer == (if p.open && !p.ended && !p.overrun then Ok(()) else Err(WrongState))
    case Take =>
      answer == (if p.open && (p.overrun || (p.ended && t.marks.endedAt + t.marks.postRoll <= recorded)) then Ok(())
                 else Err(WrongState))
    case UpdateSchema(revision) =>
      answer == (if p.open then Err(SchemaFrozen) else if revision == 0 then Err(InvalidStep) else Ok(()))
  }

  /** On every run every call is answered as the phase demands. */
  lemma AnswersOnEveryRun(cfg: Config, revision: nat, events: seq<Event>, event: Event)
    requires cfg.preRollCapacity > 0
    ensures var t := Run(cfg, revision, events);
            AnsweredRight(cfg, PhaseOf(cfg, revision, events), t, event, Answer(cfg, t.manager, event))
  {
    hide Run, PhaseOf, InPhase, AnsweredRight, Answer;
    var t, p := Run(cfg, revision, events), PhaseOf(cfg, revision, events);
    PhaseOnEveryRun(cfg, revision, events);
    StandingOnEveryRun(cfg, revision, events);
    match event
    case Ingest(step) => IngestAnswered(cfg, p, t, step);
    case _ => CallAnswered(cfg, p, t, event);
  }

  /** What the answers need of the run: how long the active episode is, and what the last step is. */
  ghost predicate Stands(t: Trace) {
    && (t.manager.active.Some? ==> t.marks.from + |t.manager.active.value.steps| == |t.admitted|)
    && (LastStep(t.manager).None? <==> t.admitted == [] || |t.admitted| in t.clears)
    && (LastStep(t.manager).Some? ==> t.admitted != [] && LastStep(t.manager).value == t.admitted[|t.admitted| - 1])
  }

  lemma StandingOnEveryRun(cfg: Config, revision: nat, events: seq<Event>)
    requires cfg.preRollCapacity > 0
    ensures Stands(Run(cfg, revision, events))
  {
    RunKeeps(cfg, revision, events);
    ClearsOnEveryRun(cfg, revision, events);
    hide Run, TakenOk, EpisodeOk, LastStep, IsSlice, Uniform;
  }

  lemma IngestAnswered(cfg: Config, p: Phase, t: Trace, step: Step)
    requires InPhase(p, t) && Stands(t)
    ensures AnsweredRight(cfg, p, t, Ingest(step), Answer(cfg, t.manager, Ingest(step)))
  {
    hide LastStep, Recorded;
    assert StepAllowed(cfg, t.manager, step) <==> Welcome(cfg, p, t, step);
  }

  lemma CallAnswered(cfg: Config, p: Phase, t: Trace, event: Event)
    requires InPhase(p, t) && Stands(t) && !event.Ingest?
    ensures AnsweredRight(cfg, p, t, event, Answer(cfg, t.manager, event))
  {
    hide LastStep;
  }

  /** On every run the open episode is made of every step admitted since it opened, and of its pre-roll before them. */
  lemma OpenEpisodeOnEveryRun(cfg: Config, revision: nat, events: seq<Event>)
    requires cfg.preRollCapacity > 0
    ensures var t, p := Run(cfg, revision, events), PhaseOf(cfg, revision, events);
            p.open ==>
              && t.manager.active.Some? && t.marks.from <= |t.admitted|
              && t.manager.active.value == Episode(
                   cfg.sessionId, p.revision, StateOf(p, t.manager.active.value, t.marks), t.admitted[t.marks.from..],
                   t.manager.active.value.postRollRemaining)
  {
    PhaseOnEveryRun(cfg, revision, events);
    RunKeeps(cfg, revision, events);
    hide Run, PhaseOf, TakenOk, Uniform;
  }
}
