/**
 * The manifest on the air: the Edge's repeating schedule of
 * `crates/edge-core/src/context.rs` and the Receiver's per-session reassembly
 * of `crates/receiver/src/runtime.rs`.
 */
module LateJoin {
  import opened Common
  import opened Manifest

  // ---- The sender ----

  datatype Schedule = Schedule(chunks: seq<Chunk>, next: nat, repeatEvery: nat, lastStarted: Option<nat>)

  ghost predicate ValidSchedule(s: Schedule) {
    s.next < |s.chunks| && s.repeatEvery > 0
  }

  function NewSchedule(chunks: seq<Chunk>, repeatEvery: nat): Schedule {
    Schedule(chunks, 0, repeatEvery, None)
  }

  predicate Due(s: Schedule, frame: nat) {
    s.lastStarted.None? || SaturatingSub(frame, s.lastStarted.value) >= s.repeatEvery
  }

  /** Whether the access unit carries a chunk, and whether it starts a cycle. */
  predicate Emits(s: Schedule, frame: nat) { s.next != 0 || Due(s, frame) }

  predicate StartsCycle(s: Schedule, frame: nat) { s.next == 0 && Due(s, frame) }

  function Advance(s: Schedule, frame: nat): (next: Schedule)
    requires ValidSchedule(s)
    ensures ValidSchedule(next) && next.chunks == s.chunks && next.repeatEvery == s.repeatEvery
  {
    if !Emits(s, frame) then s
    else s.(next := if s.next + 1 == |s.chunks| then 0 else s.next + 1,
            lastStarted := if s.next == 0 then Some(frame) else s.lastStarted)
  }

  /** The chunks sent for a run of access units, and the frames at which cycles start. */
  function Emissions(s: Schedule, frames: seq<nat>): seq<Chunk>
    requires ValidSchedule(s)
    decreases |frames|
  {
    if frames == [] then []
    else (if Emits(s, frames[0]) then [s.chunks[s.next]] else []) + Emissions(Advance(s, frames[0]), frames[1..])
  }

  function CycleStarts(s: Schedule, frames: seq<nat>): seq<nat>
    requires ValidSchedule(s)
    decreases |frames|
  {
    if frames == [] then []
    else (if StartsCycle(s, frames[0]) then [frames[0]] else []) + CycleStarts(Advance(s, frames[0]), frames[1..])
  }

  class ManifestSchedule {
    const chunks: seq<Chunk>
    const repeatEvery: nat
    var next: nat
    var lastStarted: Option<nat>

    ghost function State(): Schedule
      reads this
    {
      Schedule(chunks, next, repeatEvery, lastStarted)
    }

    constructor (chunks: seq<Chunk>, repeatEvery: nat)
      requires chunks != [] && repeatEvery > 0
      ensures State() == NewSchedule(chunks, repeatEvery) && ValidSchedule(State())
    {
      this.chunks, this.repeatEvery, next, lastStarted := chunks, repeatEvery, 0, None;
    }

    method ForAccessUnit(frame: nat) returns (chunk: Option<Chunk>)
      requires ValidSchedule(State())
      modifies this
      ensures State() == Advance(old(State()), frame)
      ensures chunk == if Emits(old(State()), frame) then Some(chunks[old(next)]) else None
    {
      var due := lastStarted.None? || SaturatingSub(frame, lastStarted.value) >= repeatEvery;
      if next == 0 && !due {
        return None;
      }
      if next == 0 {
        lastStarted := Some(frame);
      }
      chunk := Some(chunks[next]);
      next := next + 1;
      if next == |chunks| {
        next := 0;
      }
    }
  }

  lemma ModUnique(x: int, n: int, q: int, r: int)
    requires n > 0 && x == n * q + r && 0 <= r < n
    ensures x % n == r
  {
    assert n * (q - x / n) == x % n - r;
    MulSmall(n, q - x / n);
  }

  lemma MulSmall(n: int, d: int)
    requires n > 0 && -n < n * d < n
    ensures d == 0
  {
  }

  lemma ModAdd(a: nat, n: nat, k: nat)
    requires k < n
    ensures (a + k) % n == if a % n + k < n then a % n + k else a % n + k - n
  {
    var q := a / n;
    assert a == n * q + a % n;
    if a % n + k < n {
      ModUnique(a + k, n, q, a % n + k);
    } else {
      assert a + k == n * (q + 1) + (a % n + k - n);
      ModUnique(a + k, n, q + 1, a % n + k - n);
    }
  }

  /** The k-th chunk a schedule sends is chunk k mod n, whatever the frame numbers. */
  lemma {:induction false} EmissionsCycle(s: Schedule, frames: seq<nat>, k: nat)
    requires ValidSchedule(s) && k < |Emissions(s, frames)|
    ensures Emissions(s, frames)[k] == s.chunks[(s.next + k) % |s.chunks|]
    decreases |frames|
  {
    var n, tail := |s.chunks|, Emissions(Advance(s, frames[0]), frames[1..]);
    if !Emits(s, frames[0]) {
      EmissionsCycle(Advance(s, frames[0]), frames[1..], k);
    } else if k == 0 {
      ModUnique(s.next, n, 0, s.next);
    } else {
      EmissionsCycle(Advance(s, frames[0]), frames[1..], k - 1);
      if s.next + 1 == n {
        ModWrap(k - 1, n);
        assert s.next + k == k - 1 + n;
      }
    }
  }

  lemma ModWrap(x: nat, n: nat)
    requires n > 0
    ensures (x + n) % n == x % n
  {
    assert x + n == n * (x / n + 1) + x % n;
    ModUnique(x + n, n, x / n + 1, x % n);
  }

  /** Each number is at least `gap` past the one before it. */
  ghost predicate Spaced(starts: seq<nat>, gap: nat) {
    forall k :: 1 <= k < |starts| ==> starts[k - 1] + gap <= starts[k]
  }

  lemma SpacedCons(first: nat, rest: seq<nat>, gap: nat)
    requires Spaced(rest, gap) && (rest != [] ==> first + gap <= rest[0])
    ensures Spaced([first] + rest, gap)
  {
    var all := [first] + rest;
    forall k | 1 <= k < |all|
      ensures all[k - 1] + gap <= all[k]
    {
      if k > 1 {
        assert rest[k - 2] + gap <= rest[k - 1];
      }
    }
  }

  lemma NothingSpaced(gap: nat)
    ensures Spaced([], gap)
  {
  }

  /** Two cycles never start closer together than the configured number of frames. */
  lemma {:induction false} CyclesApart(s: Schedule, frames: seq<nat>)
    requires ValidSchedule(s)
    ensures var starts := CycleStarts(s, frames);
            && (starts != [] && s.lastStarted.Some? ==> s.lastStarted.value + s.repeatEvery <= starts[0])
            && Spaced(starts, s.repeatEvery)
    decreases |frames|
  {
    hide Spaced;
    if frames == [] {
      NothingSpaced(s.repeatEvery);
    } else {
      var rest := CycleStarts(Advance(s, frames[0]), frames[1..]);
      CyclesApart(Advance(s, frames[0]), frames[1..]);
      var s' := Advance(s, frames[0]);
      assert s'.repeatEvery == s.repeatEvery;
      if StartsCycle(s, frames[0]) {
        assert s'.lastStarted == Some(frames[0]);
        SpacedCons(frames[0], rest, s.repeatEvery);
      } else {
        assert [] + rest == rest && s'.lastStarted == s.lastStarted;
      }
    }
  }

  function After(s: Schedule, frames: seq<nat>): (at: Schedule)
    requires ValidSchedule(s)
    ensures ValidSchedule(at) && at.chunks == s.chunks && at.repeatEvery == s.repeatEvery
    decreases |frames|
  {
    if frames == [] then s else After(Advance(s, frames[0]), frames[1..])
  }

  lemma {:induction false} OneMoreUnit(s: Schedule, frames: seq<nat>, frame: nat)
    requires ValidSchedule(s)
    ensures var at := After(s, frames);
            && After(s, frames + [frame]) == Advance(at, frame)
            && Emissions(s, frames + [frame]) ==
               Emissions(s, frames) + (if Emits(at, frame) then [at.chunks[at.next]] else [])
            && CycleStarts(s, frames + [frame]) == CycleStarts(s, frames) + (if StartsCycle(at, frame) then [frame] else [])
    decreases |frames|
  {
    hide Emits, StartsCycle, Advance;
    var all := frames + [frame];
    if frames == [] {
      assert all[1..] == [] && all[0] == frame;
    } else {
      assert all[1..] == frames[1..] + [frame] && all[0] == frames[0];
      OneMoreUnit(Advance(s, frames[0]), frames[1..], frame);
    }
  }

  /** Where a fresh schedule stands: in the cycle by what it sent, and at its latest start. */
  lemma {:induction false} StandsAt(chunks: seq<Chunk>, repeatEvery: nat, frames: seq<nat>)
    requires chunks != [] && repeatEvery > 0
    ensures var s := NewSchedule(chunks, repeatEvery);
            var starts := CycleStarts(s, frames);
            && After(s, frames).next == |Emissions(s, frames)| % |chunks|
            && After(s, frames).lastStarted == if starts == [] then None else Some(starts[|starts| - 1])
    decreases |frames|
  {
    if frames == [] {
      ModUnique(0, |chunks|, 0, 0);
    } else {
      var s, earlier, frame := NewSchedule(chunks, repeatEvery), frames[..|frames| - 1], frames[|frames| - 1];
      assert frames == earlier + [frame];
      StandsAt(chunks, repeatEvery, earlier);
      OneMoreUnit(s, earlier, frame);
      NextInCycle(|Emissions(s, earlier)|, |chunks|);
    }
  }

  lemma NextInCycle(sent: nat, n: nat)
    requires n > 0
    ensures (sent + 1) % n == if sent % n + 1 == n then 0 else sent % n + 1
  {
    var q := sent / n;
    if sent % n + 1 == n {
      ModUnique(sent + 1, n, q + 1, 0);
    } else {
      ModUnique(sent + 1, n, q, sent % n + 1);
    }
  }

  /**
   * What the next access unit carries, from what was sent alone: the next chunk in the
   * middle of a cycle, chunk 0 when a cycle is due, and nothing otherwise. A cycle is
   * due if none has started, or `repeatEvery` frames after the latest start.
   */
  lemma SendsExactlyWhen(chunks: seq<Chunk>, repeatEvery: nat, frames: seq<nat>, frame: nat)
    requires chunks != [] && repeatEvery > 0
    ensures var s := NewSchedule(chunks, repeatEvery);
            var sent, starts := Emissions(s, frames), CycleStarts(s, frames);
            var due := starts == [] || starts[|starts| - 1] + repeatEvery <= frame;
            if |sent| % |chunks| != 0 then
              && Emissions(s, frames + [frame]) == sent + [chunks[|sent| % |chunks|]]
              && CycleStarts(s, frames + [frame]) == starts
            else if due then
              && Emissions(s, frames + [frame]) == sent + [chunks[0]]
              && CycleStarts(s, frames + [frame]) == starts + [frame]
            else
              && Emissions(s, frames + [frame]) == sent
              && CycleStarts(s, frames + [frame]) == starts
  {
    hide Emissions, CycleStarts, After;
    StandsAt(chunks, repeatEvery, frames);
    OneMoreUnit(NewSchedule(chunks, repeatEvery), frames, frame);
  }

  // ---- The receiver ----

  datatype RuntimeError = ManifestChunk | Reassembly(error: ManifestError) | ManifestRefused

  /** The part of a session that reassembly reads and writes. */
  datatype Session = Session(reassemblyRevision: nat, reassembler: Option<Reassembler>, manifestRevision: Option<nat>)

  ghost predicate ValidSession(s: Session) {
    s.reassembler.Some? ==> Valid(s.reassembler.value)
  }

  type Processed = (Result<Option<seq<Byte>>, RuntimeError>, Session)

  function Lift(result: Result<Option<seq<Byte>>, ManifestError>): Result<Option<seq<Byte>>, RuntimeError> {
    if result.Err? then Err(Reassembly(result.error)) else Ok(result.value)
  }

  lemma NewIsValid(first: Chunk, now: nat, timeout: nat, lib: Library)
    requires NewReassembler(first, now, timeout, lib).Ok?
    ensures Valid(NewReassembler(first, now, timeout, lib).value)
  {
    EmptyIsValid(first.header, now, timeout);
    InsertKeepsValid(Empty(first.header, now, timeout), first, now, lib);
  }

  /** A session that starts on a chunk inserts it twice, because `new` drops the first answer. */
  function StartOn(s: Session, c: Chunk, now: nat, timeout: nat, lib: Library): (r: Processed)
    requires ValidSession(s)
    ensures ValidSession(r.1)
  {
    var marked := s.(reassemblyRevision := c.header.revision);
    match NewReassembler(c, now, timeout, lib)
    case Err(error) => (Err(Reassembly(error)), marked)
    case Ok(started) =>
      NewIsValid(c, now, timeout, lib);
      InsertKeepsValid(started, c, now, lib);
      var (result, next) := InsertStep(started, c, now, lib);
      (Lift(result), if result.Err? then marked else marked.(reassembler := Some(next)))
  }

  function ProcessChunk(s: Session, sessionId: seq<Byte>, c: Chunk, now: nat, timeout: nat, lib: Library): (r: Processed)
    requires ValidSession(s)
    ensures ValidSession(r.1)
  {
    if c.header.sessionId != sessionId then (Err(ManifestChunk), s)
    else if s.manifestRevision.Some? && c.header.revision <= s.manifestRevision.value then (Ok(None), s)
    else if s.reassembler.None? || s.reassemblyRevision != c.header.revision then StartOn(s, c, now, timeout, lib)
    else
      InsertKeepsValid(s.reassembler.value, c, now, lib);
      var (result, next) := InsertStep(s.reassembler.value, c, now, lib);
      (Lift(result), s.(reassembler := Some(next)))
  }

  function ProcessAll(s: Session, sessionId: seq<Byte>, arrivals: seq<Arrival>, timeout: nat, lib: Library)
    : (answers: seq<Result<Option<seq<Byte>>, RuntimeError>>)
    requires ValidSession(s)
    ensures |answers| == |arrivals|
    decreases |arrivals|
  {
    if arrivals == [] then []
    else
      var (first, next) := ProcessChunk(s, sessionId, arrivals[0].chunk, arrivals[0].now, timeout, lib);
      [first] + ProcessAll(next, sessionId, arrivals[1..], timeout, lib)
  }

  /**
   * A chunk, its time, and what the validation of the completed bytes would say then:
   * the accepted manifest's revision, or nothing.
   */
  datatype Delivery = Delivery(chunk: Chunk, now: nat, verdict: Option<nat>)

  type Answer = Result<Option<seq<Byte>>, RuntimeError>

  /** A chunk's whole handling: completed bytes are validated, and an accepted manifest is adopted. */
  function HandleChunk(s: Session, sessionId: seq<Byte>, d: Delivery, timeout: nat, lib: Library): (r: Processed)
    requires ValidSession(s)
    ensures ValidSession(r.1)
  {
    var (completed, next) := ProcessChunk(s, sessionId, d.chunk, d.now, timeout, lib);
    if completed.Err? || completed.value.None? then (completed, next)
    else if d.verdict.None? then (Err(ManifestRefused), next)
    else (completed, next.(reassembler := None, manifestRevision := d.verdict))
  }

  function HandleAll(s: Session, sessionId: seq<Byte>, deliveries: seq<Delivery>, timeout: nat, lib: Library)
    : (r: (seq<Answer>, Session))
    requires ValidSession(s)
    ensures |r.0| == |deliveries| && ValidSession(r.1)
    decreases |deliveries|
  {
    if deliveries == [] then ([], s)
    else
      var (first, next) := HandleChunk(s, sessionId, deliveries[0], timeout, lib);
      var (rest, last) := HandleAll(next, sessionId, deliveries[1..], timeout, lib);
      ([first] + rest, last)
  }

  class SessionRuntime {
    var reassemblyRevision: nat
    var reassembler: ManifestReassembler?
    var manifestRevision: Option<nat>

    ghost function State(): Session
      reads this, reassembler
    {
      Session(reassemblyRevision, if reassembler == null then None else Some(reassembler.State()), manifestRevision)
    }

    /** The locked part of `process_manifest_chunk`: up to the completed bytes. */
    method ProcessManifestChunk(sessionId: seq<Byte>, chunk: Chunk, now: nat, timeout: nat, lib: Library)
      returns (completed: Result<Option<seq<Byte>>, RuntimeError>)
      requires ValidSession(State())
      modifies this, reassembler
      ensures (completed, State()) == ProcessChunk(old(State()), sessionId, chunk, now, timeout, lib)
    {
      if chunk.header.sessionId != sessionId {
        return Err(ManifestChunk);
      }
      if manifestRevision.Some? && chunk.header.revision <= manifestRevision.value {
        return Ok(None);
      }
      if reassembler == null || reassemblyRevision != chunk.header.revision {
        reassemblyRevision := chunk.header.revision;
        var started := ManifestReassembler.New(chunk, now, timeout, lib);
        if started.Err? {
          return Err(Reassembly(started.error));
        }
        var inserted := started.value.Insert(chunk, now, lib);
        if inserted.Err? {
          return Err(Reassembly(inserted.error));
        }
        reassembler := started.value;
        return Ok(inserted.value);
      }
      var inserted := reassembler.Insert(chunk, now, lib);
      return Lift(inserted);
    }

    /** The whole of it, with the verdict on the bytes should they be complete. */
    method HandleManifestChunk(sessionId: seq<Byte>, d: Delivery, timeout: nat, lib: Library) returns (answer: Answer)
      requires ValidSession(State())
      modifies this, reassembler
      ensures (answer, State()) == HandleChunk(old(State()), sessionId, d, timeout, lib)
    {
      var completed := ProcessManifestChunk(sessionId, d.chunk, d.now, timeout, lib);
      if completed.Err? || completed.value.None? {
        return completed;
      }
      if d.verdict.None? {
        return Err(ManifestRefused);
      }
      manifestRevision := d.verdict;
      reassembler := null;
      return completed;
    }
  }

  /** The session has no manifest of this revision yet and no reassembler recorded for it. */
  ghost predicate Ready(s: Session, revision: nat) {
    && ValidSession(s)
    && (s.manifestRevision.Some? ==> s.manifestRevision.value < revision)
    && (s.reassembler.None? || s.reassemblyRevision != revision)
  }

  /** Once started on a revision, the session's answers are the reassembler's. */
  lemma {:induction false} ProcessIsInsert(
      s: Session, sessionId: seq<Byte>, revision: nat, arrivals: seq<Arrival>, timeout: nat, lib: Library)
    requires ValidSession(s) && s.reassembler.Some? && s.reassemblyRevision == revision
    requires s.manifestRevision.Some? ==> s.manifestRevision.value < revision
    requires forall j :: 0 <= j < |arrivals| ==>
               arrivals[j].chunk.header.sessionId == sessionId && arrivals[j].chunk.header.revision == revision
    ensures var answers := ProcessAll(s, sessionId, arrivals, timeout, lib);
            var inserted := InsertAll(s.reassembler.value, arrivals, lib).0;
            |answers| == |inserted| == |arrivals| && forall j :: 0 <= j < |answers| ==> answers[j] == Lift(inserted[j])
    decreases |arrivals|
  {
    if arrivals != [] {
      var next := ProcessChunk(s, sessionId, arrivals[0].chunk, arrivals[0].now, timeout, lib).1;
      ProcessIsInsert(next, sessionId, revision, arrivals[1..], timeout, lib);
    }
  }

  /** Consecutive emissions from position `from`, one per arrival time. */
  ghost predicate Window(chunks: seq<Chunk>, from: nat, arrivals: seq<Arrival>, timeout: nat) {
    && chunks != [] && |arrivals| == |chunks|
    && (forall j :: 0 <= j < |arrivals| ==> arrivals[j].chunk == chunks[(from + j) % |chunks|])
    && (forall j :: 0 <= j < |arrivals| ==> SaturatingSub(arrivals[j].now, arrivals[0].now) <= timeout)
  }

  /** Every index is brought by some arrival of a window. */
  lemma WindowBrings(chunks: seq<Chunk>, from: nat, i: nat) returns (k: nat)
    requires i < |chunks|
    ensures k < |chunks| && (from + k) % |chunks| == i
  {
    var n := |chunks|;
    k := if i >= from % n then i - from % n else i - from % n + n;
    ModAdd(from, n, k);
  }

  /** The index of the last arrival of a window is brought by no earlier one. */
  lemma WindowLastIsNew(from: nat, n: nat, k: nat)
    requires k < n - 1
    ensures (from + k) % n != (from + (n - 1)) % n
  {
    ModAdd(from, n, k);
    ModAdd(from, n, n - 1);
  }

  /** The last arrival of a window brings the last missing index. */
  lemma WindowCompletes(
      r: Reassembler, chunks: seq<Chunk>, from: nat, arrivals: seq<Arrival>, timeout: nat,
      manifest: seq<Byte>, lib: Library)
    requires ChunksOf(chunks, manifest, lib) && Window(chunks, from, arrivals, timeout)
    requires r.startedAt == arrivals[0].now && r.timeout == timeout
    ensures Complete(chunks, SeenAll(r, chunks, {(from + 0) % |chunks|}, arrivals[1..]))
  {
    ChunkShape(chunks, manifest, lib);
    var n, tail, first := |chunks|, arrivals[1..], (from + 0) % |chunks|;
    forall i: nat | i < n
      ensures i in SeenAll(r, chunks, {first}, tail)
    {
      SeenAllIs(r, chunks, {first}, tail, i);
      var k := WindowBrings(chunks, from, i);
      if k > 0 {
        assert arrivals[k].chunk == chunks[i] && tail[k - 1] == arrivals[k];
      }
    }
  }

  /** Before the last arrival of a window an index is missing. */
  lemma WindowIncomplete(
      r: Reassembler, chunks: seq<Chunk>, from: nat, arrivals: seq<Arrival>, timeout: nat, j: nat,
      manifest: seq<Byte>, lib: Library)
    requires ChunksOf(chunks, manifest, lib) && Window(chunks, from, arrivals, timeout) && 1 <= j < |arrivals| - 1
    ensures !Complete(chunks, SeenAll(r, chunks, {(from + 0) % |chunks|}, arrivals[1..][..j]))
  {
    ChunkShape(chunks, manifest, lib);
    var n, tail, first := |chunks|, arrivals[1..][..j], (from + 0) % |chunks|;
    var missing := (from + (n - 1)) % n;
    WindowLastIsNew(from, n, 0);
    forall k | 0 <= k < j
      ensures tail[k].chunk.index != missing
    {
      WindowLastIsNew(from, n, k + 1);
      assert tail[k] == arrivals[k + 1];
    }
    SeenAllIs(r, chunks, {first}, tail, missing);
    assert missing !in SeenAll(r, chunks, {first}, tail);
  }

  /** The first emission a ready session sees. */
  lemma FirstOfWindow(s: Session, chunks: seq<Chunk>, i: nat, now: nat, timeout: nat, manifest: seq<Byte>, lib: Library)
    requires ChunksOf(chunks, manifest, lib) && lib.Lawful() && i < |chunks| && Ready(s, chunks[0].header.revision)
    ensures var (result, next) := ProcessChunk(s, chunks[0].header.sessionId, chunks[i], now, timeout, lib);
            && result == Ok(if |chunks| == 1 then Some(manifest) else None)
            && next.reassembler.Some? && Holds(next.reassembler.value, chunks, {i})
            && next.reassembler.value.startedAt == now && next.reassembler.value.timeout == timeout
            && next.reassemblyRevision == chunks[0].header.revision && next.manifestRevision == s.manifestRevision
  {
    ChunkShape(chunks, manifest, lib);
    StartedHolds(chunks, i, now, timeout, manifest, lib);
    var started := NewReassembler(chunks[i], now, timeout, lib).value;
    InsertGenuine(started, chunks, {i}, Arrival(chunks[i], now), manifest, lib);
    assert {i} + {i} == {i};
    if |chunks| > 1 {
      var other: nat := if i == 0 then 1 else 0;
      var held := {i};
      assert other < |chunks| && other !in held;
      assert !Complete(chunks, held);
    }
  }

  /** The emissions after the first: nothing until the last, and then the manifest. */
  lemma RestOfWindow(
      s: Session, chunks: seq<Chunk>, from: nat, arrivals: seq<Arrival>, timeout: nat, manifest: seq<Byte>,
      lib: Library, j: nat)
    requires ChunksOf(chunks, manifest, lib) && lib.Lawful() && Window(chunks, from, arrivals, timeout)
    requires ValidSession(s) && s.reassembler.Some? && s.reassemblyRevision == chunks[0].header.revision
    requires s.manifestRevision.Some? ==> s.manifestRevision.value < chunks[0].header.revision
    requires Holds(s.reassembler.value, chunks, {(from + 0) % |chunks|})
    requires s.reassembler.value.startedAt == arrivals[0].now && s.reassembler.value.timeout == timeout
    requires 1 <= j < |chunks|
    ensures var answers := ProcessAll(s, chunks[0].header.sessionId, arrivals[1..], timeout, lib);
            && |answers| == |chunks| - 1
            && answers[j - 1] == Ok(if j == |chunks| - 1 then Some(manifest) else None)
  {
    ChunkShape(chunks, manifest, lib);
    var r, tail, first := s.reassembler.value, arrivals[1..], (from + 0) % |chunks|;
    forall k | 0 <= k < |tail|
      ensures tail[k].chunk in chunks && InTime(r, tail[k].now)
    {
      assert tail[k] == arrivals[k + 1];
    }
    ProcessIsInsert(s, chunks[0].header.sessionId, chunks[0].header.revision, tail, timeout, lib);
    ReassemblyAnswers(r, chunks, {first}, tail, manifest, lib);
    assert Answers(InsertAll(r, tail, lib).0[j - 1], r, chunks, SeenAll(r, chunks, {first}, tail[..j]), tail[j - 1], manifest);
    if j == |chunks| - 1 {
      assert tail[..j] == tail;
      WindowCompletes(r, chunks, from, arrivals, timeout, manifest, lib);
    } else {
      WindowIncomplete(r, chunks, from, arrivals, timeout, j, manifest, lib);
    }
  }

  /**
   * Late join: a ready session that sees any n consecutive emissions within the
   * timeout, from anywhere in a cycle, gets the exact manifest bytes on the n-th
   * and nothing before.
   */
  lemma LateJoinCompletes(
      s: Session, chunks: seq<Chunk>, from: nat, arrivals: seq<Arrival>, timeout: nat, manifest: seq<Byte>,
      lib: Library, j: nat)
    requires ChunksOf(chunks, manifest, lib) && lib.Lawful()
    requires chunks != [] && Ready(s, chunks[0].header.revision) && Window(chunks, from, arrivals, timeout)
    requires j < |chunks|
    ensures ProcessAll(s, chunks[0].header.sessionId, arrivals, timeout, lib)[j] ==
            Ok(if j == |chunks| - 1 then Some(manifest) else None)
  {
    var sessionId := chunks[0].header.sessionId;
    FirstOfWindow(s, chunks, (from + 0) % |chunks|, arrivals[0].now, timeout, manifest, lib);
    assert arrivals[0].chunk == chunks[(from + 0) % |chunks|];
    if j > 0 {
      var next := ProcessChunk(s, sessionId, arrivals[0].chunk, arrivals[0].now, timeout, lib).1;
      RestOfWindow(next, chunks, from, arrivals, timeout, manifest, lib, j);
      ProcessAllTail(s, sessionId, arrivals, timeout, lib, j);
    }
  }

  lemma ProcessAllTail(s: Session, sessionId: seq<Byte>, arrivals: seq<Arrival>, timeout: nat, lib: Library, j: nat)
    requires ValidSession(s) && 0 < j < |arrivals|
    ensures var next := ProcessChunk(s, sessionId, arrivals[0].chunk, arrivals[0].now, timeout, lib).1;
            ProcessAll(s, sessionId, arrivals, timeout, lib)[j]
              == ProcessAll(next, sessionId, arrivals[1..], timeout, lib)[j - 1]
  {
  }

  /** The arrivals of the emissions from position `from`. */
  function Heard(sent: seq<Chunk>, from: nat, times: seq<nat>): seq<Arrival>
    requires from + |times| <= |sent|
  {
    seq(|times|, j requires 0 <= j < |times| => Arrival(sent[from + j], times[j]))
  }

  /** End to end: any n consecutive emissions of a schedule, whatever the frame numbers. */
  lemma ScheduleReachesReceiver(
      s: Session, chunks: seq<Chunk>, repeatEvery: nat, frames: seq<nat>, from: nat, times: seq<nat>, timeout: nat,
      manifest: seq<Byte>, lib: Library, j: nat)
    requires ChunksOf(chunks, manifest, lib) && lib.Lawful()
    requires chunks != [] && repeatEvery > 0 && Ready(s, chunks[0].header.revision)
    requires from + |chunks| <= |Emissions(NewSchedule(chunks, repeatEvery), frames)|
    requires |times| == |chunks| && forall k :: 0 <= k < |times| ==> SaturatingSub(times[k], times[0]) <= timeout
    requires j < |chunks|
    ensures var sent := Emissions(NewSchedule(chunks, repeatEvery), frames);
            ProcessAll(s, chunks[0].header.sessionId, Heard(sent, from, times), timeout, lib)[j]
              == Ok(if j == |chunks| - 1 then Some(manifest) else None)
  {
    var arrivals := Heard(Emissions(NewSchedule(chunks, repeatEvery), frames), from, times);
    forall k | 0 <= k < |arrivals|
      ensures arrivals[k].chunk == chunks[(from + k) % |chunks|]
    {
      EmissionsCycle(NewSchedule(chunks, repeatEvery), frames, from + k);
    }
    LateJoinCompletes(s, chunks, from, arrivals, timeout, manifest, lib, j);
  }

  /**
   * A chunk of another session, or of a revision no newer than the adopted one, leaves no
   * trace: whatever comes after it ends the same and is answered the same.
   */
  lemma IgnoredLeavesNoTrace(
      s: Session, sessionId: seq<Byte>, d: Delivery, later: seq<Delivery>, timeout: nat, lib: Library)
    requires ValidSession(s)
    requires d.chunk.header.sessionId != sessionId || Superseded(s, d.chunk.header.revision)
    ensures var with, without := HandleAll(s, sessionId, [d] + later, timeout, lib), HandleAll(s, sessionId, later, timeout, lib);
            && with.1 == without.1 && with.0[1..] == without.0
            && with.0[0] == if d.chunk.header.sessionId != sessionId then Err(ManifestChunk) else Ok(None)
  {
    assert ([d] + later)[1..] == later;
  }

  // ---- Adoption ----

  function Arrivals(deliveries: seq<Delivery>): (arrivals: seq<Arrival>)
    ensures |arrivals| == |deliveries|
    ensures forall j :: 0 <= j < |arrivals| ==> arrivals[j] == Arrival(deliveries[j].chunk, deliveries[j].now)
  {
    seq(|deliveries|, j requires 0 <= j < |deliveries| => Arrival(deliveries[j].chunk, deliveries[j].now))
  }

  /** Until bytes are complete, handling chunks is processing them. */
  lemma {:induction false} HandleFollows(
      s: Session, sessionId: seq<Byte>, deliveries: seq<Delivery>, timeout: nat, lib: Library)
    requires ValidSession(s) && deliveries != []
    requires forall j :: 0 <= j < |deliveries| - 1 ==>
               ProcessAll(s, sessionId, Arrivals(deliveries), timeout, lib)[j] == Ok(None)
    ensures var answers := ProcessAll(s, sessionId, Arrivals(deliveries), timeout, lib);
            var (handled, last) := HandleAll(s, sessionId, deliveries, timeout, lib);
            var n := |deliveries| - 1;
            && (forall j :: 0 <= j < n ==> handled[j] == Ok(None))
            && (answers[n].Ok? && answers[n].value.Some? ==>
                  if deliveries[n].verdict.None? then handled[n] == Err(ManifestRefused)
                  else handled[n] == answers[n] && last.manifestRevision == deliveries[n].verdict && last.reassembler.None?)
    decreases |deliveries|
  {
    var arrivals := Arrivals(deliveries);
    var next := ProcessChunk(s, sessionId, deliveries[0].chunk, deliveries[0].now, timeout, lib).1;
    if |deliveries| > 1 {
      var tail := deliveries[1..];
      assert Arrivals(tail) == arrivals[1..];
      assert ProcessAll(s, sessionId, arrivals, timeout, lib)[0] == Ok(None);
      forall j | 0 <= j < |tail|
        ensures ProcessAll(next, sessionId, Arrivals(tail), timeout, lib)[j] == ProcessAll(s, sessionId, arrivals, timeout, lib)[j + 1]
      {
        ProcessAllTail(s, sessionId, arrivals, timeout, lib, j + 1);
      }
      HandleFollows(next, sessionId, tail, timeout, lib);
    }
  }

  /**
   * Late join to the end: the n-th emission hands out the exact manifest and, if it is
   * accepted, the session has adopted it and holds no reassembler.
   */
  lemma LateJoinAdopts(
      s: Session, chunks: seq<Chunk>, from: nat, deliveries: seq<Delivery>, timeout: nat, manifest: seq<Byte>, lib: Library)
    requires ChunksOf(chunks, manifest, lib) && lib.Lawful()
    requires chunks != [] && Ready(s, chunks[0].header.revision) && Window(chunks, from, Arrivals(deliveries), timeout)
    ensures var n := |chunks| - 1;
            var (answers, last) := HandleAll(s, chunks[0].header.sessionId, deliveries, timeout, lib);
            && |deliveries| == |chunks| && (forall j :: 0 <= j < n ==> answers[j] == Ok(None))
            && if deliveries[n].verdict.None? then answers[n] == Err(ManifestRefused)
               else answers[n] == Ok(Some(manifest)) && last.manifestRevision == deliveries[n].verdict && last.reassembler.None?
  {
    hide ChunksOf, ProcessAll, HandleAll;
    forall j | 0 <= j < |chunks|
      ensures ProcessAll(s, chunks[0].header.sessionId, Arrivals(deliveries), timeout, lib)[j] ==
              Ok(if j == |chunks| - 1 then Some(manifest) else None)
    {
      LateJoinCompletes(s, chunks, from, Arrivals(deliveries), timeout, manifest, lib, j);
    }
    HandleFollows(s, chunks[0].header.sessionId, deliveries, timeout, lib);
  }

  // ---- What readiness is needed for ----

  /** The reassembler recorded for a revision is one of another revision. */
  ghost predicate Blocked(s: Session) {
    s.reassembler.Some? && s.reassembler.value.header.revision != s.reassemblyRevision
  }

  /** The session waits for its recorded revision with a reassembler that cannot complete it at this time. */
  ghost predicate Hopeless(s: Session, now: nat) {
    && ValidSession(s) && s.reassembler.Some? && (Blocked(s) || !InTime(s.reassembler.value, now))
    && (s.manifestRevision.Some? ==> s.manifestRevision.value < s.reassemblyRevision)
  }

  ghost predicate AllHopeless(s: Session, deliveries: seq<Delivery>) {
    forall j :: 0 <= j < |deliveries| ==> Hopeless(s, deliveries[j].now)
  }

  /** A chunk of this session, of another revision than the recorded one and newer than the adopted manifest. */
  ghost predicate Unlocks(s: Session, sessionId: seq<Byte>, c: Chunk) {
    && c.header.sessionId == sessionId && c.header.revision != s.reassemblyRevision
    && (s.manifestRevision.Some? ==> s.manifestRevision.value < c.header.revision)
  }

  ghost predicate NoneUnlocks(s: Session, sessionId: seq<Byte>, deliveries: seq<Delivery>) {
    forall j :: 0 <= j < |deliveries| ==> !Unlocks(s, sessionId, deliveries[j].chunk)
  }

  ghost predicate Superseded(s: Session, revision: nat) {
    s.manifestRevision.Some? && revision <= s.manifestRevision.value
  }

  lemma HopelessStep(s: Session, sessionId: seq<Byte>, d: Delivery, timeout: nat, lib: Library)
    requires Hopeless(s, d.now)
    ensures var (answer, next) := HandleChunk(s, sessionId, d, timeout, lib);
            if Unlocks(s, sessionId, d.chunk) then
              Ready(next, s.reassemblyRevision) || Superseded(next, s.reassemblyRevision)
            else
              next == s && (answer.Ok? ==> answer.value.None?)
  {
  }

  /**
   * A timed-out or blocked session refuses every chunk of its revision and does not
   * change, over every run in which no chunk of another, newer revision comes.
   */
  lemma {:induction false} StaysStuck(
      s: Session, sessionId: seq<Byte>, deliveries: seq<Delivery>, timeout: nat, lib: Library)
    requires ValidSession(s) && AllHopeless(s, deliveries) && NoneUnlocks(s, sessionId, deliveries)
    ensures var (answers, last) := HandleAll(s, sessionId, deliveries, timeout, lib);
            && last == s
            && forall j :: 0 <= j < |deliveries| ==>
                 var c := deliveries[j].chunk;
                 && (answers[j].Ok? ==> answers[j].value.None?)
                 && (c.header.sessionId == sessionId && c.header.revision == s.reassemblyRevision ==>
                       answers[j].Err? && (!InTime(s.reassembler.value, deliveries[j].now) ==> answers[j] == Err(Reassembly(Timeout))))
    decreases |deliveries|
  {
    if deliveries != [] {
      HopelessStep(s, sessionId, deliveries[0], timeout, lib);
      StaysStuck(s, sessionId, deliveries[1..], timeout, lib);
    }
  }

  lemma {:induction false} HandleSnoc(
      s: Session, sessionId: seq<Byte>, deliveries: seq<Delivery>, d: Delivery, timeout: nat, lib: Library)
    requires ValidSession(s)
    ensures HandleAll(s, sessionId, deliveries + [d], timeout, lib).1
         == HandleChunk(HandleAll(s, sessionId, deliveries, timeout, lib).1, sessionId, d, timeout, lib).1
    decreases |deliveries|
  {
    var all := deliveries + [d];
    if deliveries == [] {
      assert all[1..] == [];
    } else {
      assert all[1..] == deliveries[1..] + [d];
      HandleSnoc(HandleChunk(s, sessionId, deliveries[0], timeout, lib).1, sessionId, deliveries[1..], d, timeout, lib);
    }
  }

  /**
   * Such a session is ready for its revision again, or past it, exactly when a chunk of
   * this session with another revision above the adopted one has come.
   */
  lemma ReadyAgainExactlyWhen(
      s: Session, sessionId: seq<Byte>, earlier: seq<Delivery>, d: Delivery, timeout: nat, lib: Library)
    requires AllHopeless(s, earlier) && NoneUnlocks(s, sessionId, earlier) && Hopeless(s, d.now)
    ensures var next := HandleAll(s, sessionId, earlier + [d], timeout, lib).1;
            Ready(next, s.reassemblyRevision) || Superseded(next, s.reassemblyRevision)
            <==> Unlocks(s, sessionId, d.chunk)
  {
    StaysStuck(s, sessionId, earlier, timeout, lib);
    HandleSnoc(s, sessionId, earlier, d, timeout, lib);
    HopelessStep(s, sessionId, d, timeout, lib);
  }

  /**
   * A session becomes blocked on a new revision exactly when its first chunk is refused
   * by the reassembler's constructor while an older reassembler of a third is held.
   */
  lemma BlockedExactlyWhen(s: Session, sessionId: seq<Byte>, d: Delivery, timeout: nat, lib: Library)
    requires ValidSession(s) && s.reassembler.Some? && Unlocks(s, sessionId, d.chunk)
    ensures Blocked(HandleChunk(s, sessionId, d, timeout, lib).1) <==>
            NewReassembler(d.chunk, d.now, timeout, lib).Err? && s.reassembler.value.header.revision != d.chunk.header.revision
  {
    if NewReassembler(d.chunk, d.now, timeout, lib).Ok? {
      StartsOnce(d.chunk, d.now, timeout, lib);
    }
  }

  /** A chunk a reassembler was started on is taken again. */
  lemma StartsOnce(c: Chunk, now: nat, timeout: nat, lib: Library)
    requires NewReassembler(c, now, timeout, lib).Ok?
    ensures var r := NewReassembler(c, now, timeout, lib).value;
            Valid(r) && r.header == c.header && InsertStep(r, c, now, lib).0.Ok? && InsertStep(r, c, now, lib).1 == r
  {
    NewIsValid(c, now, timeout, lib);
  }

  /** One chunk of another revision, and the next n emissions complete after all. */
  lemma AnotherRevisionRecovers(
      s: Session, other: Delivery, chunks: seq<Chunk>, from: nat, deliveries: seq<Delivery>, timeout: nat,
      manifest: seq<Byte>, lib: Library)
    requires ChunksOf(chunks, manifest, lib) && lib.Lawful() && chunks != []
    requires Hopeless(s, other.now) && s.reassemblyRevision == chunks[0].header.revision
    requires Unlocks(s, chunks[0].header.sessionId, other.chunk)
    requires other.verdict.Some? ==> other.verdict.value < chunks[0].header.revision
    requires Window(chunks, from, Arrivals(deliveries), timeout) && deliveries[|deliveries| - 1].verdict.Some?
    ensures HandleAll(s, chunks[0].header.sessionId, [other] + deliveries, timeout, lib).0[|chunks|] == Ok(Some(manifest))
  {
    hide ChunksOf, Window, Hopeless, Unlocks, HandleChunk, HandleAll, Ready;
    var sessionId := chunks[0].header.sessionId;
    OtherMakesReady(s, sessionId, other, timeout, lib);
    var next := HandleChunk(s, sessionId, other, timeout, lib).1;
    LateJoinAdopts(next, chunks, from, deliveries, timeout, manifest, lib);
    HandleCons(s, sessionId, other, deliveries, timeout, lib);
  }

  lemma OtherMakesReady(s: Session, sessionId: seq<Byte>, other: Delivery, timeout: nat, lib: Library)
    requires Hopeless(s, other.now) && Unlocks(s, sessionId, other.chunk)
    requires other.verdict.Some? ==> other.verdict.value < s.reassemblyRevision
    ensures ValidSession(s) && Ready(HandleChunk(s, sessionId, other, timeout, lib).1, s.reassemblyRevision)
  {
  }

  lemma HandleCons(
      s: Session, sessionId: seq<Byte>, d: Delivery, deliveries: seq<Delivery>, timeout: nat, lib: Library)
    requires ValidSession(s)
    ensures var next := HandleChunk(s, sessionId, d, timeout, lib).1;
            var tail := HandleAll(next, sessionId, deliveries, timeout, lib).0;
            forall k :: 0 <= k < |deliveries| ==>
              HandleAll(s, sessionId, [d] + deliveries, timeout, lib).0[k + 1] == tail[k]
  {
    assert ([d] + deliveries)[1..] == deliveries;
  }
}
