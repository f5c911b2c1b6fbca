/**
 * The chunked session manifest of `crates/metadata-codec/src/metadata_ext.rs`:
 * the Edge cuts it up, the Receiver puts it together from whatever arrives.
 */
module Manifest {
  import opened Common

  const MAX_CHUNK_BYTES := 8192
  const MAX_TOTAL_BYTES := 262144
  const MAX_CHUNKS := 32 // MAX_TOTAL_BYTES.div_ceil(MAX_CHUNK_BYTES)
  const MAX_RATIO := 16

  datatype ManifestError =
    SessionId | TotalSize | ChunkLimit | Conflict | Timeout | CompressionRatio | Decompression | Crc

  datatype Compression = Plain | Zstd {
    function Wire(): int { if Plain? then 1 else 2 }
  }

  /** CRC32C and zstd; `zstdRead` reads at most the given number of bytes. */
  datatype Library = Library(
    crc32c: seq<Byte> -> nat,
    zstdEncode: seq<Byte> -> Option<seq<Byte>>,
    zstdRead: (seq<Byte>, nat) -> Option<seq<Byte>>)
  {
    /** All that is asked of zstd: reading undoes writing. */
    ghost predicate Lawful() {
      forall plain: seq<Byte>, limit: nat ::
        zstdEncode(plain).Some? && |plain| < limit ==> zstdRead(zstdEncode(plain).value, limit) == Some(plain)
    }
  }

  /** What every chunk of one manifest repeats. */
  datatype Header = Header(
    sessionId: seq<Byte>, revision: nat, count: nat, compression: int, uncompressedSize: nat, crc: nat)

  datatype Chunk = Chunk(schemaVersion: nat, header: Header, index: nat, payload: seq<Byte>)

  predicate RatioAllowed(uncompressed: nat, compressed: nat) {
    compressed != 0 && uncompressed <= compressed * MAX_RATIO
  }

  predicate ValidChunk(c: Chunk) {
    && c.schemaVersion == 1
    && |c.header.sessionId| == 16
    && 0 < c.header.count <= MAX_CHUNKS
    && c.index < c.header.count
    && 0 < |c.payload| <= MAX_CHUNK_BYTES
    && 0 < c.header.uncompressedSize <= MAX_TOTAL_BYTES
  }

  // ---- Cutting up ----

  /** Slices of `size` bytes, the last one possibly shorter. */
  function Pieces(s: seq<Byte>, size: nat): seq<seq<Byte>>
    requires size > 0
    decreases |s|
  {
    if s == [] then []
    else if |s| <= size then [s]
    else [s[..size]] + Pieces(s[size..], size)
  }

  function Flatten(pieces: seq<seq<Byte>>): seq<Byte> {
    if pieces == [] then [] else pieces[0] + Flatten(pieces[1..])
  }

  lemma {:induction false} PiecesFlatten(s: seq<Byte>, size: nat)
    requires size > 0
    ensures Flatten(Pieces(s, size)) == s
    ensures forall i :: 0 <= i < |Pieces(s, size)| ==> 0 < |Pieces(s, size)[i]| <= size
    decreases |s|
  {
    if |s| > size {
      PiecesFlatten(s[size..], size);
      assert s == s[..size] + s[size..];
    }
  }

  function Encode(manifest: seq<Byte>, compression: Compression, lib: Library): Option<seq<Byte>> {
    if compression.Plain? then Some(manifest) else lib.zstdEncode(manifest)
  }

  function ChunkManifest(
    manifest: seq<Byte>, sessionId: seq<Byte>, revision: nat, compression: Compression, lib: Library)
    : Result<seq<Chunk>, ManifestError>
  {
    if |sessionId| != 16 then Err(SessionId)
    else if manifest == [] || |manifest| > MAX_TOTAL_BYTES then Err(TotalSize)
    else if Encode(manifest, compression, lib).None? then Err(Decompression)
    else
      var encoded := Encode(manifest, compression, lib).value;
      if !RatioAllowed(|manifest|, |encoded|) then Err(CompressionRatio)
      else
        var pieces := Pieces(encoded, MAX_CHUNK_BYTES);
        if pieces == [] || |pieces| > MAX_CHUNKS then Err(ChunkLimit)
        else
          var header :=
            Header(sessionId, revision, |pieces|, compression.Wire(), |manifest|, lib.crc32c(manifest));
          Ok(seq(|pieces|, i requires 0 <= i < |pieces| => Chunk(1, header, i, pieces[i])))
  }

  /** `chunks` are the chunks of `manifest`, for some session, revision and compression. */
  ghost predicate ChunksOf(chunks: seq<Chunk>, manifest: seq<Byte>, lib: Library) {
    exists sessionId, revision, compression ::
      ChunkManifest(manifest, sessionId, revision, compression, lib) == Ok(chunks)
  }

  // ---- Putting together ----

  type Slot = Option<seq<Byte>>

  datatype Reassembler = Reassembler(
    header: Header, chunks: seq<Slot>, receivedBytes: nat, startedAt: nat, timeout: nat)

  function StoredBytes(chunks: seq<Slot>): nat {
    if chunks == [] then 0
    else (if chunks[0].Some? then |chunks[0].value| else 0) + StoredBytes(chunks[1..])
  }

  /** The invariant of every reassembler the Receiver ever holds. */
  ghost predicate Valid(r: Reassembler) {
    && |r.chunks| == r.header.count <= MAX_CHUNKS
    && (forall i :: 0 <= i < |r.chunks| && r.chunks[i].Some? ==> 0 < |r.chunks[i].value| <= MAX_CHUNK_BYTES)
    && r.receivedBytes == StoredBytes(r.chunks)
  }

  /** Why a chunk is turned away before anything is stored, if it is. */
  function Refusal(r: Reassembler, c: Chunk, now: nat): Option<ManifestError>
    requires |r.chunks| == r.header.count
  {
    if SaturatingSub(now, r.startedAt) > r.timeout then Some(Timeout)
    else if !ValidChunk(c) then Some(ChunkLimit)
    else if c.header != r.header then Some(Conflict)
    else if r.chunks[c.index].Some? && r.chunks[c.index].value != c.payload then Some(Conflict)
    else None
  }

  predicate AllPresent(chunks: seq<Slot>) {
    forall i :: 0 <= i < |chunks| ==> chunks[i].Some?
  }

  function Values(chunks: seq<Slot>): (values: seq<seq<Byte>>)
    requires AllPresent(chunks)
    ensures |values| == |chunks| && forall i :: 0 <= i < |values| ==> values[i] == chunks[i].value
  {
    seq(|chunks|, i requires 0 <= i < |chunks| => chunks[i].value)
  }

  function ReadBounded(encoded: seq<Byte>, expected: nat, lib: Library): Result<seq<Byte>, ManifestError> {
    match lib.zstdRead(encoded, expected + 1)
    case None => Err(Decompression)
    case Some(decoded) => if |decoded| > expected then Err(TotalSize) else Ok(decoded)
  }

  function Decode(header: Header, encoded: seq<Byte>, lib: Library): Result<seq<Byte>, ManifestError> {
    if !RatioAllowed(header.uncompressedSize, |encoded|) then Err(CompressionRatio)
    else
      var decoded :-
        if header.compression == 1 then Ok(encoded)
        else if header.compression == 2 then ReadBounded(encoded, header.uncompressedSize, lib)
        else Err(Conflict);
      if |decoded| != header.uncompressedSize then Err(TotalSize)
      else if lib.crc32c(decoded) != header.crc then Err(Crc)
      else Ok(decoded)
  }

  /** The whole manifest once every slot is filled. */
  function Outcome(r: Reassembler, lib: Library): Result<Option<seq<Byte>>, ManifestError> {
    if !AllPresent(r.chunks) then Ok(None)
    else
      var decoded :- Decode(r.header, Flatten(Values(r.chunks)), lib);
      Ok(Some(decoded))
  }

  function Store(r: Reassembler, c: Chunk): Reassembler
    requires c.index < |r.chunks|
  {
    if r.chunks[c.index].Some? then r
    else r.(chunks := r.chunks[c.index := Some(c.payload)], receivedBytes := r.receivedBytes + |c.payload|)
  }

  type InsertResult = (Result<Option<seq<Byte>>, ManifestError>, Reassembler)

  /** `insert` on a valid reassembler; the byte-total branch is absent because it cannot be taken. */
  function InsertStep(r: Reassembler, c: Chunk, now: nat, lib: Library): InsertResult
    requires Valid(r)
  {
    match Refusal(r, c, now)
    case Some(error) => (Err(error), r)
    case None => (Outcome(Store(r, c), lib), Store(r, c))
  }

  function Empty(header: Header, now: nat, timeout: nat): Reassembler {
    Reassembler(header, seq(header.count, _ => None), 0, now, timeout)
  }

  function NewReassembler(first: Chunk, now: nat, timeout: nat, lib: Library): Result<Reassembler, ManifestError> {
    if !ValidChunk(first) then Err(ChunkLimit)
    else
      EmptyIsValid(first.header, now, timeout);
      var (result, r) := InsertStep(Empty(first.header, now, timeout), first, now, lib);
      if result.Err? then Err(result.error) else Ok(r)
  }

  // ---- The byte total ----

  lemma {:induction false} NothingStored(chunks: seq<Slot>)
    requires forall i :: 0 <= i < |chunks| ==> chunks[i].None?
    ensures StoredBytes(chunks) == 0
  {
    if chunks != [] {
      NothingStored(chunks[1..]);
    }
  }

  lemma EmptyIsValid(header: Header, now: nat, timeout: nat)
    requires header.count <= MAX_CHUNKS
    ensures Valid(Empty(header, now, timeout))
  {
    NothingStored(Empty(header, now, timeout).chunks);
  }

  lemma {:induction false} StoredBytesUpdate(chunks: seq<Slot>, i: nat, payload: seq<Byte>)
    requires i < |chunks| && chunks[i].None?
    ensures StoredBytes(chunks[i := Some(payload)]) == StoredBytes(chunks) + |payload|
  {
    if i == 0 {
      assert chunks[i := Some(payload)][1..] == chunks[1..];
    } else {
      assert chunks[i := Some(payload)][1..] == chunks[1..][i - 1 := Some(payload)];
      StoredBytesUpdate(chunks[1..], i - 1, payload);
    }
  }

  lemma {:induction false} StoredBytesBound(chunks: seq<Slot>)
    requires forall i :: 0 <= i < |chunks| && chunks[i].Some? ==> |chunks[i].value| <= MAX_CHUNK_BYTES
    ensures StoredBytes(chunks) <= MAX_CHUNK_BYTES * |chunks|
  {
    if chunks != [] {
      StoredBytesBound(chunks[1..]);
    }
  }

  lemma StoreIsValid(r: Reassembler, c: Chunk)
    requires Valid(r) && ValidChunk(c) && c.header == r.header
    ensures Valid(Store(r, c))
  {
    if r.chunks[c.index].None? {
      StoredBytesUpdate(r.chunks, c.index, c.payload);
    }
  }

  /** The total never exceeds the limit, so the size test in `insert` never fires. */
  lemma ByteLimitUnreachable(r: Reassembler, c: Chunk)
    requires Valid(r)
    ensures r.receivedBytes <= MAX_TOTAL_BYTES
    ensures ValidChunk(c) && c.header == r.header && r.chunks[c.index].None? ==>
              r.receivedBytes + |c.payload| <= MAX_TOTAL_BYTES
  {
    StoredBytesBound(r.chunks);
    if ValidChunk(c) && c.header == r.header && r.chunks[c.index].None? {
      StoreIsValid(r, c);
      StoredBytesBound(Store(r, c).chunks);
    }
  }

  /** The invariant over every run, and exactly when a failed insert has changed the state. */
  lemma InsertKeepsValid(r: Reassembler, c: Chunk, now: nat, lib: Library)
    requires Valid(r)
    ensures Valid(InsertStep(r, c, now, lib).1)
    ensures InsertStep(r, c, now, lib).0.Err? ==>
              (InsertStep(r, c, now, lib).1 != r <==> Refusal(r, c, now).None? && r.chunks[c.index].None?)
  {
    if Refusal(r, c, now).None? {
      StoreIsValid(r, c);
    }
  }

  /**
   * A chunk that fits, fills the last free slot at an allowed ratio, and has a
   * compression that is neither of the known ones.
   */
  predicate CompletesUnknown(r: Reassembler, c: Chunk, now: nat)
    requires |r.chunks| == r.header.count
  {
    && Refusal(r, c, now).None? && r.chunks[c.index].None?
    && r.header.compression != 1 && r.header.compression != 2
    && var stored := Store(r, c);
       AllPresent(stored.chunks) && RatioAllowed(r.header.uncompressedSize, |Flatten(Values(stored.chunks))|)
  }

  /** A refusal for conflict, limits or timeout has changed the state exactly on such a chunk. */
  lemma RefusalChangesStateExactlyWhen(r: Reassembler, c: Chunk, now: nat, lib: Library)
    requires Valid(r)
    ensures var (result, next) := InsertStep(r, c, now, lib);
            result.Err? && result.error in {Conflict, ChunkLimit, Timeout} && next != r <==> CompletesUnknown(r, c, now)
  {
    if CompletesUnknown(r, c, now) {
      assert Store(r, c).chunks[c.index] != r.chunks[c.index];
    }
  }

  /**
   * It happens to a reassembler the Receiver holds: the second of two chunks is stored
   * and refused, for every unknown compression and every allowed pair of payloads.
   */
  lemma UnknownCompressionIsStored(header: Header, a: seq<Byte>, b: seq<Byte>, start: nat, now: nat, timeout: nat, lib: Library)
    requires |header.sessionId| == 16 && header.count == 2 && header.compression != 1 && header.compression != 2
    requires 0 < |a| <= MAX_CHUNK_BYTES && 0 < |b| <= MAX_CHUNK_BYTES
    requires 0 < header.uncompressedSize <= MAX_TOTAL_BYTES && RatioAllowed(header.uncompressedSize, |a| + |b|)
    requires SaturatingSub(now, start) <= timeout
    ensures var held := NewReassembler(Chunk(1, header, 0, a), start, timeout, lib);
            && held.Ok? && Valid(held.value) && held.value.chunks == [Some(a), None]
            && var (result, next) := InsertStep(held.value, Chunk(1, header, 1, b), now, lib);
            && result == Err(Conflict) && next.chunks == [Some(a), Some(b)]
  {
    var first, second := Chunk(1, header, 0, a), Chunk(1, header, 1, b);
    var empty := Empty(header, start, timeout);
    EmptyIsValid(header, start, timeout);
    var held := Store(empty, first);
    assert held.chunks == [Some(a), None] && held.chunks[1].None?;
    InsertKeepsValid(empty, first, start, lib);
    var full := Store(held, second);
    assert full.chunks == [Some(a), Some(b)];
    assert Values(full.chunks) == [a, b];
    FlattenPair(a, b);
  }

  lemma FlattenPair(a: seq<Byte>, b: seq<Byte>)
    ensures Flatten([a, b]) == a + b
  {
    assert [a, b][1..] == [b] && [b][1..] == [];
    assert Flatten([b]) == b + [] == b;
  }

  // ---- Reassembly from any arrival order ----

  datatype Arrival = Arrival(chunk: Chunk, now: nat)

  function InsertAll(r: Reassembler, arrivals: seq<Arrival>, lib: Library)
    : (seq<Result<Option<seq<Byte>>, ManifestError>>, Reassembler)
    requires Valid(r)
    decreases |arrivals|
  {
    if arrivals == [] then ([], r)
    else
      InsertKeepsValid(r, arrivals[0].chunk, arrivals[0].now, lib);
      var (first, next) := InsertStep(r, arrivals[0].chunk, arrivals[0].now, lib);
      var (rest, final) := InsertAll(next, arrivals[1..], lib);
      ([first] + rest, final)
  }

  /** `r` holds exactly the chunks of `chunks` with an index in `seen`. */
  ghost predicate Holds(r: Reassembler, chunks: seq<Chunk>, seen: set<nat>) {
    && |r.chunks| == |chunks| > 0
    && r.header == chunks[0].header
    && (forall i :: 0 <= i < |chunks| ==> r.chunks[i] == if i in seen then Some(chunks[i].payload) else None)
  }

  /** A chunk of this manifest, or one that cannot be taken for one. */
  ghost predicate Harmless(chunks: seq<Chunk>, c: Chunk)
    requires chunks != []
  {
    c in chunks || !ValidChunk(c) || c.header != chunks[0].header
  }

  predicate InTime(r: Reassembler, now: nat) {
    SaturatingSub(now, r.startedAt) <= r.timeout
  }

  /** The indices held after one more arrival. */
  ghost function SeenAfter(r: Reassembler, chunks: seq<Chunk>, seen: set<nat>, a: Arrival): set<nat> {
    if InTime(r, a.now) && a.chunk in chunks then seen + {a.chunk.index} else seen
  }

  ghost predicate Complete(chunks: seq<Chunk>, seen: set<nat>) {
    forall i: nat :: i < |chunks| ==> i in seen
  }

  /** What the Receiver must answer to `a` once it holds `seen`. */
  ghost predicate Answers(
    result: Result<Option<seq<Byte>>, ManifestError>, r: Reassembler, chunks: seq<Chunk>, seen: set<nat>,
    a: Arrival, manifest: seq<Byte>)
  {
    if !InTime(r, a.now) then result == Err(Timeout)
    else if a.chunk !in chunks then result.Err?
    else result == Ok(if Complete(chunks, seen) then Some(manifest) else None)
  }

  lemma ChunkShape(chunks: seq<Chunk>, manifest: seq<Byte>, lib: Library)
    requires ChunksOf(chunks, manifest, lib)
    ensures 0 < |chunks| <= MAX_CHUNKS
    ensures forall i :: 0 <= i < |chunks| ==>
              chunks[i].header == chunks[0].header && chunks[i].index == i && ValidChunk(chunks[i])
    ensures chunks[0].header.count == |chunks|
    ensures chunks[0].header.compression in {1, 2}
  {
    var sessionId, revision, compression :|
      ChunkManifest(manifest, sessionId, revision, compression, lib) == Ok(chunks);
    PiecesFlatten(Encode(manifest, compression, lib).value, MAX_CHUNK_BYTES);
  }

  function Payloads(chunks: seq<Chunk>): (payloads: seq<seq<Byte>>)
    ensures |payloads| == |chunks| && forall i :: 0 <= i < |payloads| ==> payloads[i] == chunks[i].payload
  {
    seq(|chunks|, i requires 0 <= i < |chunks| => chunks[i].payload)
  }

  /** Decoding the concatenated payloads gives back the manifest, compressed or not. */
  lemma DecodeOfChunks(chunks: seq<Chunk>, manifest: seq<Byte>, lib: Library)
    requires ChunksOf(chunks, manifest, lib) && lib.Lawful()
    ensures chunks != [] && Decode(chunks[0].header, Flatten(Payloads(chunks)), lib) == Ok(manifest)
  {
    var sessionId, revision, compression :|
      ChunkManifest(manifest, sessionId, revision, compression, lib) == Ok(chunks);
    var encoded := Encode(manifest, compression, lib).value;
    PiecesFlatten(encoded, MAX_CHUNK_BYTES);
    assert Payloads(chunks) == Pieces(encoded, MAX_CHUNK_BYTES);
    if compression.Zstd? {
      assert lib.zstdRead(lib.zstdEncode(manifest).value, |manifest| + 1) == Some(manifest);
    }
  }

  lemma OutcomeOfSeen(r: Reassembler, chunks: seq<Chunk>, seen: set<nat>, manifest: seq<Byte>, lib: Library)
    requires ChunksOf(chunks, manifest, lib) && lib.Lawful() && Holds(r, chunks, seen)
    ensures Outcome(r, lib) == Ok(if Complete(chunks, seen) then Some(manifest) else None)
  {
    if AllPresent(r.chunks) {
      assert Complete(chunks, seen);
      assert Values(r.chunks) == Payloads(chunks);
      DecodeOfChunks(chunks, manifest, lib);
    } else {
      var i :| 0 <= i < |r.chunks| && r.chunks[i].None?;
      assert i !in seen;
    }
  }

  lemma InsertGenuine(
      r: Reassembler, chunks: seq<Chunk>, seen: set<nat>, a: Arrival, manifest: seq<Byte>, lib: Library)
    requires ChunksOf(chunks, manifest, lib) && lib.Lawful() && Valid(r) && Holds(r, chunks, seen)
    requires a.chunk in chunks && InTime(r, a.now)
    ensures var (result, next) := InsertStep(r, a.chunk, a.now, lib);
            Holds(next, chunks, seen + {a.chunk.index}) && Answers(result, r, chunks, seen + {a.chunk.index}, a, manifest)
  {
    ChunkShape(chunks, manifest, lib);
    var i :| 0 <= i < |chunks| && chunks[i] == a.chunk;
    assert r.chunks[i].Some? ==> i in seen;
    assert Refusal(r, a.chunk, a.now).None?;
    OutcomeOfSeen(Store(r, a.chunk), chunks, seen + {i}, manifest, lib);
  }

  lemma InsertAnswers(
      r: Reassembler, chunks: seq<Chunk>, seen: set<nat>, a: Arrival, manifest: seq<Byte>, lib: Library)
    requires ChunksOf(chunks, manifest, lib) && lib.Lawful() && Valid(r) && Holds(r, chunks, seen)
    requires Harmless(chunks, a.chunk)
    ensures var (result, next) := InsertStep(r, a.chunk, a.now, lib);
            var seen' := SeenAfter(r, chunks, seen, a);
            && Holds(next, chunks, seen') && Answers(result, r, chunks, seen', a, manifest)
            && next.startedAt == r.startedAt && next.timeout == r.timeout
  {
    hide ChunksOf, Outcome;
    if InTime(r, a.now) && a.chunk in chunks {
      InsertGenuine(r, chunks, seen, a, manifest, lib);
    }
  }

  lemma AnswersClock(
      result: Result<Option<seq<Byte>>, ManifestError>, r: Reassembler, next: Reassembler, chunks: seq<Chunk>,
      seen: set<nat>, a: Arrival, manifest: seq<Byte>)
    requires r.startedAt == next.startedAt && r.timeout == next.timeout
    ensures Answers(result, r, chunks, seen, a, manifest) <==> Answers(result, next, chunks, seen, a, manifest)
  {
  }

  /** The reassembler's answer to each arrival, whatever came before it. */
  lemma {:induction false} ReassemblyAnswers(
      r: Reassembler, chunks: seq<Chunk>, seen: set<nat>, arrivals: seq<Arrival>, manifest: seq<Byte>, lib: Library)
    requires ChunksOf(chunks, manifest, lib) && lib.Lawful() && Valid(r) && Holds(r, chunks, seen)
    requires forall j :: 0 <= j < |arrivals| ==> Harmless(chunks, arrivals[j].chunk)
    ensures |InsertAll(r, arrivals, lib).0| == |arrivals|
    ensures forall j :: 0 <= j < |arrivals| ==>
              Answers(InsertAll(r, arrivals, lib).0[j], r, chunks, SeenAll(r, chunks, seen, arrivals[..j + 1]),
                      arrivals[j], manifest)
    decreases |arrivals|
  {
    hide ChunksOf, Valid, Holds, Answers, SeenAfter, Harmless;
    if arrivals != [] {
      var a := arrivals[0];
      var (result, next) := InsertStep(r, a.chunk, a.now, lib);
      var seen' := SeenAfter(r, chunks, seen, a);
      InsertKeepsValid(r, a.chunk, a.now, lib);
      InsertAnswers(r, chunks, seen, a, manifest, lib);
      ReassemblyAnswers(next, chunks, seen', arrivals[1..], manifest, lib);
      forall j | 0 <= j < |arrivals|
        ensures Answers(InsertAll(r, arrivals, lib).0[j], r, chunks, SeenAll(r, chunks, seen, arrivals[..j + 1]),
                        arrivals[j], manifest)
      {
        SeenAllHead(r, chunks, seen, arrivals, j);
        SeenAllClock(r, next, chunks, seen', arrivals[1..][..j]);
        if j > 0 {
          AnswersClock(InsertAll(next, arrivals[1..], lib).0[j - 1], r, next, chunks,
                       SeenAll(next, chunks, seen', arrivals[1..][..j]), arrivals[j], manifest);
        }
      }
    }
  }

  ghost function SeenAll(r: Reassembler, chunks: seq<Chunk>, seen: set<nat>, arrivals: seq<Arrival>): set<nat>
    decreases |arrivals|
  {
    if arrivals == [] then seen else SeenAll(r, chunks, SeenAfter(r, chunks, seen, arrivals[0]), arrivals[1..])
  }

  lemma SeenAllHead(r: Reassembler, chunks: seq<Chunk>, seen: set<nat>, arrivals: seq<Arrival>, j: nat)
    requires j < |arrivals|
    ensures SeenAll(r, chunks, seen, arrivals[..j + 1]) ==
            SeenAll(r, chunks, SeenAfter(r, chunks, seen, arrivals[0]), arrivals[1..][..j])
  {
    assert arrivals[..j + 1][1..] == arrivals[1..][..j];
  }

  /** Only the clock of the reassembler matters for what is seen. */
  lemma {:induction false} SeenAllClock(
      r: Reassembler, r': Reassembler, chunks: seq<Chunk>, seen: set<nat>, arrivals: seq<Arrival>)
    requires r.startedAt == r'.startedAt && r.timeout == r'.timeout
    ensures SeenAll(r, chunks, seen, arrivals) == SeenAll(r', chunks, seen, arrivals)
    decreases |arrivals|
  {
    if arrivals != [] {
      SeenAllClock(r, r', chunks, SeenAfter(r, chunks, seen, arrivals[0]), arrivals[1..]);
    }
  }

  /** What is seen is what was held plus the indices of the genuine chunks that came in time. */
  lemma {:induction false} SeenAllIs(
      r: Reassembler, chunks: seq<Chunk>, seen: set<nat>, arrivals: seq<Arrival>, i: nat)
    ensures i in SeenAll(r, chunks, seen, arrivals) <==>
            i in seen || exists j :: 0 <= j < |arrivals| && InTime(r, arrivals[j].now)
                                     && arrivals[j].chunk in chunks && arrivals[j].chunk.index == i
    decreases |arrivals|
  {
    if arrivals != [] {
      SeenAllIs(r, chunks, SeenAfter(r, chunks, seen, arrivals[0]), arrivals[1..], i);
      if j :| 0 <= j < |arrivals| && InTime(r, arrivals[j].now)
              && arrivals[j].chunk in chunks && arrivals[j].chunk.index == i && j > 0
      {
        assert arrivals[1..][j - 1] == arrivals[j];
      }
    }
  }

  /** A reassembler started on a genuine chunk holds exactly that chunk. */
  lemma StartedHolds(chunks: seq<Chunk>, first: nat, now: nat, timeout: nat, manifest: seq<Byte>, lib: Library)
    requires ChunksOf(chunks, manifest, lib) && lib.Lawful() && first < |chunks|
    ensures var r := NewReassembler(chunks[first], now, timeout, lib);
            && r.Ok? && Valid(r.value) && Holds(r.value, chunks, {first})
            && r.value.startedAt == now && r.value.timeout == timeout
  {
    ChunkShape(chunks, manifest, lib);
    var empty := Empty(chunks[first].header, now, timeout);
    EmptyIsValid(chunks[first].header, now, timeout);
    InsertGenuine(empty, chunks, {}, Arrival(chunks[first], now), manifest, lib);
    InsertKeepsValid(empty, chunks[first], now, lib);
    assert {} + {first} == {first};
  }

  /** Index `i` was brought by the first chunk or by a genuine chunk in time among `arrivals`. */
  ghost predicate Brought(
    r: Reassembler, chunks: seq<Chunk>, first: nat, arrivals: seq<Arrival>, i: nat)
  {
    i == first || exists j :: 0 <= j < |arrivals| && InTime(r, arrivals[j].now)
                              && arrivals[j].chunk in chunks && arrivals[j].chunk.index == i
  }

  ghost predicate AllBrought(r: Reassembler, chunks: seq<Chunk>, first: nat, arrivals: seq<Arrival>) {
    forall i: nat :: i < |chunks| ==> Brought(r, chunks, first, arrivals, i)
  }

  /**
   * Order, repetition and foreign chunks do not matter: a genuine chunk in time is
   * answered with the exact manifest bytes once every index has been brought, and
   * with nothing before that.
   */
  lemma Reassembly(
      chunks: seq<Chunk>, first: nat, start: nat, timeout: nat, arrivals: seq<Arrival>, manifest: seq<Byte>,
      lib: Library, j: nat)
    requires ChunksOf(chunks, manifest, lib) && lib.Lawful() && first < |chunks|
    requires forall k :: 0 <= k < |arrivals| ==> Harmless(chunks, arrivals[k].chunk)
    requires j < |arrivals|
    ensures NewReassembler(chunks[first], start, timeout, lib).Ok?
    ensures var r := NewReassembler(chunks[first], start, timeout, lib).value;
            && Valid(r) && |InsertAll(r, arrivals, lib).0| == |arrivals|
            && var answer := InsertAll(r, arrivals, lib).0[j];
            && (SaturatingSub(arrivals[j].now, start) > timeout ==> answer == Err(Timeout))
            && (SaturatingSub(arrivals[j].now, start) <= timeout && arrivals[j].chunk !in chunks ==> answer.Err?)
            && (SaturatingSub(arrivals[j].now, start) <= timeout && arrivals[j].chunk in chunks ==>
                  answer == Ok(if AllBrought(r, chunks, first, arrivals[..j + 1]) then Some(manifest) else None))
  {
    StartedHolds(chunks, first, start, timeout, manifest, lib);
    var r := NewReassembler(chunks[first], start, timeout, lib).value;
    ReassemblyAnswers(r, chunks, {first}, arrivals, manifest, lib);
    var upTo := arrivals[..j + 1];
    forall i: nat
      ensures i in SeenAll(r, chunks, {first}, upTo) <==> Brought(r, chunks, first, upTo, i)
    {
      SeenAllIs(r, chunks, {first}, upTo, i);
    }
  }

  // ---- Exactly what is cut, into what, and what completes ----

  function Least(a: nat, b: nat): nat {
    if a < b then a else b
  }

  lemma SliceOfRest(s: seq<Byte>, n: nat, from: nat, to: nat)
    requires n <= from <= to <= |s|
    ensures s[n..][from - n..to - n] == s[from..to]
  {
  }

  lemma {:induction false} PieceAt(s: seq<Byte>, i: nat)
    ensures |Pieces(s, MAX_CHUNK_BYTES)| == (|s| + MAX_CHUNK_BYTES - 1) / MAX_CHUNK_BYTES
    ensures i < |Pieces(s, MAX_CHUNK_BYTES)| ==>
              && MAX_CHUNK_BYTES * i < |s|
              && Pieces(s, MAX_CHUNK_BYTES)[i] == s[MAX_CHUNK_BYTES * i..Least(MAX_CHUNK_BYTES * (i + 1), |s|)]
    decreases |s|
  {
    if |s| > MAX_CHUNK_BYTES {
      var rest := s[MAX_CHUNK_BYTES..];
      PieceAt(rest, if i == 0 then 0 else i - 1);
      assert Pieces(s, MAX_CHUNK_BYTES) == [s[..MAX_CHUNK_BYTES]] + Pieces(rest, MAX_CHUNK_BYTES);
      if 0 < i < |Pieces(s, MAX_CHUNK_BYTES)| {
        var from, to := MAX_CHUNK_BYTES * i, Least(MAX_CHUNK_BYTES * (i + 1), |s|);
        SliceOfRest(s, MAX_CHUNK_BYTES, from, to);
      }
    }
  }

  /** What is sent for a manifest: itself, or what zstd makes of it. */
  ghost predicate Sent(manifest: seq<Byte>, compression: Compression, lib: Library, encoded: seq<Byte>) {
    if compression == Zstd then lib.zstdEncode(manifest) == Some(encoded) else encoded == manifest
  }

  /**
   * A manifest is cut up exactly when its size, its session and its encoding are
   * within the limits; the encoding is within them exactly when it fits in 32 chunks.
   */
  lemma CutExactlyWhen(
      manifest: seq<Byte>, sessionId: seq<Byte>, revision: nat, compression: Compression, lib: Library)
    ensures ChunkManifest(manifest, sessionId, revision, compression, lib).Ok? <==>
            && |sessionId| == 16 && 0 < |manifest| <= 262144
            && exists encoded :: Sent(manifest, compression, lib, encoded)
                                 && 0 < |encoded| <= 262144 && |manifest| <= 16 * |encoded|
  {
    if Encode(manifest, compression, lib).Some? {
      var encoded := Encode(manifest, compression, lib).value;
      assert Sent(manifest, compression, lib, encoded);
      PieceAt(encoded, 0);
    }
  }

  /** Chunk `i` carries the encoded bytes from `8192 * i` on, under the one header of its manifest. */
  lemma CutInto(
      manifest: seq<Byte>, sessionId: seq<Byte>, revision: nat, compression: Compression, lib: Library,
      encoded: seq<Byte>, chunks: seq<Chunk>, i: nat)
    requires ChunkManifest(manifest, sessionId, revision, compression, lib) == Ok(chunks)
    requires Sent(manifest, compression, lib, encoded)
    ensures |chunks| == (|encoded| + 8191) / 8192
    ensures i < |chunks| ==>
              && chunks[i].schemaVersion == 1 && chunks[i].index == i
              && chunks[i].header == Header(sessionId, revision, |chunks|, if compression == Zstd then 2 else 1,
                                            |manifest|, lib.crc32c(manifest))
              && 8192 * i < |encoded|
              && chunks[i].payload == encoded[8192 * i..Least(8192 * i + 8192, |encoded|)]
  {
    PieceAt(encoded, i);
  }

  /** The two ways a stored encoding can stand for `bytes`. */
  ghost predicate StandsFor(compression: int, encoded: seq<Byte>, bytes: seq<Byte>, lib: Library) {
    || (compression == 1 && bytes == encoded)
    || (compression == 2 && lib.zstdRead(encoded, |bytes| + 1) == Some(bytes))
  }

  /**
   * Whatever chunks came, from whomever: an insert hands out `bytes` exactly when the
   * chunk belongs here, no slot is free after it, and the stored payloads in index
   * order stand for `bytes`, whose size and checksum are those the header announced.
   */
  lemma CompletesExactlyWhen(r: Reassembler, c: Chunk, now: nat, lib: Library, bytes: seq<Byte>)
    requires Valid(r)
    ensures InsertStep(r, c, now, lib).0 == Ok(Some(bytes)) <==>
            && InTime(r, now) && ValidChunk(c) && c.header == r.header
            && r.chunks[c.index] in {None, Some(c.payload)}
            && var slots := r.chunks[c.index := Some(c.payload)];
            && AllPresent(slots)
            && var encoded := Flatten(Values(slots));
            && 0 < |encoded| && |bytes| <= 16 * |encoded| && StandsFor(r.header.compression, encoded, bytes, lib)
            && |bytes| == r.header.uncompressedSize && lib.crc32c(bytes) == r.header.crc
  {
    if Refusal(r, c, now).None? {
      var slots := r.chunks[c.index := Some(c.payload)];
      assert Store(r, c).chunks == slots;
    }
  }

  /**
   * A reassembler is started exactly on a chunk of the known schema whose every field is
   * within its limits and, should it be the only one, whose payload stands for the manifest.
   */
  lemma StartsExactlyWhen(first: Chunk, now: nat, timeout: nat, lib: Library)
    ensures NewReassembler(first, now, timeout, lib).Ok? <==>
            && first.schemaVersion == 1 && |first.header.sessionId| == 16
            && first.index < first.header.count <= 32
            && 0 < |first.payload| <= 8192
            && 0 < first.header.uncompressedSize <= 262144
            && (first.header.count == 1 ==> Decode(first.header, first.payload, lib).Ok?)
    ensures NewReassembler(first, now, timeout, lib).Ok? ==>
              NewReassembler(first, now, timeout, lib).value ==
              Reassembler(first.header,
                          seq(first.header.count, i => if i == first.index then Some(first.payload) else None),
                          |first.payload|, now, timeout)
  {
    if ValidChunk(first) {
      var stored := Store(Empty(first.header, now, timeout), first);
      assert stored.chunks == seq(first.header.count, i => if i == first.index then Some(first.payload) else None);
      if first.header.count == 1 {
        assert Values(stored.chunks) == [first.payload];
        assert Flatten([first.payload]) == first.payload + [] == first.payload;
      } else {
        assert stored.chunks[if first.index == 0 then 1 else 0].None?;
      }
    }
  }

  // ---- The source's object ----

  class ManifestReassembler {
    const header: Header
    const startedAt: nat
    const timeout: nat
    var chunks: seq<Slot>
    var receivedBytes: nat

    ghost function State(): Reassembler
      reads this
    {
      Reassembler(header, chunks, receivedBytes, startedAt, timeout)
    }

    constructor (header: Header, now: nat, timeout: nat)
      requires header.count <= MAX_CHUNKS
      ensures State() == Empty(header, now, timeout) && Valid(State())
    {
      this.header, this.startedAt, this.timeout := header, now, timeout;
      chunks, receivedBytes := seq(header.count, _ => None), 0;
      EmptyIsValid(header, now, timeout);
    }

    static method New(first: Chunk, now: nat, timeout: nat, lib: Library)
      returns (result: Result<ManifestReassembler, ManifestError>)
      ensures result.Ok? <==> NewReassembler(first, now, timeout, lib).Ok?
      ensures result.Ok? ==>
                fresh(result.value) && Valid(result.value.State())
                && NewReassembler(first, now, timeout, lib) == Ok(result.value.State())
      ensures result.Err? ==> NewReassembler(first, now, timeout, lib) == Err(result.error)
    {
      if !ValidChunk(first) {
        return Err(ChunkLimit);
      }
      var value := new ManifestReassembler(first.header, now, timeout);
      var inserted := value.Insert(first, now, lib);
      if inserted.Err? {
        return Err(inserted.error);
      }
      return Ok(value);
    }

    method Insert(chunk: Chunk, now: nat, lib: Library) returns (result: Result<Option<seq<Byte>>, ManifestError>)
      requires Valid(State())
      modifies this
      ensures Valid(State())
      ensures (result, State()) == InsertStep(old(State()), chunk, now, lib)
    {
      InsertKeepsValid(State(), chunk, now, lib);
      if SaturatingSub(now, startedAt) > timeout {
        return Err(Timeout);
      }
      if !ValidChunk(chunk) {
        return Err(ChunkLimit);
      }
      if chunk.header != header {
        return Err(Conflict);
      }
      var index := chunk.index;
      match chunks[index] {
        case Some(existing) =>
          if existing != chunk.payload {
            return Err(Conflict);
          }
        case None =>
          ByteLimitUnreachable(State(), chunk);
          receivedBytes := receivedBytes + |chunk.payload|;
          assert receivedBytes <= MAX_TOTAL_BYTES;
          chunks := chunks[index := Some(chunk.payload)];
      }
      if exists i :: 0 <= i < |chunks| && chunks[i].None? {
        return Ok(None);
      }
      var encoded := Concatenate(chunks);
      var decoded := Decode(header, encoded, lib);
      if decoded.Err? {
        return Err(decoded.error);
      }
      return Ok(Some(decoded.value));
    }
  }

  method Concatenate(chunks: seq<Slot>) returns (encoded: seq<Byte>)
    requires AllPresent(chunks)
    ensures encoded == Flatten(Values(chunks))
  {
    encoded := [];
    for i := 0 to |chunks|
      invariant encoded == Flatten(Values(chunks)[..i])
    {
      assert Values(chunks)[..i + 1] == Values(chunks)[..i] + [chunks[i].value];
      FlattenSnoc(Values(chunks)[..i], chunks[i].value);
      encoded := encoded + chunks[i].value;
    }
    assert Values(chunks)[..|chunks|] == Values(chunks);
  }

  lemma {:induction false} FlattenSnoc(pieces: seq<seq<Byte>>, last: seq<Byte>)
    ensures Flatten(pieces + [last]) == Flatten(pieces) + last
  {
    if pieces == [] {
      assert Flatten([last]) == last + [];
    } else {
      assert (pieces + [last])[1..] == pieces[1..] + [last];
      FlattenSnoc(pieces[1..], last);
    }
  }
}
