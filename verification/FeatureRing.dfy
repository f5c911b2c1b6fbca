/**
 * The bounded sample ring and its resampling, `FeatureRing` of
 * `crates/edge-core/src/context.rs`, over the reals.
 */
module FeatureRing {
  import opened Common

  datatype Sample = Sample(time: nat, values: seq<real>, valid: bool)

  datatype Method = Unspecified | Linear | ZeroOrderHold | Nearest | Exact

  datatype Resampled = Resampled(values: seq<real>, previousTime: nat, nextTime: nat, alpha: real)

  datatype Ring = Ring(capacity: nat, vectorLength: nat, samples: seq<Sample>)

  datatype ContextError = InvalidCapacity | InvalidSample | ContextBudget

  predicate Sorted(samples: seq<Sample>) {
    forall i, j :: 0 <= i < j < |samples| ==> samples[i].time < samples[j].time
  }

  predicate Shaped(samples: seq<Sample>, length: nat) {
    forall i :: 0 <= i < |samples| ==> |samples[i].values| == length
  }

  ghost predicate Valid(r: Ring) {
    && r.capacity > 0 && r.vectorLength > 0
    && |r.samples| <= r.capacity && Sorted(r.samples) && Shaped(r.samples, r.vectorLength) && Timed(r.samples)
  }

  /** No sample has the time zero, which stands for none. */
  predicate Timed(samples: seq<Sample>) {
    forall i :: 0 <= i < |samples| ==> samples[i].time != 0
  }

  // ---- Inserting ----

  predicate Insertable(r: Ring, s: Sample) {
    && s.time != 0 && |s.values| == r.vectorLength
    && (r.samples != [] ==> r.samples[|r.samples| - 1].time < s.time)
  }

  /** The last `n` samples of a history. */
  function LastOf(history: seq<Sample>, n: nat): seq<Sample> {
    if |history| <= n then history else history[|history| - n..]
  }

  function InsertStep(r: Ring, s: Sample): (Result<(), ContextError>, Ring) {
    if !Insertable(r, s) then (Err(InvalidSample), r)
    else (Ok(()), r.(samples := (if |r.samples| == r.capacity && r.samples != [] then r.samples[1..] else r.samples) + [s]))
  }

  function InsertAll(r: Ring, inserts: seq<Sample>): Ring {
    if inserts == [] then r else InsertStep(InsertAll(r, inserts[..|inserts| - 1]), inserts[|inserts| - 1]).1
  }

  /** Everything a ring of this shape ever accepted, nothing evicted. */
  function Accepted(r: Ring, inserts: seq<Sample>): seq<Sample> {
    if inserts == [] then []
    else
      var last := |inserts| - 1;
      Accepted(r, inserts[..last])
      + (if Insertable(InsertAll(r, inserts[..last]), inserts[last]) then [inserts[last]] else [])
  }

  function NewRing(capacity: nat, vectorLength: nat): Result<Ring, ContextError> {
    if capacity == 0 || vectorLength == 0 then Err(InvalidCapacity) else Ok(Ring(capacity, vectorLength, []))
  }

  lemma SortedSnoc(history: seq<Sample>, s: Sample)
    requires Sorted(history) && (history != [] ==> history[|history| - 1].time < s.time)
    ensures Sorted(history + [s])
  {
    var all := history + [s];
    forall i, j | 0 <= i < j < |all|
      ensures all[i].time < all[j].time
    {
      assert i < |history| - 1 ==> history[i].time < history[|history| - 1].time;
    }
  }

  lemma LastOfSnoc(history: seq<Sample>, s: Sample, capacity: nat)
    requires capacity > 0
    ensures var kept := LastOf(history, capacity);
            (if |kept| == capacity && kept != [] then kept[1..] else kept) + [s] == LastOf(history + [s], capacity)
  {
  }

  lemma LastOfIsSuffix(history: seq<Sample>, capacity: nat)
    requires capacity > 0
    ensures var kept := LastOf(history, capacity);
            && |kept| <= capacity && |kept| <= |history| && history == history[..|history| - |kept|] + kept
            && (kept == [] <==> history == [])
            && (history != [] ==> kept[|kept| - 1] == history[|history| - 1])
            && (Sorted(history) ==> Sorted(kept)) && (Timed(history) ==> Timed(kept))
            && forall length: nat :: Shaped(history, length) ==> Shaped(kept, length)
  {
    hide Sorted, Timed, Shaped;
    var k := if |history| <= capacity then 0 else |history| - capacity;
    SuffixKeeps(history, k);
    assert history[0..] == history;
    assert LastOf(history, capacity) == history[k..] && history == history[..k] + history[k..];
  }

  lemma SuffixKeeps(history: seq<Sample>, k: nat)
    requires k <= |history|
    ensures Sorted(history) ==> Sorted(history[k..])
    ensures Timed(history) ==> Timed(history[k..])
    ensures forall length: nat :: Shaped(history, length) ==> Shaped(history[k..], length)
  {
  }

  /** `ring` holds the newest part of a history that is sorted and in shape. */
  ghost predicate Holds(ring: Ring, history: seq<Sample>) {
    && ring.capacity > 0 && ring.vectorLength > 0
    && ring.samples == LastOf(history, ring.capacity)
    && Sorted(history) && Shaped(history, ring.vectorLength) && Timed(history)
  }

  lemma InsertHolds(ring: Ring, history: seq<Sample>, s: Sample)
    requires Holds(ring, history) && Insertable(ring, s)
    ensures Holds(InsertStep(ring, s).1, history + [s])
  {
    hide LastOf, Sorted, Shaped, Timed;
    LastOfIsSuffix(history, ring.capacity);
    LastOfSnoc(history, s, ring.capacity);
    SortedSnoc(history, s);
    ShapedSnoc(history, s, ring.vectorLength);
  }

  lemma ShapedSnoc(history: seq<Sample>, s: Sample, length: nat)
    requires Shaped(history, length) && Timed(history) && |s.values| == length && s.time != 0
    ensures Shaped(history + [s], length) && Timed(history + [s])
  {
  }

  /** The ring is always the newest part of the full history, which stays sorted and in shape. */
  lemma {:induction false} RingIsSuffix(r: Ring, inserts: seq<Sample>)
    requires r.capacity > 0 && r.vectorLength > 0 && r.samples == []
    ensures var ring := InsertAll(r, inserts);
            && Holds(ring, Accepted(r, inserts)) && Valid(ring)
            && ring.capacity == r.capacity && ring.vectorLength == r.vectorLength
    decreases |inserts|
  {
    hide Holds, Valid, Sorted, Shaped, LastOf;
    if inserts != [] {
      var last := |inserts| - 1;
      RingIsSuffix(r, inserts[..last]);
      var ring, before, s := InsertAll(r, inserts[..last]), Accepted(r, inserts[..last]), inserts[last];
      if Insertable(ring, s) {
        InsertHolds(ring, before, s);
      } else {
        assert before + [] == before;
      }
    } else {
      NothingHolds(r);
    }
    HoldsIsValid(InsertAll(r, inserts), Accepted(r, inserts));
  }

  lemma NothingHolds(r: Ring)
    requires r.capacity > 0 && r.vectorLength > 0 && r.samples == []
    ensures Holds(r, [])
  {
  }

  lemma HoldsIsValid(ring: Ring, history: seq<Sample>)
    requires Holds(ring, history)
    ensures Valid(ring)
  {
    LastOfIsSuffix(history, ring.capacity);
  }

  // ---- Resampling ----

  /** The newest valid sample at or before `at`. */
  function Previous(samples: seq<Sample>, at: nat): Option<Sample> {
    if samples == [] then None
    else
      var last := samples[|samples| - 1];
      if last.valid && last.time <= at then Some(last) else Previous(samples[..|samples| - 1], at)
  }

  /** The oldest valid sample at or after `at`. */
  function Next(samples: seq<Sample>, at: nat): Option<Sample> {
    if samples == [] then None
    else if samples[0].valid && samples[0].time >= at then Some(samples[0])
    else Next(samples[1..], at)
  }

  function Single(s: Sample): Resampled { Resampled(s.values, s.time, s.time, 0.0) }

  function Blend(left: seq<real>, right: seq<real>, alpha: real): (r: seq<real>)
    ensures |r| == Min(|left|, |right|)
    ensures forall i :: 0 <= i < |r| ==> r[i] == left[i] + (right[i] - left[i]) * alpha
  {
    seq(Min(|left|, |right|), i requires 0 <= i < Min(|left|, |right|) => left[i] + (right[i] - left[i]) * alpha)
  }

  function Alpha(left: nat, right: nat, at: nat): real {
    if right <= left then 0.0 else SaturatingSub(at, left) as real / (right - left) as real
  }

  /** The result from the two neighbours of the query time. */
  function FromBracket(previous: Option<Sample>, next: Option<Sample>, at: nat, method': Method, maxGap: nat)
    : Option<Resampled>
  {
    match method'
    case Linear =>
      if previous.None? || next.None? then None
      else
        var (left, right) := (previous.value, next.value);
        if SaturatingSub(right.time, left.time) > maxGap then None
        else
          var alpha := Alpha(left.time, right.time, at);
          Some(Resampled(Blend(left.values, right.values, alpha), left.time, right.time, alpha))
    case ZeroOrderHold =>
      if previous.Some? && SaturatingSub(at, previous.value.time) <= maxGap then Some(Single(previous.value)) else None
    case Nearest =>
      (match NearestOf(previous, next, at)
       case None => None
       case Some(s) => if AbsDiff(s.time, at) <= maxGap then Some(Single(s)) else None)
    case Exact =>
      if previous.Some? && previous.value.time == at then Some(Single(previous.value)) else None
    case Unspecified => None
  }

  function NearestOf(previous: Option<Sample>, next: Option<Sample>, at: nat): Option<Sample> {
    if previous.None? then next
    else if next.None? then previous
    else if SaturatingSub(at, previous.value.time) <= SaturatingSub(next.value.time, at) then previous
    else next
  }

  function Resample(samples: seq<Sample>, at: nat, method': Method, maxGap: nat): Option<Resampled> {
    FromBracket(Previous(samples, at), Next(samples, at), at, method', maxGap)
  }

  // ---- What the two neighbours are ----

  predicate UsableBefore(s: Sample, at: nat) { s.valid && s.time <= at }

  predicate UsableAfter(s: Sample, at: nat) { s.valid && s.time >= at }

  lemma {:induction false} PreviousIs(samples: seq<Sample>, at: nat)
    requires Sorted(samples)
    ensures Previous(samples, at).None? ==> forall i :: 0 <= i < |samples| ==> !UsableBefore(samples[i], at)
    ensures Previous(samples, at).Some? ==>
              var p := Previous(samples, at).value;
              && p in samples && UsableBefore(p, at)
              && forall i :: 0 <= i < |samples| && UsableBefore(samples[i], at) ==> samples[i].time <= p.time
  {
    if samples != [] {
      PreviousIs(samples[..|samples| - 1], at);
      assert forall i :: 0 <= i < |samples| - 1 ==> samples[..|samples| - 1][i] == samples[i];
    }
  }

  lemma {:induction false} NextIs(samples: seq<Sample>, at: nat)
    requires Sorted(samples)
    ensures Next(samples, at).None? ==> forall i :: 0 <= i < |samples| ==> !UsableAfter(samples[i], at)
    ensures Next(samples, at).Some? ==>
              var n := Next(samples, at).value;
              && n in samples && UsableAfter(n, at)
              && forall i :: 0 <= i < |samples| && UsableAfter(samples[i], at) ==> n.time <= samples[i].time
  {
    if samples != [] {
      NextIs(samples[1..], at);
      forall i | 1 <= i < |samples|
        ensures samples[i] == samples[1..][i - 1]
      {
      }
    }
  }

  // ---- What each method gives, from the samples alone ----

  /** `s` is the latest valid sample at or before `at`. */
  ghost predicate IsLatest(samples: seq<Sample>, at: nat, s: Sample) {
    && s in samples && s.valid && s.time <= at
    && forall i :: 0 <= i < |samples| && samples[i].valid && samples[i].time <= at ==> samples[i].time <= s.time
  }

  /** `s` is the earliest valid sample at or after `at`. */
  ghost predicate IsEarliest(samples: seq<Sample>, at: nat, s: Sample) {
    && s in samples && s.valid && at <= s.time
    && forall i :: 0 <= i < |samples| && samples[i].valid && at <= samples[i].time ==> s.time <= samples[i].time
  }

  /** Between two samples no further apart than the gap: the point of the straight line at the query time. */
  ghost predicate OnTheLine(r: Option<Resampled>, left: Sample, right: Sample, at: nat, maxGap: nat) {
    && (r.Some? <==> right.time - left.time <= maxGap)
    && (r.Some? ==>
          var v := r.value;
          && v.previousTime == left.time && v.nextTime == right.time && |v.values| == Min(|left.values|, |right.values|)
          && (if left.time == right.time then v.alpha == 0.0
              else v.alpha * (right.time - left.time) as real == (at - left.time) as real)
          && forall i :: 0 <= i < |v.values| ==>
               v.values[i] == left.values[i] + (right.values[i] - left.values[i]) * v.alpha)
  }

  /** The sample itself, if it is within the gap. */
  ghost predicate TheSample(r: Option<Resampled>, s: Sample, at: nat, maxGap: nat) {
    && (r.Some? <==> AbsDiff(s.time, at) <= maxGap)
    && (r.Some? ==> r.value == Resampled(s.values, s.time, s.time, 0.0))
  }

  lemma SameTimeSame(samples: seq<Sample>, a: Sample, b: Sample)
    requires Sorted(samples) && a in samples && b in samples && a.time == b.time
    ensures a == b
  {
    var i :| 0 <= i < |samples| && samples[i] == a;
    var j :| 0 <= j < |samples| && samples[j] == b;
  }

  lemma LatestIsPrevious(samples: seq<Sample>, at: nat, s: Sample)
    requires Sorted(samples) && IsLatest(samples, at, s)
    ensures Previous(samples, at) == Some(s)
  {
    PreviousIs(samples, at);
    var i :| 0 <= i < |samples| && samples[i] == s;
    assert UsableBefore(samples[i], at);
    SameTimeSame(samples, s, Previous(samples, at).value);
  }

  lemma EarliestIsNext(samples: seq<Sample>, at: nat, s: Sample)
    requires Sorted(samples) && IsEarliest(samples, at, s)
    ensures Next(samples, at) == Some(s)
  {
    NextIs(samples, at);
    var i :| 0 <= i < |samples| && samples[i] == s;
    assert UsableAfter(samples[i], at);
    SameTimeSame(samples, s, Next(samples, at).value);
  }

  lemma RatioTimes(a: real, b: real)
    requires b != 0.0
    ensures a / b * b == a
  {
  }

  /** Between two neighbours: linear is on the line, and nearest is the nearer one, the earlier on a tie. */
  lemma BetweenNeighbours(samples: seq<Sample>, left: Sample, right: Sample, at: nat, maxGap: nat)
    requires Sorted(samples) && IsLatest(samples, at, left) && IsEarliest(samples, at, right)
    ensures OnTheLine(Resample(samples, at, Linear, maxGap), left, right, at, maxGap)
    ensures TheSample(Resample(samples, at, Nearest, maxGap),
                      if at - left.time <= right.time - at then left else right, at, maxGap)
  {
    hide Previous, Next, Sorted;
    LatestIsPrevious(samples, at, left);
    EarliestIsNext(samples, at, right);
    if left.time < right.time {
      RatioTimes((at - left.time) as real, (right.time - left.time) as real);
    }
  }

  /** With a sample at or before the time: hold gives it within the gap, and exact gives it at its own time. */
  lemma AfterSample(samples: seq<Sample>, left: Sample, at: nat, maxGap: nat)
    requires Sorted(samples) && IsLatest(samples, at, left)
    ensures TheSample(Resample(samples, at, ZeroOrderHold, maxGap), left, at, maxGap)
    ensures Resample(samples, at, Exact, maxGap) ==
            if left.time == at then Some(Resampled(left.values, left.time, left.time, 0.0)) else None
    ensures (forall s :: !IsEarliest(samples, at, s)) ==>
              && Resample(samples, at, Linear, maxGap).None?
              && TheSample(Resample(samples, at, Nearest, maxGap), left, at, maxGap)
  {
    LatestIsPrevious(samples, at, left);
    if forall s :: !IsEarliest(samples, at, s) {
      NoNext(samples, at);
    }
  }

  /** Without one, only nearest can answer, with the first sample after; and an unspecified method never does. */
  lemma BeforeSamples(samples: seq<Sample>, at: nat, maxGap: nat)
    requires Sorted(samples)
    ensures (forall s :: !IsLatest(samples, at, s)) ==>
              && Resample(samples, at, Linear, maxGap).None?
              && Resample(samples, at, ZeroOrderHold, maxGap).None?
              && Resample(samples, at, Exact, maxGap).None?
              && (forall right :: IsEarliest(samples, at, right) ==>
                    TheSample(Resample(samples, at, Nearest, maxGap), right, at, maxGap))
              && ((forall s :: !IsEarliest(samples, at, s)) ==> Resample(samples, at, Nearest, maxGap).None?)
    ensures Resample(samples, at, Unspecified, maxGap).None?
  {
    if forall s :: !IsLatest(samples, at, s) {
      NoPrevious(samples, at);
      forall right | IsEarliest(samples, at, right)
        ensures TheSample(Resample(samples, at, Nearest, maxGap), right, at, maxGap)
      {
        EarliestIsNext(samples, at, right);
      }
      if forall s :: !IsEarliest(samples, at, s) {
        NoNext(samples, at);
      }
    }
  }

  lemma NoPrevious(samples: seq<Sample>, at: nat)
    requires Sorted(samples) && forall s :: !IsLatest(samples, at, s)
    ensures Previous(samples, at).None?
  {
    PreviousIs(samples, at);
    if Previous(samples, at).Some? {
      assert IsLatest(samples, at, Previous(samples, at).value);
    }
  }

  lemma NoNext(samples: seq<Sample>, at: nat)
    requires Sorted(samples) && forall s :: !IsEarliest(samples, at, s)
    ensures Next(samples, at).None?
  {
    NextIs(samples, at);
    if Next(samples, at).Some? {
      assert IsEarliest(samples, at, Next(samples, at).value);
    }
  }

  /** Linear interpolation stays between its neighbours, and no valid sample lies strictly between them. */
  lemma LinearIsTight(samples: seq<Sample>, at: nat, maxGap: nat)
    requires Sorted(samples) && Resample(samples, at, Linear, maxGap).Some?
    ensures var r := Resample(samples, at, Linear, maxGap).value;
            && 0.0 <= r.alpha <= 1.0
            && r.previousTime <= at <= r.nextTime && r.nextTime - r.previousTime <= maxGap
            && forall i :: 0 <= i < |samples| && samples[i].valid ==>
                 !(r.previousTime < samples[i].time < r.nextTime)
  {
    PreviousIs(samples, at);
    NextIs(samples, at);
    var left, right := Previous(samples, at).value, Next(samples, at).value;
    AlphaInRange(left.time, right.time, at);
    forall i | 0 <= i < |samples| && samples[i].valid
      ensures !(left.time < samples[i].time < right.time)
    {
      assert UsableBefore(samples[i], at) || UsableAfter(samples[i], at);
    }
  }

  lemma AlphaInRange(left: nat, right: nat, at: nat)
    requires left <= at <= right
    ensures 0.0 <= Alpha(left, right, at) <= 1.0
  {
    if left < right {
      var x, y := (at - left) as real, (right - left) as real;
      var q := x / y;
      assert q * y == x && (1.0 - q) * y == y - x;
      SignOf(q, y);
      SignOf(1.0 - q, y);
    }
  }

  lemma SignOf(a: real, y: real)
    requires y > 0.0 && a * y >= 0.0
    ensures a >= 0.0
  {
  }

  /** The nearest method picks a sample at the least distance among all valid ones. */
  lemma NearestIsNearest(samples: seq<Sample>, at: nat, maxGap: nat, i: nat)
    requires Sorted(samples) && i < |samples| && samples[i].valid
    ensures NearestOf(Previous(samples, at), Next(samples, at), at).Some?
    ensures var s := NearestOf(Previous(samples, at), Next(samples, at), at).value;
            && s in samples && s.valid && AbsDiff(s.time, at) <= AbsDiff(samples[i].time, at)
            && (AbsDiff(samples[i].time, at) <= maxGap ==> Resample(samples, at, Nearest, maxGap) == Some(Single(s)))
  {
    PreviousIs(samples, at);
    NextIs(samples, at);
    assert UsableBefore(samples[i], at) || UsableAfter(samples[i], at);
  }

  // ---- The bounded ring against unlimited history ----

  ghost predicate HasUsableBefore(samples: seq<Sample>, at: nat) {
    exists i :: 0 <= i < |samples| && UsableBefore(samples[i], at)
  }

  ghost predicate HasValid(samples: seq<Sample>) {
    exists i :: 0 <= i < |samples| && samples[i].valid
  }

  lemma {:induction false} PreviousAppend(evicted: seq<Sample>, kept: seq<Sample>, at: nat)
    ensures Previous(evicted + kept, at) ==
            if Previous(kept, at).Some? then Previous(kept, at) else Previous(evicted, at)
    decreases |kept|
  {
    if kept == [] {
      assert evicted + kept == evicted;
    } else {
      assert (evicted + kept)[..|evicted + kept| - 1] == evicted + kept[..|kept| - 1];
      PreviousAppend(evicted, kept[..|kept| - 1], at);
    }
  }

  lemma {:induction false} NextAppend(evicted: seq<Sample>, kept: seq<Sample>, at: nat)
    ensures Next(evicted + kept, at) == if Next(evicted, at).Some? then Next(evicted, at) else Next(kept, at)
  {
    if evicted == [] {
      assert evicted + kept == kept;
    } else {
      assert (evicted + kept)[1..] == evicted[1..] + kept;
      NextAppend(evicted[1..], kept, at);
    }
  }

  /**
   * The neighbours found in the kept samples are those of the full history exactly
   * when a valid kept sample is at or before the query time, or nothing valid was
   * evicted.
   */
  lemma BracketAgrees(evicted: seq<Sample>, kept: seq<Sample>, at: nat)
    requires Sorted(evicted + kept)
    ensures Previous(kept, at) == Previous(evicted + kept, at) && Next(kept, at) == Next(evicted + kept, at) <==>
            HasUsableBefore(kept, at) || !HasValid(evicted)
  {
    hide Previous, Next, HasUsableBefore, HasValid, Sorted;
    SortedParts(evicted, kept);
    PreviousAppend(evicted, kept, at);
    NextAppend(evicted, kept, at);
    if HasUsableBefore(kept, at) {
      UsableHides(evicted, kept, at);
    } else if HasValid(evicted) {
      NoLeftNeighbour(kept, at);
      SomeNeighbour(evicted, at);
      if Next(evicted, at).Some? && Next(kept, at).Some? {
        NextIs(kept, at);
        LaterIsLater(evicted, kept, Next(evicted, at).value, Next(kept, at).value);
      }
    } else {
      NothingValid(evicted, at);
    }
  }

  /** With a usable kept sample, the kept ones have a left neighbour and the evicted ones no right one. */
  lemma UsableHides(evicted: seq<Sample>, kept: seq<Sample>, at: nat)
    requires Sorted(evicted + kept) && HasUsableBefore(kept, at)
    ensures Previous(kept, at).Some? && Next(evicted, at).None?
  {
    SortedParts(evicted, kept);
    PreviousIs(kept, at);
    NextIs(evicted, at);
    var j :| 0 <= j < |kept| && UsableBefore(kept[j], at);
    if Next(evicted, at).Some? {
      LaterIsLater(evicted, kept, Next(evicted, at).value, kept[j]);
    }
  }

  lemma NothingValid(samples: seq<Sample>, at: nat)
    requires Sorted(samples) && !HasValid(samples)
    ensures Previous(samples, at).None? && Next(samples, at).None?
  {
    PreviousIs(samples, at);
    NextIs(samples, at);
  }

  /** So every method gives on the ring what it would give on everything ever accepted. */
  lemma RingAgreesWithHistory(r: Ring, inserts: seq<Sample>, at: nat, method': Method, maxGap: nat)
    requires r.capacity > 0 && r.vectorLength > 0 && r.samples == []
    requires HasUsableBefore(InsertAll(r, inserts).samples, at)
    ensures Resample(InsertAll(r, inserts).samples, at, method', maxGap)
         == Resample(Accepted(r, inserts), at, method', maxGap)
  {
    hide Resample, InsertAll, Accepted, HasUsableBefore, Holds;
    RingIsSuffix(r, inserts);
    SuffixAgrees(InsertAll(r, inserts), Accepted(r, inserts), at, method', maxGap);
  }

  lemma SuffixAgrees(ring: Ring, history: seq<Sample>, at: nat, method': Method, maxGap: nat)
    requires Holds(ring, history) && HasUsableBefore(ring.samples, at)
    ensures Resample(ring.samples, at, method', maxGap) == Resample(history, at, method', maxGap)
  {
    LastOfIsSuffix(history, ring.capacity);
    BracketAgrees(history[..|history| - |ring.samples|], ring.samples, at);
  }

  ghost predicate AlwaysAgree(kept: seq<Sample>, history: seq<Sample>, at: nat) {
    forall m: Method, gap: nat :: Resample(kept, at, m, gap) == Resample(history, at, m, gap)
  }

  /** With no left neighbour in the ring, another left one or an earlier right one shows. */
  lemma BracketsDiffer(next: Option<Sample>, previous': Option<Sample>, next': Option<Sample>, at: nat)
    requires previous'.Some? ==> previous'.value.time <= at
    requires previous'.None? ==> next'.Some? && at <= next'.value.time && (next.Some? ==> next'.value.time < next.value.time)
    ensures var gap := if previous'.Some? then at else next'.value.time;
            var m := if previous'.Some? then ZeroOrderHold else Nearest;
            FromBracket(None, next, at, m, gap) != FromBracket(previous', next', at, m, gap)
  {
  }

  lemma SortedParts(evicted: seq<Sample>, kept: seq<Sample>)
    requires Sorted(evicted + kept)
    ensures Sorted(evicted) && Sorted(kept)
  {
    var all := evicted + kept;
    assert forall i :: 0 <= i < |evicted| ==> all[i] == evicted[i];
    assert forall i :: 0 <= i < |kept| ==> all[|evicted| + i] == kept[i];
  }

  lemma NoLeftNeighbour(samples: seq<Sample>, at: nat)
    requires Sorted(samples) && !HasUsableBefore(samples, at)
    ensures Previous(samples, at).None?
  {
    PreviousIs(samples, at);
  }

  lemma SomeNeighbour(samples: seq<Sample>, at: nat)
    requires Sorted(samples) && HasValid(samples)
    ensures Previous(samples, at).Some? || Next(samples, at).Some?
    ensures Previous(samples, at).Some? ==> Previous(samples, at).value.time <= at
    ensures Next(samples, at).Some? ==> Next(samples, at).value in samples && at <= Next(samples, at).value.time
  {
    PreviousIs(samples, at);
    NextIs(samples, at);
    var i :| 0 <= i < |samples| && samples[i].valid;
    assert UsableBefore(samples[i], at) || UsableAfter(samples[i], at);
  }

  lemma DisagreeSomewhere(evicted: seq<Sample>, kept: seq<Sample>, at: nat)
    requires Sorted(evicted + kept) && !HasUsableBefore(kept, at) && HasValid(evicted)
    ensures !AlwaysAgree(kept, evicted + kept, at)
  {
    hide Previous, Next, FromBracket, HasValid, HasUsableBefore, Sorted;
    var all := evicted + kept;
    SortedParts(evicted, kept);
    PreviousAppend(evicted, kept, at);
    NextAppend(evicted, kept, at);
    NoLeftNeighbour(kept, at);
    SomeNeighbour(evicted, at);
    var previous, next := Previous(all, at), Next(all, at);
    if previous.None? && Next(kept, at).Some? {
      NextIs(kept, at);
      LaterIsLater(evicted, kept, next.value, Next(kept, at).value);
    }
    BracketsDiffer(Next(kept, at), previous, next, at);
    if previous.Some? {
      assert Resample(kept, at, ZeroOrderHold, at) != Resample(all, at, ZeroOrderHold, at);
    } else {
      assert Resample(kept, at, Nearest, next.value.time) != Resample(all, at, Nearest, next.value.time);
    }
  }

  lemma LaterIsLater(evicted: seq<Sample>, kept: seq<Sample>, a: Sample, b: Sample)
    requires Sorted(evicted + kept) && a in evicted && b in kept
    ensures a.time < b.time
  {
    var i :| 0 <= i < |evicted| && evicted[i] == a;
    var j :| 0 <= j < |kept| && kept[j] == b;
    assert (evicted + kept)[i] == a && (evicted + kept)[|evicted| + j] == b;
  }

  /**
   * The ring and everything ever accepted give the same result for every method and every
   * gap exactly when a valid kept sample is at or before the query time, or nothing valid
   * was evicted.
   */
  lemma RingAgreesExactlyWhen(r: Ring, inserts: seq<Sample>, at: nat)
    requires r.capacity > 0 && r.vectorLength > 0 && r.samples == []
    ensures var kept, history := InsertAll(r, inserts).samples, Accepted(r, inserts);
            && |kept| <= |history|
            && (AlwaysAgree(kept, history, at) <==>
                  HasUsableBefore(kept, at) || !HasValid(history[..|history| - |kept|]))
  {
    RingIsSuffix(r, inserts);
    var kept, history := InsertAll(r, inserts).samples, Accepted(r, inserts);
    LastOfIsSuffix(history, r.capacity);
    var evicted := history[..|history| - |kept|];
    hide InsertAll, Accepted, Resample, LastOf;
    if HasUsableBefore(kept, at) || !HasValid(evicted) {
      BracketAgrees(evicted, kept, at);
      SameBracket(kept, history, at);
    } else {
      DisagreeSomewhere(evicted, kept, at);
    }
  }

  lemma SameBracket(kept: seq<Sample>, history: seq<Sample>, at: nat)
    requires Previous(kept, at) == Previous(history, at) && Next(kept, at) == Next(history, at)
    ensures AlwaysAgree(kept, history, at)
  {
  }

  /** Resampled values have the ring's length, so they fit their slice. */
  lemma ResampledLength(samples: seq<Sample>, length: nat, at: nat, method': Method, maxGap: nat)
    requires Sorted(samples) && Shaped(samples, length)
    ensures Resample(samples, at, method', maxGap).Some? ==> |Resample(samples, at, method', maxGap).value.values| == length
  {
    PreviousIs(samples, at);
    NextIs(samples, at);
  }

  lemma ResampledTimes(samples: seq<Sample>, at: nat, method': Method, maxGap: nat)
    requires Sorted(samples) && Timed(samples) && Resample(samples, at, method', maxGap).Some?
    ensures 0 < Resample(samples, at, method', maxGap).value.previousTime <= Resample(samples, at, method', maxGap).value.nextTime
  {
    PreviousIs(samples, at);
    NextIs(samples, at);
  }

  // ---- The source's object ----

  class SampleRing {
    const capacity: nat
    const vectorLength: nat
    var samples: seq<Sample>

    ghost function State(): Ring
      reads this
    {
      Ring(capacity, vectorLength, samples)
    }

    constructor (capacity: nat, vectorLength: nat)
      requires capacity > 0 && vectorLength > 0
      ensures State() == Ring(capacity, vectorLength, []) && Valid(State())
    {
      this.capacity, this.vectorLength, samples := capacity, vectorLength, [];
    }

    method Insert(sample: Sample) returns (result: Result<(), ContextError>)
      requires Valid(State())
      modifies this
      ensures Valid(State())
      ensures (result, State()) == InsertStep(old(State()), sample)
    {
      if sample.time == 0 || |sample.values| != vectorLength
         || (samples != [] && sample.time <= samples[|samples| - 1].time)
      {
        return Err(InvalidSample);
      }
      if |samples| == capacity {
        samples := samples[1..];
      }
      samples := samples + [sample];
      return Ok(());
    }
  }
}
