/**
 * What a named feature of the relay is, from the samples pushed for it alone: the rings of
 * `crates/edge-core/src/context.rs` over every run of pushes, and the four ways to resample.
 */
module FeatureRuns {
  import opened Common
  import opened Context
  import opened FeatureRing
  import opened Layout

  // ---- What a ring holds ----

  /** A ring takes a sample exactly when it has a time, the ring's length and is later than all it has taken. */
  lemma TakenExactlyWhen(r: Ring, inserts: seq<Sample>, s: Sample)
    requires r.capacity > 0 && r.vectorLength > 0 && r.samples == []
    ensures var accepted := Accepted(r, inserts);
            var (answer, next) := InsertStep(InsertAll(r, inserts), s);
            && (answer.Ok? <==> s.time != 0 && |s.values| == r.vectorLength
                                && forall i :: 0 <= i < |accepted| ==> accepted[i].time < s.time)
            && (answer.Err? ==> answer == Err(InvalidSample) && next == InsertAll(r, inserts))
            && Accepted(r, inserts + [s]) == (if answer.Ok? then accepted + [s] else accepted)
            && next == InsertAll(r, inserts + [s])
  {
    RingIsSuffix(r, inserts);
    assert (inserts + [s])[..|inserts|] == inserts;
    var ring, accepted := InsertAll(r, inserts), Accepted(r, inserts);
    assert accepted + [] == accepted;
    hide InsertAll, Accepted;
    assert ring.vectorLength == r.vectorLength;
    NewestIsLatest(ring, accepted, s);
  }

  lemma NewestIsLatest(ring: Ring, accepted: seq<Sample>, s: Sample)
    requires Holds(ring, accepted) && ring.capacity > 0
    ensures (ring.samples != [] ==> ring.samples[|ring.samples| - 1].time < s.time) <==>
            forall i :: 0 <= i < |accepted| ==> accepted[i].time < s.time
  {
    if accepted != [] {
      assert ring.samples[|ring.samples| - 1] == accepted[|accepted| - 1];
    }
  }

  /** The samples pushed for one feature, in order. */
  function PushedTo(pushes: seq<(nat, Sample)>, id: nat): seq<Sample> {
    if pushes == [] then []
    else
      var last := |pushes| - 1;
      PushedTo(pushes[..last], id) + (if pushes[last].0 == id then [pushes[last].1] else [])
  }

  lemma {:induction false} RingAfterPushes(rings: Rings, pushes: seq<(nat, Sample)>, id: nat)
    ensures id in PushAll(rings, pushes) <==> id in rings
    ensures id in rings ==> PushAll(rings, pushes)[id] == InsertAll(rings[id], PushedTo(pushes, id))
    decreases |pushes|
  {
    hide InsertStep;
    if pushes != [] {
      var last := |pushes| - 1;
      RingAfterPushes(rings, pushes[..last], id);
      if id in rings && pushes[last].0 == id {
        var samples := PushedTo(pushes[..last], id);
        assert (samples + [pushes[last].1])[..|samples|] == samples;
      } else {
        assert PushedTo(pushes[..last], id) + [] == PushedTo(pushes[..last], id);
      }
    }
  }

  lemma {:induction false} RingAtStart(features: seq<Feature>, capacity: nat, i: nat)
    requires DistinctIds(features) && NewRings(features, capacity).Ok? && i < |features|
    ensures var rings := NewRings(features, capacity).value;
            && capacity > 0 && features[i].length > 0 && features[i].featureId in rings
            && rings[features[i].featureId] == Ring(capacity, features[i].length, [])
  {
    var last := |features| - 1;
    if i < last {
      assert features[i] == features[..last][i];
      RingAtStart(features[..last], capacity, i);
    }
  }

  /**
   * On every run of pushes, a feature's ring holds the newest `capacity` of the samples it
   * has taken from those pushed for this feature.
   */
  lemma RingOnEveryRun(features: seq<Feature>, capacity: nat, pushes: seq<(nat, Sample)>, i: nat)
    requires DistinctIds(features) && NewRings(features, capacity).Ok? && i < |features|
    ensures var rings, f := PushAll(NewRings(features, capacity).value, pushes), features[i];
            var empty := Ring(capacity, f.length, []);
            && f.featureId in rings
            && rings[f.featureId].samples == LastOf(Accepted(empty, PushedTo(pushes, f.featureId)), capacity)
            && Sorted(rings[f.featureId].samples)
  {
    var rings, f := NewRings(features, capacity).value, features[i];
    hide NewRings, PushAll, InsertAll, Accepted, PushedTo;
    RingAtStart(features, capacity, i);
    RingAfterPushes(rings, pushes, f.featureId);
    RingIsSuffix(Ring(capacity, f.length, []), PushedTo(pushes, f.featureId));
  }

  // ---- What the wire number of an interpolation method means ----

  ghost predicate NoneBefore(samples: seq<Sample>, at: nat) { forall s :: !IsLatest(samples, at, s) }

  ghost predicate NoneAfter(samples: seq<Sample>, at: nat) { forall s :: !IsEarliest(samples, at, s) }

  /** 1: on the straight line between the two neighbours. */
  ghost predicate IsLinear(r: Option<Resampled>, samples: seq<Sample>, at: nat, maxGap: nat) {
    && (NoneBefore(samples, at) || NoneAfter(samples, at) ==> r.None?)
    && forall left, right :: IsLatest(samples, at, left) && IsEarliest(samples, at, right) ==> OnTheLine(r, left, right, at, maxGap)
  }

  /** 2: the sample before, held. */
  ghost predicate IsHold(r: Option<Resampled>, samples: seq<Sample>, at: nat, maxGap: nat) {
    && (NoneBefore(samples, at) ==> r.None?)
    && forall left :: IsLatest(samples, at, left) ==> TheSample(r, left, at, maxGap)
  }

  /** 3: the nearer neighbour, the earlier one on a tie. */
  ghost predicate IsNearest(r: Option<Resampled>, samples: seq<Sample>, at: nat, maxGap: nat) {
    && (NoneBefore(samples, at) && NoneAfter(samples, at) ==> r.None?)
    && (forall left :: IsLatest(samples, at, left) && NoneAfter(samples, at) ==> TheSample(r, left, at, maxGap))
    && (forall right :: IsEarliest(samples, at, right) && NoneBefore(samples, at) ==> TheSample(r, right, at, maxGap))
    && (forall left, right :: IsLatest(samples, at, left) && IsEarliest(samples, at, right) ==>
          TheSample(r, if at - left.time <= right.time - at then left else right, at, maxGap))
  }

  /** 4: the sample at exactly this time. */
  ghost predicate IsExact(r: Option<Resampled>, samples: seq<Sample>, at: nat) {
    && (r.Some? <==> exists s :: s in samples && s.valid && s.time == at)
    && forall s :: s in samples && s.valid && s.time == at ==> r == Some(Resampled(s.values, at, at, 0.0))
  }

  lemma LinearIs(samples: seq<Sample>, at: nat, maxGap: nat)
    requires Sorted(samples)
    ensures IsLinear(Resample(samples, at, Linear, maxGap), samples, at, maxGap)
  {
    hide Resample, OnTheLine, TheSample, IsLatest, IsEarliest;
    BeforeSamples(samples, at, maxGap);
    forall left | IsLatest(samples, at, left)
      ensures NoneAfter(samples, at) ==> Resample(samples, at, Linear, maxGap).None?
      ensures forall right :: IsEarliest(samples, at, right) ==> OnTheLine(Resample(samples, at, Linear, maxGap), left, right, at, maxGap)
    {
      AfterSample(samples, left, at, maxGap);
      forall right | IsEarliest(samples, at, right)
        ensures OnTheLine(Resample(samples, at, Linear, maxGap), left, right, at, maxGap)
      {
        BetweenNeighbours(samples, left, right, at, maxGap);
      }
    }
  }

  lemma HoldIs(samples: seq<Sample>, at: nat, maxGap: nat)
    requires Sorted(samples)
    ensures IsHold(Resample(samples, at, ZeroOrderHold, maxGap), samples, at, maxGap)
  {
    hide Resample, TheSample, IsLatest, IsEarliest;
    BeforeSamples(samples, at, maxGap);
    forall left | IsLatest(samples, at, left)
      ensures TheSample(Resample(samples, at, ZeroOrderHold, maxGap), left, at, maxGap)
    {
      AfterSample(samples, left, at, maxGap);
    }
  }

  lemma NearestIs(samples: seq<Sample>, at: nat, maxGap: nat)
    requires Sorted(samples)
    ensures IsNearest(Resample(samples, at, Nearest, maxGap), samples, at, maxGap)
  {
    hide Resample, OnTheLine, TheSample, IsLatest, IsEarliest;
    BeforeSamples(samples, at, maxGap);
    forall left | IsLatest(samples, at, left)
      ensures NoneAfter(samples, at) ==> TheSample(Resample(samples, at, Nearest, maxGap), left, at, maxGap)
    {
      AfterSample(samples, left, at, maxGap);
    }
    forall left, right | IsLatest(samples, at, left) && IsEarliest(samples, at, right)
      ensures TheSample(Resample(samples, at, Nearest, maxGap),
                        if at - left.time <= right.time - at then left else right, at, maxGap)
    {
      BetweenNeighbours(samples, left, right, at, maxGap);
    }
  }

  lemma ExactIs(samples: seq<Sample>, at: nat, maxGap: nat)
    requires Sorted(samples)
    ensures IsExact(Resample(samples, at, Exact, maxGap), samples, at)
  {
    var r := Resample(samples, at, Exact, maxGap);
    hide Resample;
    BeforeSamples(samples, at, maxGap);
    forall left | IsLatest(samples, at, left)
      ensures r == if left.time == at then Some(Resampled(left.values, left.time, left.time, 0.0)) else None
    {
      AfterSample(samples, left, at, maxGap);
    }
    forall s | s in samples && s.valid && s.time == at
      ensures IsLatest(samples, at, s)
    {
    }
    if r.Some? {
      var left :| IsLatest(samples, at, left);
    }
  }

  /** The value of a feature, by the number of its interpolation method; any other number gives none. */
  lemma ValueByNumber(f: Feature, rings: Rings, at: nat, maxGap: nat)
    requires f.featureId in rings && Sorted(rings[f.featureId].samples)
    ensures var samples, r := rings[f.featureId].samples, ValueOf(f, rings, at, maxGap);
            if f.interpolation == 1 then IsLinear(r, samples, at, maxGap)
            else if f.interpolation == 2 then IsHold(r, samples, at, maxGap)
            else if f.interpolation == 3 then IsNearest(r, samples, at, maxGap)
            else if f.interpolation == 4 then IsExact(r, samples, at)
            else r.None?
  {
    var samples := rings[f.featureId].samples;
    hide Resample, Sorted, IsLinear, IsHold, IsNearest, IsExact;
    LinearIs(samples, at, maxGap);
    HoldIs(samples, at, maxGap);
    NearestIs(samples, at, maxGap);
    ExactIs(samples, at, maxGap);
    BeforeSamples(samples, at, maxGap);
  }
}
