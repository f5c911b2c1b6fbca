/**
 * Exactly which embodiments `crates/adapter-client/src/embodiment.rs` compiles, and what
 * each compiled feature is: the one asked for, in order, as its device describes it.
 */
module Compilation {
  import opened Common
  import opened Layout
  import opened Text

  // ---- The length of a shape ----

  function Product(shape: seq<nat>): nat {
    if shape == [] then 1 else Product(shape[..|shape| - 1]) * shape[|shape| - 1]
  }

  /** Every leading part multiplies to a 32-bit number, even one that a later zero would cancel. */
  ghost predicate ShapeFits(shape: seq<nat>) {
    forall k :: 0 <= k <= |shape| ==> Product(shape[..k]) <= U32_MAX
  }

  ghost predicate FitsFrom(shape: seq<nat>, n: nat) {
    forall k :: n < k <= |shape| ==> Product(shape[..k]) <= U32_MAX
  }

  lemma {:induction false} ShapeLengthFrom(shape: seq<nat>, n: nat)
    requires n <= |shape|
    ensures ShapeLength(shape[n..], Product(shape[..n])) == if FitsFrom(shape, n) then Some(Product(shape)) else None
    decreases |shape| - n
  {
    if n == |shape| {
      assert shape[..n] == shape;
    } else {
      var rest := shape[n..];
      assert shape[..n + 1][..n] == shape[..n] && rest[0] == shape[n] && rest[1..] == shape[n + 1..];
      assert Product(shape[..n + 1]) == Product(shape[..n]) * shape[n];
      ShapeLengthFrom(shape, n + 1);
      assert FitsFrom(shape, n) <==> Product(shape[..n + 1]) <= U32_MAX && FitsFrom(shape, n + 1);
    }
  }

  lemma ShapeLengthIs(shape: seq<nat>)
    ensures ShapeLength(shape, 1) == if ShapeFits(shape) then Some(Product(shape)) else None
  {
    ShapeLengthFrom(shape, 0);
    assert shape[0..] == shape && shape[..0] == [];
  }

  // ---- One reference ----

  /** The device is what stands before the first dot of the name. */
  ghost predicate OnDevice(name: Text, device: Text) {
    |device| < |name| && name[..|device|] == device && name[|device|] == '.' && '.' !in device
  }

  lemma SplitIsDevice(name: Text)
    ensures SplitOnce(name, '.').Some? ==> OnDevice(name, SplitOnce(name, '.').value.0)
    ensures forall device: Text :: OnDevice(name, device) ==> SplitOnce(name, '.').Some? && SplitOnce(name, '.').value.0 == device
  {
    forall device: Text | OnDevice(name, device)
      ensures SplitOnce(name, '.').Some? && SplitOnce(name, '.').value.0 == device
    {
      IndexOfSeam(device, '.', name[|device| + 1..]);
      assert name == device + ['.'] + name[|device| + 1..];
    }
  }

  /** The device describes a feature of this name, of a fitting shape. */
  ghost predicate Known(available: Available, name: Text, device: Text) {
    OnDevice(name, device) && (device, name) in available && ShapeFits(available[(device, name)].shape)
  }

  ghost predicate IsKnown(available: Available, name: Text) { exists device :: Known(available, name, device) }

  /** The length of a known feature. */
  ghost function LengthOf(available: Available, name: Text): nat {
    if IsKnown(available, name) then
      var device :| Known(available, name, device);
      Product(available[(device, name)].shape)
    else 0
  }

  /** The feature is the one referred to, as its device describes it. */
  ghost predicate IsFor(f: Feature, kind: Kind, reference: FeatureRef, available: Available) {
    && Known(available, reference.feature, f.deviceId)
    && f.kind == kind && f.required == reference.required
    && var d := available[(f.deviceId, reference.feature)];
       f.featureId == d.featureId && f.name == d.name && f.interpolation == d.interpolation && f.length == Product(d.shape)
  }

  lemma OneDevice(available: Available, name: Text, a: Text, b: Text)
    requires Known(available, name, a) && Known(available, name, b)
    ensures a == b
  {
    SplitIsDevice(name);
  }

  lemma PlaceIs(kind: Kind, reference: FeatureRef, available: Available, p: Partial)
    ensures var name := reference.feature;
            Place(kind, reference, available, p).Ok? <==>
            name !in p.seen && IsKnown(available, name) && p.offset + LengthOf(available, name) <= U32_MAX
    ensures Place(kind, reference, available, p).Ok? ==>
              var next := Place(kind, reference, available, p).value;
              && next.offset == p.offset + LengthOf(available, reference.feature)
              && next.seen == p.seen + {reference.feature}
              && |next.output| == |p.output| + 1 && next.output[..|p.output|] == p.output
              && IsFor(next.output[|p.output|], kind, reference, available)
              && next.output[|p.output|].offset == p.offset
  {
    var name := reference.feature;
    SplitIsDevice(name);
    if SplitOnce(name, '.').Some? {
      var device := SplitOnce(name, '.').value.0;
      if (device, name) in available {
        ShapeLengthIs(available[(device, name)].shape);
        assert Known(available, name, device) <==> ShapeFits(available[(device, name)].shape);
      }
    }
    hide SplitOnce, OnDevice, ShapeFits, ShapeLength;
  }

  // ---- All references of one vector ----

  ghost function Total(refs: seq<FeatureRef>, available: Available): nat {
    if refs == [] then 0 else LengthOf(available, refs[0].feature) + Total(refs[1..], available)
  }

  ghost predicate AllKnown(refs: seq<FeatureRef>, available: Available) {
    forall i :: 0 <= i < |refs| ==> IsKnown(available, refs[i].feature)
  }

  /** No name is asked for twice or has been asked for before. */
  ghost predicate AllNew(refs: seq<FeatureRef>, seen: set<Text>) {
    && (forall i :: 0 <= i < |refs| ==> refs[i].feature !in seen)
    && forall i, j :: 0 <= i < j < |refs| ==> refs[i].feature != refs[j].feature
  }

  ghost function Names(refs: seq<FeatureRef>): set<Text> { set i | 0 <= i < |refs| :: refs[i].feature }

  /** `features` are those referred to, in order, back to back from `offset`. */
  ghost predicate AreFor(
      features: seq<Feature>, kind: Kind, refs: seq<FeatureRef>, available: Available, offset: nat)
  {
    && |features| == |refs|
    && forall i :: 0 <= i < |refs| ==>
         IsFor(features[i], kind, refs[i], available) && features[i].offset == offset + Total(refs[..i], available)
  }

  ghost predicate PlacedFrom(p: Partial, kind: Kind, refs: seq<FeatureRef>, available: Available, next: Partial) {
    && next.offset == p.offset + Total(refs, available) && next.seen == p.seen + Names(refs)
    && p.output <= next.output && AreFor(next.output[|p.output|..], kind, refs, available, p.offset)
  }

  lemma AllNewHead(refs: seq<FeatureRef>, seen: set<Text>)
    requires refs != []
    ensures AllNew(refs, seen) <==> refs[0].feature !in seen && AllNew(refs[1..], seen + {refs[0].feature})
  {
    var head, tail := refs[0].feature, refs[1..];
    assert forall i :: 0 <= i < |tail| ==> tail[i] == refs[i + 1];
    if head !in seen && AllNew(tail, seen + {head}) {
      forall i, j | 0 <= i < j < |refs|
        ensures refs[i].feature != refs[j].feature
      {
        assert refs[j] == tail[j - 1];
        if i > 0 { assert refs[i] == tail[i - 1]; }
      }
      forall i | 0 <= i < |refs|
        ensures refs[i].feature !in seen
      {
        if i > 0 { assert refs[i] == tail[i - 1]; }
      }
    }
    if AllNew(refs, seen) {
      forall i | 0 <= i < |tail|
        ensures tail[i].feature !in seen + {head}
      {
        assert refs[0].feature != refs[i + 1].feature;
      }
    }
  }

  lemma AllKnownHead(refs: seq<FeatureRef>, available: Available)
    requires refs != []
    ensures AllKnown(refs, available) <==> IsKnown(available, refs[0].feature) && AllKnown(refs[1..], available)
  {
    hide IsKnown;
    assert forall i :: 0 <= i < |refs[1..]| ==> refs[1..][i] == refs[i + 1];
    assert forall i :: 0 < i < |refs| ==> refs[i] == refs[1..][i - 1];
  }

  lemma PlacedHead(p: Partial, kind: Kind, refs: seq<FeatureRef>, available: Available, first: Partial, next: Partial)
    requires refs != [] && PlacedFrom(first, kind, refs[1..], available, next)
    requires first.offset == p.offset + LengthOf(available, refs[0].feature) && first.seen == p.seen + {refs[0].feature}
    requires |first.output| == |p.output| + 1 && first.output[..|p.output|] == p.output
    requires IsFor(first.output[|p.output|], kind, refs[0], available) && first.output[|p.output|].offset == p.offset
    ensures PlacedFrom(p, kind, refs, available, next)
  {
    hide IsFor, LengthOf;
    var tail, n := refs[1..], |p.output|;
    assert Names(refs) == {refs[0].feature} + Names(tail) by {
      assert forall i :: 0 <= i < |tail| ==> tail[i] == refs[i + 1];
      assert forall i :: 0 < i < |refs| ==> refs[i] == tail[i - 1];
    }
    forall i | 0 <= i < |refs|
      ensures IsFor(next.output[n..][i], kind, refs[i], available)
      ensures next.output[n..][i].offset == p.offset + Total(refs[..i], available)
    {
      if i == 0 {
        assert next.output[n] == first.output[n];
      } else {
        assert refs[..i][1..] == tail[..i - 1] && refs[..i][0] == refs[0];
        assert next.output[n..][i] == next.output[|first.output|..][i - 1];
      }
    }
  }

  /** One vector: placed exactly when its names are new and known and its lengths fit, and then as asked. */
  lemma {:induction false} PlaceAllIs(kind: Kind, refs: seq<FeatureRef>, available: Available, p: Partial)
    requires p.offset <= U32_MAX
    ensures PlaceAll(kind, refs, available, p).Ok? <==>
            AllNew(refs, p.seen) && AllKnown(refs, available) && p.offset + Total(refs, available) <= U32_MAX
    ensures PlaceAll(kind, refs, available, p).Ok? ==>
              PlacedFrom(p, kind, refs, available, PlaceAll(kind, refs, available, p).value)
    decreases |refs|
  {
    hide IsKnown, LengthOf, IsFor, Place, AllNew, AllKnown, PlacedFrom;
    if refs == [] {
      NothingAsked(kind, available, p);
    } else {
      PlaceIs(kind, refs[0], available, p);
      AllNewHead(refs, p.seen);
      AllKnownHead(refs, available);
      if Place(kind, refs[0], available, p).Ok? {
        var first := Place(kind, refs[0], available, p).value;
        PlaceAllIs(kind, refs[1..], available, first);
        if PlaceAll(kind, refs, available, p).Ok? {
          PlacedHead(p, kind, refs, available, first, PlaceAll(kind, refs, available, p).value);
        }
      }
    }
  }

  lemma NothingAsked(kind: Kind, available: Available, p: Partial)
    ensures AllNew([], p.seen) && AllKnown([], available) && PlacedFrom(p, kind, [], available, p)
  {
    assert p.seen + Names([]) == p.seen;
  }

  // ---- The whole layout ----

  /** All names known and different, and each vector within 32 bits. */
  ghost predicate Compilable(layout: VectorLayout, available: Available) {
    var (o, a, x) := (layout.observation, layout.action, layout.auxiliary);
    && AllKnown(o, available) && AllKnown(a, available) && AllKnown(x, available)
    && AllNew(o + a + x, {})
    && Total(o, available) <= U32_MAX && Total(a, available) <= U32_MAX && Total(x, available) <= U32_MAX
  }

  /** The features of the three vectors one after the other, each as asked for. */
  ghost predicate IsLayout(features: seq<Feature>, layout: VectorLayout, available: Available) {
    var o, a, x := |layout.observation|, |layout.action|, |layout.auxiliary|;
    && |features| == o + a + x
    && AreFor(features[..o], Observation, layout.observation, available, 0)
    && AreFor(features[o..o + a], Action, layout.action, available, 0)
    && AreFor(features[o + a..], Auxiliary, layout.auxiliary, available, 0)
  }

  lemma AllNewSplits(a: seq<FeatureRef>, b: seq<FeatureRef>, seen: set<Text>)
    ensures AllNew(a + b, seen) <==> AllNew(a, seen) && AllNew(b, seen + Names(a))
  {
    var all := a + b;
    assert forall i :: 0 <= i < |a| ==> all[i] == a[i];
    assert forall i :: 0 <= i < |b| ==> all[|a| + i] == b[i];
    if AllNew(all, seen) {
      forall i, k | 0 <= i < |b| && 0 <= k < |a|
        ensures b[i].feature != a[k].feature
      {
        assert all[k].feature != all[|a| + i].feature;
      }
      forall i, j | 0 <= i < j < |b|
        ensures b[i].feature != b[j].feature
      {
        assert all[|a| + i].feature != all[|a| + j].feature;
      }
    }
    if AllNew(a, seen) && AllNew(b, seen + Names(a)) {
      forall i, j | 0 <= i < j < |all|
        ensures all[i].feature != all[j].feature
      {
        if i < |a| <= j {
          assert all[i].feature in Names(a) && all[j] == b[j - |a|];
        } else if |a| <= i {
          assert all[i] == b[i - |a|] && all[j] == b[j - |a|];
        }
      }
      forall i | 0 <= i < |all|
        ensures all[i].feature !in seen
      {
        if i >= |a| { assert all[i] == b[i - |a|]; }
      }
    }
  }

  lemma NamesOfBoth(a: seq<FeatureRef>, b: seq<FeatureRef>)
    ensures Names(a + b) == Names(a) + Names(b)
  {
    var all := a + b;
    assert forall i :: 0 <= i < |a| ==> all[i] == a[i];
    assert forall i :: 0 <= i < |b| ==> all[|a| + i] == b[i];
  }

  /** The three vectors are placed exactly when the layout is compilable, and then as asked. */
  lemma VectorsPlaced(layout: VectorLayout, available: Available)
    ensures var first := PlaceAll(Observation, layout.observation, available, Partial(0, {}, []));
            var second := if first.Ok? then PlaceAll(Action, layout.action, available, first.value.(offset := 0)) else first;
            var third := if second.Ok? then PlaceAll(Auxiliary, layout.auxiliary, available, second.value.(offset := 0)) else second;
            && (third.Ok? <==> Compilable(layout, available))
            && (third.Ok? ==>
                  && first.value.offset == Total(layout.observation, available)
                  && second.value.offset == Total(layout.action, available)
                  && third.value.offset == Total(layout.auxiliary, available)
                  && IsLayout(third.value.output, layout, available))
  {
    hide PlaceAll, AllNew, AllKnown, Total, AreFor, Names;
    var o, a, x := layout.observation, layout.action, layout.auxiliary;
    var start := Partial(0, {}, []);
    PlaceAllIs(Observation, o, available, start);
    AllNewSplits(o + a, x, {});
    AllNewSplits(o, a, {});
    NamesOfBoth(o, a);
    assert {} + Names(o) == Names(o) && {} + Names(o + a) == Names(o + a);
    var first := PlaceAll(Observation, o, available, start);
    if first.Ok? {
      PlaceAllIs(Action, a, available, first.value.(offset := 0));
      var second := PlaceAll(Action, a, available, first.value.(offset := 0));
      if second.Ok? {
        PlaceAllIs(Auxiliary, x, available, second.value.(offset := 0));
        var third := PlaceAll(Auxiliary, x, available, second.value.(offset := 0));
        if third.Ok? {
          ThreeParts(first.value.output, second.value.output, third.value.output, layout, available);
        }
      }
    }
  }

  lemma ThreeParts(
      first: seq<Feature>, second: seq<Feature>, third: seq<Feature>, layout: VectorLayout, available: Available)
    requires first <= second <= third
    requires AreFor(first, Observation, layout.observation, available, 0)
    requires AreFor(second[|first|..], Action, layout.action, available, 0)
    requires AreFor(third[|second|..], Auxiliary, layout.auxiliary, available, 0)
    ensures IsLayout(third, layout, available)
  {
    hide IsFor, Total;
    var o, a := |layout.observation|, |layout.action|;
    assert third[..o] == first && third[o..o + a] == second[|first|..] && third[o + a..] == third[|second|..];
  }

  lemma TailSlice(features: seq<Feature>, from: nat, to: nat)
    requires 0 < from <= to <= |features|
    ensures features[1..][from - 1..to - 1] == features[from..to]
  {
  }

  lemma {:induction false} OneKind(features: seq<Feature>, kind: Kind, from: nat, to: nat)
    requires from <= to <= |features|
    requires forall i :: 0 <= i < |features| ==> (features[i].kind == kind <==> from <= i < to)
    ensures OfKind(features, kind) == features[from..to]
    decreases |features|
  {
    if features != [] {
      var tail := features[1..];
      if from == 0 < to {
        OneKind(tail, kind, 0, to - 1);
        assert features[0..to] == [features[0]] + tail[0..to - 1];
      } else if from == 0 {
        OneKind(tail, kind, 0, 0);
        assert features[from..to] == [] && tail[0..0] == [];
      } else {
        OneKind(tail, kind, from - 1, to - 1);
        TailSlice(features, from, to);
      }
    }
  }

  lemma KindsOfLayout(features: seq<Feature>, layout: VectorLayout, available: Available)
    requires IsLayout(features, layout, available)
    ensures var o, a := |layout.observation|, |layout.action|;
            OfKind(features, Observation) == features[..o] && OfKind(features, Action) == features[o..o + a]
  {
    hide OfKind, Total;
    var o, a, x := |layout.observation|, |layout.action|, |layout.auxiliary|;
    forall i | 0 <= i < |features|
      ensures features[i].kind == if i < o then Observation else if i < o + a then Action else Auxiliary
    {
      if i < o {
        assert IsFor(features[..o][i], Observation, layout.observation[i], available);
      } else if i < o + a {
        assert IsFor(features[o..o + a][i - o], Action, layout.action[i - o], available);
      } else {
        assert IsFor(features[o + a..][i - o - a], Auxiliary, layout.auxiliary[i - o - a], available);
      }
    }
    OneKind(features, Observation, 0, o);
    OneKind(features, Action, o, o + a);
  }

  /**
   * A layout compiles exactly when every name is known and asked for once, each vector fits
   * 32 bits and the schema ids can be made; and then its features are those asked for, in
   * order, each as its device describes it and behind the ones before it in its vector.
   */
  lemma CompilesExactlyWhen(layout: VectorLayout, available: Available, schemaId: SchemaId)
    ensures var o, a := |layout.observation|, |layout.action|;
            var compiled := Compile(layout, available, schemaId);
            && (compiled.Ok? ==>
                  && IsLayout(compiled.value.features, layout, available)
                  && compiled.value.observationLength == Total(layout.observation, available)
                  && compiled.value.actionLength == Total(layout.action, available)
                  && compiled.value.auxiliaryLength == Total(layout.auxiliary, available)
                  && schemaId(compiled.value.features[..o]) == Some(compiled.value.observationSchemaId)
                  && schemaId(compiled.value.features[o..o + a]) == Some(compiled.value.actionSchemaId))
            && (compiled.Ok? <==>
                  && Compilable(layout, available)
                  && exists features: seq<Feature> :: IsLayout(features, layout, available)
                       && schemaId(features[..o]).Some? && schemaId(features[o..o + a]).Some?)
  {
    hide PlaceAll, AllNew, AllKnown, Total, AreFor, OfKind;
    VectorsPlaced(layout, available);
    if Compilable(layout, available) {
      var first := PlaceAll(Observation, layout.observation, available, Partial(0, {}, [])).value;
      var second := PlaceAll(Action, layout.action, available, first.(offset := 0)).value;
      var made := PlaceAll(Auxiliary, layout.auxiliary, available, second.(offset := 0)).value.output;
      KindsOfLayout(made, layout, available);
      forall features | IsLayout(features, layout, available)
        ensures features == made
      {
        OneLayout(features, made, layout, available);
      }
    }
  }

  lemma SameFeatures(
      one: seq<Feature>, two: seq<Feature>, kind: Kind, refs: seq<FeatureRef>, available: Available)
    requires AreFor(one, kind, refs, available, 0) && AreFor(two, kind, refs, available, 0)
    ensures one == two
  {
    forall i | 0 <= i < |refs|
      ensures one[i] == two[i]
    {
      OneDevice(available, refs[i].feature, one[i].deviceId, two[i].deviceId);
    }
  }

  /** There is only one such layout. */
  lemma OneLayout(one: seq<Feature>, two: seq<Feature>, layout: VectorLayout, available: Available)
    requires IsLayout(one, layout, available) && IsLayout(two, layout, available)
    ensures one == two
  {
    hide AreFor;
    var o, a := |layout.observation|, |layout.action|;
    SameFeatures(one[..o], two[..o], Observation, layout.observation, available);
    SameFeatures(one[o..o + a], two[o..o + a], Action, layout.action, available);
    SameFeatures(one[o + a..], two[o + a..], Auxiliary, layout.auxiliary, available);
    assert one == one[..o] + one[o..o + a] + one[o + a..];
    assert two == two[..o] + two[o..o + a] + two[o + a..];
  }
}
