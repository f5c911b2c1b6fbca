/**
 * The embodiment's vector layout, `compile` and `compile_vector` of
 * `crates/adapter-client/src/embodiment.rs`, against the Receiver's `validate_layout`.
 */
module Layout {
  import opened Common
  import opened SessionManifest
  import opened Text

  datatype Kind = Observation | Action | Auxiliary {
    /** The protobuf number of the kind. */
    function Wire(): int { if Observation? then 1 else if Action? then 2 else 3 }
  }

  datatype Descriptor = Descriptor(featureId: nat, name: Text, shape: seq<nat>, interpolation: int)
  datatype DeviceDescriptor = DeviceDescriptor(deviceId: Text, features: seq<Descriptor>)
  datatype DeviceRef = DeviceRef(deviceId: Text, adapterId: Text)
  datatype FeatureRef = FeatureRef(feature: Text, required: bool)
  datatype VectorLayout = VectorLayout(observation: seq<FeatureRef>, action: seq<FeatureRef>, auxiliary: seq<FeatureRef>)

  datatype Feature = Feature(
    featureId: nat, name: Text, deviceId: Text, kind: Kind, offset: nat, length: nat, required: bool, interpolation: int)

  datatype Compiled = Compiled(
    features: seq<Feature>, observationLength: nat, actionLength: nat, auxiliaryLength: nat,
    observationSchemaId: nat, actionSchemaId: nat)

  datatype EmbodimentError =
    | MissingAdapter(adapter: Text) | MissingDevice(device: Text) | BadFeature(name: Text)
    | LengthOverflow | SchemaIdFailed

  /** Features by device and qualified name. */
  type Available = map<(Text, Text), Descriptor>

  /** The schema id of the features of one kind: canonical JSON and SHA-256, or a failure. */
  type SchemaId = seq<Feature> -> Option<nat>

  // ---- Which features there are ----

  function FindDevice(devices: seq<DeviceDescriptor>, id: Text): Option<DeviceDescriptor> {
    if devices == [] then None
    else if devices[0].deviceId == id then Some(devices[0])
    else FindDevice(devices[1..], id)
  }

  function AddFeatures(available: Available, deviceId: Text, features: seq<Descriptor>): Available
    decreases |features|
  {
    if features == [] then available
    else AddFeatures(available[(deviceId, features[0].name) := features[0]], deviceId, features[1..])
  }

  function Gather(devices: seq<DeviceRef>, descriptors: map<Text, seq<DeviceDescriptor>>, available: Available)
    : Result<Available, EmbodimentError>
    decreases |devices|
  {
    if devices == [] then Ok(available)
    else
      var device := devices[0];
      if device.adapterId !in descriptors then Err(MissingAdapter(device.adapterId))
      else
        match FindDevice(descriptors[device.adapterId], device.deviceId)
        case None => Err(MissingDevice(device.deviceId))
        case Some(found) => Gather(devices[1..], descriptors, AddFeatures(available, device.deviceId, found.features))
  }

  /** A feature is filed under its own name. */
  ghost predicate Filed(available: Available) {
    forall key :: key in available ==> available[key].name == key.1
  }

  /** The first descriptor of the device is number `k`. */
  ghost predicate FoundAt(devices: seq<DeviceDescriptor>, id: Text, k: nat) {
    k < |devices| && devices[k].deviceId == id && forall j :: 0 <= j < k ==> devices[j].deviceId != id
  }

  lemma {:induction false} FindDeviceIs(devices: seq<DeviceDescriptor>, id: Text)
    ensures forall k: nat :: FoundAt(devices, id, k) ==> FindDevice(devices, id) == Some(devices[k])
    ensures FindDevice(devices, id).Some? <==> exists k: nat :: FoundAt(devices, id, k)
  {
    if devices != [] {
      if devices[0].deviceId == id {
        assert FoundAt(devices, id, 0);
      } else {
        var tail := devices[1..];
        FindDeviceIs(tail, id);
        forall k: nat | FoundAt(devices, id, k)
          ensures FoundAt(tail, id, k - 1)
        {
        }
        forall k: nat | FoundAt(tail, id, k)
          ensures FoundAt(devices, id, k + 1)
        {
        }
      }
    }
  }

  /** The adapter of a device reference is known and describes the device. */
  ghost predicate IsDescribed(device: DeviceRef, descriptors: map<Text, seq<DeviceDescriptor>>) {
    device.adapterId in descriptors && exists k: nat :: FoundAt(descriptors[device.adapterId], device.deviceId, k)
  }

  /** Gathering succeeds exactly when every device is described, and otherwise names what the first one misses. */
  lemma {:induction false} GathersExactlyWhen(
      devices: seq<DeviceRef>, descriptors: map<Text, seq<DeviceDescriptor>>, available: Available)
    ensures Gather(devices, descriptors, available).Ok? <==>
            forall i :: 0 <= i < |devices| ==> IsDescribed(devices[i], descriptors)
    ensures forall i :: 0 <= i < |devices| && !IsDescribed(devices[i], descriptors)
                        && (forall j :: 0 <= j < i ==> IsDescribed(devices[j], descriptors)) ==>
              Gather(devices, descriptors, available) ==
              Err(if devices[i].adapterId !in descriptors then MissingAdapter(devices[i].adapterId)
                  else MissingDevice(devices[i].deviceId))
    decreases |devices|
  {
    if devices != [] {
      var first, tail := devices[0], devices[1..];
      if first.adapterId in descriptors {
        FindDeviceIs(descriptors[first.adapterId], first.deviceId);
      }
      if IsDescribed(first, descriptors) {
        var found := FindDevice(descriptors[first.adapterId], first.deviceId).value;
        var next := AddFeatures(available, first.deviceId, found.features);
        GathersExactlyWhen(tail, descriptors, next);
        assert Gather(devices, descriptors, available) == Gather(tail, descriptors, next);
        hide Gather, IsDescribed;
        assert forall i :: 0 <= i < |tail| ==> tail[i] == devices[i + 1];
        forall i | 0 <= i < |devices| && !IsDescribed(devices[i], descriptors)
                   && (forall j :: 0 <= j < i ==> IsDescribed(devices[j], descriptors))
          ensures Gather(devices, descriptors, available) ==
                  Err(if devices[i].adapterId !in descriptors then MissingAdapter(devices[i].adapterId)
                      else MissingDevice(devices[i].deviceId))
        {
          assert devices[i] == tail[i - 1];
          assert forall j :: 0 <= j < i - 1 ==> tail[j] == devices[j + 1];
        }
        if forall i :: 0 <= i < |tail| ==> IsDescribed(tail[i], descriptors) {
          assert forall i :: 0 < i < |devices| ==> devices[i] == tail[i - 1];
        }
      }
    }
  }

  /** The adapter of device reference `i` describes the device with feature `d`. */
  ghost predicate Describes(
      devices: seq<DeviceRef>, descriptors: map<Text, seq<DeviceDescriptor>>, i: nat, d: Descriptor)
    requires i < |devices|
  {
    && devices[i].adapterId in descriptors
    && var described := descriptors[devices[i].adapterId];
       exists k: nat :: FoundAt(described, devices[i].deviceId, k) && d in described[k].features
  }

  lemma {:induction false} AddFeaturesFiles(available: Available, deviceId: Text, features: seq<Descriptor>, key: (Text, Text))
    ensures key in AddFeatures(available, deviceId, features) <==>
            key in available || (key.0 == deviceId && exists f :: f in features && f.name == key.1)
    ensures key in AddFeatures(available, deviceId, features) ==>
              var d := AddFeatures(available, deviceId, features)[key];
              (key in available && d == available[key]) || (key.0 == deviceId && d in features && d.name == key.1)
    decreases |features|
  {
    if features != [] {
      AddFeaturesFiles(available[(deviceId, features[0].name) := features[0]], deviceId, features[1..], key);
      assert forall f :: f in features <==> f == features[0] || f in features[1..];
    }
  }

  /** A gathered feature of `key` comes from a device reference of that id, under its own name. */
  ghost predicate Comes(
      devices: seq<DeviceRef>, descriptors: map<Text, seq<DeviceDescriptor>>, key: (Text, Text), d: Descriptor)
  {
    exists i :: 0 <= i < |devices| && devices[i].deviceId == key.0 && Describes(devices, descriptors, i, d) && d.name == key.1
  }

  lemma ComesLater(devices: seq<DeviceRef>, descriptors: map<Text, seq<DeviceDescriptor>>, key: (Text, Text), d: Descriptor)
    requires devices != [] && Comes(devices[1..], descriptors, key, d)
    ensures Comes(devices, descriptors, key, d)
  {
    var i :| 0 <= i < |devices[1..]| && devices[1..][i].deviceId == key.0 && Describes(devices[1..], descriptors, i, d)
             && d.name == key.1;
    assert Describes(devices, descriptors, i + 1, d);
  }

  /** A key stays available, and a new one comes from a device reference. */
  lemma {:induction false} GatherFrom(
      devices: seq<DeviceRef>, descriptors: map<Text, seq<DeviceDescriptor>>, available: Available, key: (Text, Text))
    requires Gather(devices, descriptors, available).Ok?
    ensures var gathered := Gather(devices, descriptors, available).value;
            && (key in available ==> key in gathered)
            && (key in gathered ==>
                  (key in available && gathered[key] == available[key]) || Comes(devices, descriptors, key, gathered[key]))
    decreases |devices|
  {
    if devices != [] {
      var found := FindDevice(descriptors[devices[0].adapterId], devices[0].deviceId).value;
      var next := AddFeatures(available, devices[0].deviceId, found.features);
      FindDeviceIs(descriptors[devices[0].adapterId], devices[0].deviceId);
      AddFeaturesFiles(available, devices[0].deviceId, found.features, key);
      GatherFrom(devices[1..], descriptors, next, key);
      var gathered := Gather(devices, descriptors, available).value;
      if key in gathered {
        if Comes(devices[1..], descriptors, key, gathered[key]) {
          ComesLater(devices, descriptors, key, gathered[key]);
        } else if !(key in available && gathered[key] == available[key]) {
          assert Describes(devices, descriptors, 0, gathered[key]);
        }
      }
    }
  }

  lemma {:induction false} GatherAll(
      devices: seq<DeviceRef>, descriptors: map<Text, seq<DeviceDescriptor>>, available: Available, i: nat, d: Descriptor)
    requires Gather(devices, descriptors, available).Ok? && i < |devices| && Describes(devices, descriptors, i, d)
    ensures (devices[i].deviceId, d.name) in Gather(devices, descriptors, available).value
    decreases |devices|
  {
    var key := (devices[i].deviceId, d.name);
    var found := FindDevice(descriptors[devices[0].adapterId], devices[0].deviceId).value;
    var next := AddFeatures(available, devices[0].deviceId, found.features);
    if i == 0 {
      FindDeviceIs(descriptors[devices[0].adapterId], devices[0].deviceId);
      AddFeaturesFiles(available, devices[0].deviceId, found.features, key);
      GatherFrom(devices[1..], descriptors, next, key);
    } else {
      assert Describes(devices[1..], descriptors, i - 1, d);
      GatherAll(devices[1..], descriptors, next, i - 1, d);
    }
  }

  /**
   * What `compile` gathers: exactly the features that the adapters describe for the listed
   * devices, each under its device and its own name.
   */
  lemma GatherFiled(devices: seq<DeviceRef>, descriptors: map<Text, seq<DeviceDescriptor>>)
    requires Gather(devices, descriptors, map[]).Ok?
    ensures var gathered := Gather(devices, descriptors, map[]).value;
            && Filed(gathered)
            && (forall key :: key in gathered ==> Comes(devices, descriptors, key, gathered[key]))
            && forall i, d :: 0 <= i < |devices| && Describes(devices, descriptors, i, d) ==>
                 (devices[i].deviceId, d.name) in gathered
  {
    var gathered := Gather(devices, descriptors, map[]).value;
    forall key | key in gathered
      ensures Comes(devices, descriptors, key, gathered[key])
    {
      GatherFrom(devices, descriptors, map[], key);
    }
    forall i, d | 0 <= i < |devices| && Describes(devices, descriptors, i, d)
      ensures (devices[i].deviceId, d.name) in gathered
    {
      GatherAll(devices, descriptors, map[], i, d);
    }
  }

  // ---- Laying out one vector ----

  /** The product of a shape, unless it leaves `u32` on the way. */
  function ShapeLength(shape: seq<nat>, product: nat): Option<nat> {
    if shape == [] then Some(product)
    else if product * shape[0] > U32_MAX then None
    else ShapeLength(shape[1..], product * shape[0])
  }

  /** The running state of `compile_vector`. */
  datatype Partial = Partial(offset: nat, seen: set<Text>, output: seq<Feature>)

  function Place(kind: Kind, reference: FeatureRef, available: Available, p: Partial): Result<Partial, EmbodimentError> {
    if reference.feature in p.seen then Err(BadFeature(reference.feature))
    else
      match SplitOnce(reference.feature, '.')
      case None => Err(BadFeature(reference.feature))
      case Some((deviceId, _)) =>
        if (deviceId, reference.feature) !in available then Err(BadFeature(reference.feature))
        else
          var d := available[(deviceId, reference.feature)];
          match ShapeLength(d.shape, 1)
          case None => Err(LengthOverflow)
          case Some(length) =>
            if p.offset + length > U32_MAX then Err(LengthOverflow)
            else
              var feature := Feature(d.featureId, d.name, deviceId, kind, p.offset, length, reference.required, d.interpolation);
              Ok(Partial(p.offset + length, p.seen + {reference.feature}, p.output + [feature]))
  }

  function PlaceAll(kind: Kind, requested: seq<FeatureRef>, available: Available, p: Partial): Result<Partial, EmbodimentError>
    decreases |requested|
  {
    if requested == [] then Ok(p)
    else
      var next :- Place(kind, requested[0], available, p);
      PlaceAll(kind, requested[1..], available, next)
  }

  function OfKind(features: seq<Feature>, kind: Kind): seq<Feature> {
    if features == [] then []
    else (if features[0].kind == kind then [features[0]] else []) + OfKind(features[1..], kind)
  }

  function Compile(layout: VectorLayout, available: Available, schemaId: SchemaId): Result<Compiled, EmbodimentError> {
    var observation :- PlaceAll(Observation, layout.observation, available, Partial(0, {}, []));
    var action :- PlaceAll(Action, layout.action, available, observation.(offset := 0));
    var auxiliary :- PlaceAll(Auxiliary, layout.auxiliary, available, action.(offset := 0));
    var features := auxiliary.output;
    match (schemaId(OfKind(features, Observation)), schemaId(OfKind(features, Action)))
    case (Some(o), Some(a)) => Ok(Compiled(features, observation.offset, action.offset, auxiliary.offset, o, a))
    case _ => Err(SchemaIdFailed)
  }

  // ---- The slices that go into the manifest ----

  function SliceOf(f: Feature): Slice {
    Slice(f.featureId, f.name, f.kind.Wire(), f.offset, f.length, f.required)
  }

  function Slices(features: seq<Feature>): (slices: seq<Slice>)
    ensures |slices| == |features| && forall i :: 0 <= i < |slices| ==> slices[i] == SliceOf(features[i])
  {
    seq(|features|, i requires 0 <= i < |features| => SliceOf(features[i]))
  }

  /** What the compiler guarantees of slice `i`, whatever the descriptors hold. */
  ghost predicate Placed(slices: seq<Slice>, i: nat)
    requires i < |slices|
  {
    var s := slices[i];
    && IsKind(s.kind) && s.name != []
    && s.offset == SumOf(slices[..i], s.kind) && s.offset + s.length <= U32_MAX
    && forall j :: 0 <= j < i ==> slices[j].name != s.name
  }

  ghost predicate PartialOk(p: Partial, kind: Kind) {
    && (forall i :: 0 <= i < |p.output| ==> Placed(Slices(p.output), i))
    && p.seen == (set i | 0 <= i < |p.output| :: p.output[i].name)
    && p.offset == SumOf(Slices(p.output), kind.Wire())
  }

  lemma SlicesPrefix(features: seq<Feature>, f: Feature)
    ensures Slices(features + [f]) == Slices(features) + [SliceOf(f)]
  {
  }

  lemma PlacedSnoc(slices: seq<Slice>, s: Slice)
    requires forall i :: 0 <= i < |slices| ==> Placed(slices, i)
    requires IsKind(s.kind) && s.name != [] && s.offset == SumOf(slices, s.kind) && s.offset + s.length <= U32_MAX
    requires forall j :: 0 <= j < |slices| ==> slices[j].name != s.name
    ensures forall i :: 0 <= i < |slices + [s]| ==> Placed(slices + [s], i)
    ensures forall kind: int :: SumOf(slices + [s], kind) == SumOf(slices, kind) + (if s.kind == kind then s.length else 0)
  {
    var all := slices + [s];
    assert all[..|slices|] == slices;
    forall i | 0 <= i < |all|
      ensures Placed(all, i)
    {
      if i < |slices| {
        assert Placed(slices, i) && all[..i] == slices[..i];
      }
    }
  }

  lemma PlaceAppends(kind: Kind, reference: FeatureRef, available: Available, p: Partial)
    requires Filed(available) && Place(kind, reference, available, p).Ok?
    ensures var next := Place(kind, reference, available, p).value;
            && |next.output| == |p.output| + 1
            && var f := next.output[|p.output|];
            && next.output == p.output + [f] && next.seen == p.seen + {f.name} && f.name !in p.seen && f.name != []
            && f.kind == kind && f.offset == p.offset && next.offset == p.offset + f.length <= U32_MAX
  {
    hide ShapeLength;
  }

  lemma PlaceKeeps(kind: Kind, reference: FeatureRef, available: Available, p: Partial)
    requires Filed(available) && PartialOk(p, kind) && Place(kind, reference, available, p).Ok?
    ensures PartialOk(Place(kind, reference, available, p).value, kind)
    ensures forall other: Kind :: other != kind ==>
              SumOf(Slices(Place(kind, reference, available, p).value.output), other.Wire()) == SumOf(Slices(p.output), other.Wire())
  {
    hide Place, Placed, SumOf;
    PlaceAppends(kind, reference, available, p);
    var next := Place(kind, reference, available, p).value;
    var f := next.output[|p.output|];
    assert forall i :: 0 <= i < |p.output| ==> next.output[i] == p.output[i];
    assert next.seen == set i | 0 <= i < |next.output| :: next.output[i].name;
    SlicesPrefix(p.output, f);
    PlacedSnoc(Slices(p.output), SliceOf(f));
  }

  lemma {:induction false} PlaceAllKeeps(kind: Kind, requested: seq<FeatureRef>, available: Available, p: Partial)
    requires Filed(available) && PartialOk(p, kind) && PlaceAll(kind, requested, available, p).Ok?
    ensures PartialOk(PlaceAll(kind, requested, available, p).value, kind)
    ensures forall other: Kind :: other != kind ==>
              SumOf(Slices(PlaceAll(kind, requested, available, p).value.output), other.Wire())
              == SumOf(Slices(p.output), other.Wire())
    decreases |requested|
  {
    if requested != [] {
      PlaceKeeps(kind, requested[0], available, p);
      PlaceAllKeeps(kind, requested[1..], available, Place(kind, requested[0], available, p).value);
    }
  }

  /** Every compiled layout is laid out back to back, with distinct non-empty names and exact lengths. */
  lemma CompiledIsPlaced(layout: VectorLayout, available: Available, schemaId: SchemaId)
    requires Filed(available) && Compile(layout, available, schemaId).Ok?
    ensures var c := Compile(layout, available, schemaId).value;
            && (forall i :: 0 <= i < |c.features| ==> Placed(Slices(c.features), i))
            && SumOf(Slices(c.features), 1) == c.observationLength
            && SumOf(Slices(c.features), 2) == c.actionLength
            && SumOf(Slices(c.features), 3) == c.auxiliaryLength
  {
    var start := Partial(0, {}, []);
    assert PartialOk(start, Observation);
    PlaceAllKeeps(Observation, layout.observation, available, start);
    var observation := PlaceAll(Observation, layout.observation, available, start).value;
    var second := observation.(offset := 0);
    assert Action.Wire() == 2 && Auxiliary.Wire() == 3 && Observation.Wire() == 1;
    PlaceAllKeeps(Action, layout.action, available, second);
    var action := PlaceAll(Action, layout.action, available, second).value;
    PlaceAllKeeps(Auxiliary, layout.auxiliary, available, action.(offset := 0));
  }

  // ---- The compiler against the Receiver's check ----

  /** What the compiler does not check and the Receiver does. */
  predicate UsableFeatures(features: seq<Feature>) {
    && (forall i :: 0 <= i < |features| ==> features[i].length != 0 && features[i].featureId != 0)
    && (forall i, j :: 0 <= i < j < |features| ==> features[i].featureId != features[j].featureId)
  }

  lemma PlacedIsOk(features: seq<Feature>)
    requires forall i :: 0 <= i < |features| ==> Placed(Slices(features), i)
    ensures SlicesOk(Slices(features)) <==> UsableFeatures(features)
  {
    var slices := Slices(features);
    if UsableFeatures(features) {
      forall i | 0 <= i < |slices|
        ensures SliceOk(slices, i)
      {
        assert Placed(slices, i);
      }
    }
    if SlicesOk(slices) {
      forall i | 0 <= i < |features|
        ensures features[i].length != 0 && features[i].featureId != 0
        ensures forall j :: 0 <= j < i ==> features[j].featureId != features[i].featureId
      {
        assert SliceOk(slices, i);
        assert forall j :: 0 <= j < i ==> slices[j].featureId == features[j].featureId;
      }
    }
  }

  /**
   * The Receiver accepts the layout of a compiled embodiment exactly when no
   * feature is empty and the feature ids are distinct and non-zero.
   */
  lemma ReceiverAcceptsCompiled(layout: VectorLayout, available: Available, schemaId: SchemaId, m: Manifest)
    requires Filed(available) && Compile(layout, available, schemaId).Ok?
    requires var c := Compile(layout, available, schemaId).value;
             && m.slices == Slices(c.features) && m.observationLength == c.observationLength
             && m.actionLength == c.actionLength && m.auxiliaryLength == c.auxiliaryLength
    ensures LayoutOk(m) <==> UsableFeatures(Compile(layout, available, schemaId).value.features)
  {
    hide Compile;
    CompiledIsPlaced(layout, available, schemaId);
    PlacedIsOk(Compile(layout, available, schemaId).value.features);
  }

  /** Feature `p` of a device, under its qualified name and with one value. */
  function Scalar(device: Text, p: Text, featureId: nat): Descriptor { Descriptor(featureId, device + "." + p, [], 1) }

  lemma QualifiedName(device: Text, p: Text)
    requires '.' !in device
    ensures SplitOnce(device + "." + p, '.') == Some((device, p))
  {
    IndexOfSeam(device, '.', p);
    var name := device + "." + p;
    assert name == device + ['.'] + p;
    assert name[..|device|] == device && name[|device| + 1..] == p;
  }

  lemma PlaceScalar(device: Text, p: Text, featureId: nat, available: Available, partial: Partial)
    requires '.' !in device && (device, device + "." + p) in available
    requires available[(device, device + "." + p)] == Scalar(device, p, featureId)
    requires device + "." + p !in partial.seen && partial.offset < U32_MAX
    ensures var name := device + "." + p;
            Place(Observation, FeatureRef(name, true), available, partial) ==
            Ok(Partial(partial.offset + 1, partial.seen + {name},
                       partial.output + [Feature(featureId, name, device, Observation, partial.offset, 1, true, 1)]))
  {
    QualifiedName(device, p);
  }

  /**
   * Two adapters that give a feature of their devices the same id compile together, and
   * the Receiver refuses the layout: for any two devices, feature names and any id.
   */
  lemma SharedIdIsRefused(x: Text, y: Text, p: Text, q: Text, featureId: nat, a: Text, b: Text, schemaId: SchemaId, m: Manifest)
    requires x != y && a != b && '.' !in x && '.' !in y && forall features :: schemaId(features).Some?
    ensures var devices := [DeviceRef(x, a), DeviceRef(y, b)];
            var descriptors := map[a := [DeviceDescriptor(x, [Scalar(x, p, featureId)])],
                                   b := [DeviceDescriptor(y, [Scalar(y, q, featureId)])]];
            var layout := VectorLayout([FeatureRef(x + "." + p, true), FeatureRef(y + "." + q, true)], [], []);
            var gathered := Gather(devices, descriptors, map[]);
            && gathered.Ok? && Compile(layout, gathered.value, schemaId).Ok?
            && var c := Compile(layout, gathered.value, schemaId).value;
               !LayoutOk(m.(slices := Slices(c.features), observationLength := c.observationLength,
                            actionLength := c.actionLength, auxiliaryLength := c.auxiliaryLength))
  {
    var devices := [DeviceRef(x, a), DeviceRef(y, b)];
    var descriptors := map[a := [DeviceDescriptor(x, [Scalar(x, p, featureId)])],
                           b := [DeviceDescriptor(y, [Scalar(y, q, featureId)])]];
    var left, right := FeatureRef(x + "." + p, true), FeatureRef(y + "." + q, true);
    var layout := VectorLayout([left, right], [], []);
    TwoGathered(devices, descriptors, Scalar(x, p, featureId), Scalar(y, q, featureId));
    var gathered := Gather(devices, descriptors, map[]).value;
    QualifiedName(x, p);
    QualifiedName(y, q);
    assert left.feature != right.feature;
    TwoPlaced(x, y, p, q, featureId, gathered);
    GatherFiled(devices, descriptors);
    hide Gather, PlaceAll, Place, LayoutOk, Slices, Filed, SplitOnce, Comes, Describes;
    var c := Compile(layout, gathered, schemaId).value;
    var manifest := m.(slices := Slices(c.features), observationLength := c.observationLength,
                       actionLength := c.actionLength, auxiliaryLength := c.auxiliaryLength);
    assert c.features[0].featureId == c.features[1].featureId;
    ReceiverAcceptsCompiled(layout, gathered, schemaId, manifest);
  }

  lemma TwoGathered(
      devices: seq<DeviceRef>, descriptors: map<Text, seq<DeviceDescriptor>>, left: Descriptor, right: Descriptor)
    requires |devices| == 2 && devices[0].deviceId != devices[1].deviceId
    requires forall i :: 0 <= i < 2 ==> devices[i].adapterId in descriptors
    requires descriptors[devices[0].adapterId] == [DeviceDescriptor(devices[0].deviceId, [left])]
    requires descriptors[devices[1].adapterId] == [DeviceDescriptor(devices[1].deviceId, [right])]
    ensures Gather(devices, descriptors, map[]) ==
            Ok(map[(devices[0].deviceId, left.name) := left, (devices[1].deviceId, right.name) := right])
  {
    assert devices[1..][1..] == [] && [left][1..] == [] && [right][1..] == [];
    assert AddFeatures(map[], devices[0].deviceId, [left]) == map[(devices[0].deviceId, left.name) := left];
    var first: Available := map[(devices[0].deviceId, left.name) := left];
    var second := first[(devices[1].deviceId, right.name) := right];
    assert AddFeatures(first, devices[1].deviceId, [right]) == second;
    assert Gather(devices, descriptors, map[]) == Gather(devices[1..], descriptors, first);
    assert Gather(devices[1..], descriptors, first) == Gather(devices[1..][1..], descriptors, second) == Ok(second);
  }

  lemma TwoPlaced(x: Text, y: Text, p: Text, q: Text, featureId: nat, available: Available)
    requires '.' !in x && '.' !in y && x + "." + p != y + "." + q
    requires (x, x + "." + p) in available && available[(x, x + "." + p)] == Scalar(x, p, featureId)
    requires (y, y + "." + q) in available && available[(y, y + "." + q)] == Scalar(y, q, featureId)
    ensures var placed := PlaceAll(Observation, [FeatureRef(x + "." + p, true), FeatureRef(y + "." + q, true)], available,
                                   Partial(0, {}, []));
            && placed.Ok? && |placed.value.output| == 2
            && placed.value.output[0].featureId == placed.value.output[1].featureId == featureId
    ensures forall kind: Kind, partial: Partial :: PlaceAll(kind, [], available, partial) == Ok(partial)
  {
    hide Place;
    var left, right := FeatureRef(x + "." + p, true), FeatureRef(y + "." + q, true);
    var start := Partial(0, {}, []);
    PlaceScalar(x, p, featureId, available, start);
    var one := Place(Observation, left, available, start).value;
    PlaceScalar(y, q, featureId, available, one);
    var two := Place(Observation, right, available, one).value;
    assert [left, right][1..] == [right] && [right][1..] == [];
    assert PlaceAll(Observation, [right], available, one) == Ok(two);
  }

  // ---- The source's loop ----

  method CompileVector(kind: Kind, requested: seq<FeatureRef>, available: Available, seen: set<Text>, output: seq<Feature>)
    returns (result: Result<Partial, EmbodimentError>)
    ensures result == PlaceAll(kind, requested, available, Partial(0, seen, output))
  {
    var offset: nat, names, features := 0, seen, output;
    var i := 0;
    assert requested[0..] == requested;
    while i < |requested|
      invariant 0 <= i <= |requested|
      invariant PlaceAll(kind, requested[i..], available, Partial(offset, names, features))
             == PlaceAll(kind, requested, available, Partial(0, seen, output))
    {
      assert requested[i..][1..] == requested[i + 1..];
      var reference := requested[i];
      if reference.feature in names {
        return Err(BadFeature(reference.feature));
      }
      names := names + {reference.feature};
      var split := SplitOnce(reference.feature, '.');
      if split.None? {
        return Err(BadFeature(reference.feature));
      }
      var deviceId := split.value.0;
      if (deviceId, reference.feature) !in available {
        return Err(BadFeature(reference.feature));
      }
      var d := available[(deviceId, reference.feature)];
      var length := ShapeLength(d.shape, 1);
      if length.None? {
        return Err(LengthOverflow);
      }
      features := features + [Feature(d.featureId, d.name, deviceId, kind, offset, length.value, reference.required, d.interpolation)];
      if offset + length.value > U32_MAX {
        return Err(LengthOverflow);
      }
      offset := offset + length.value;
      i := i + 1;
    }
    assert requested[i..] == [];
    return Ok(Partial(offset, names, features));
  }
}
