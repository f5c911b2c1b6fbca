/**
 * From feature rings to named features: `ContextAssembler` of
 * `crates/edge-core/src/context.rs` scatters resampled values into vectors and a
 * bitmap, `project_features` of `crates/web-relay/src/lib.rs` gathers them again.
 */
module Context {
  import opened Common
  import opened FeatureRing
  import opened Layout
  import opened SessionManifest
  import opened Text

  // ---- The validity bitmap, least significant bit first ----

  predicate Bit(byte: bv8, k: nat)
    requires k < 8
  {
    byte & ((1 as bv8) << k) != 0
  }

  function SetBit(byte: bv8, k: nat): bv8
    requires k < 8
  {
    byte | ((1 as bv8) << k)
  }

  lemma SetBitOnly(byte: bv8, k: nat, m: nat)
    requires k < 8 && m < 8
    ensures Bit(SetBit(byte, k), m) <==> m == k || Bit(byte, m)
  {
    ShiftsDiffer(k, m);
    MaskedOr(byte, (1 as bv8) << k, (1 as bv8) << m);
  }

  lemma MaskedOr(byte: bv8, a: bv8, b: bv8)
    ensures (byte | a) & b == (byte & b) | (a & b)
    ensures a & b == 0 ==> (byte | a) & b == byte & b
    ensures a == b && a != 0 ==> (byte | a) & b != 0
  {
  }

  /** Distinct positions have disjoint masks. */
  lemma ShiftsDiffer(k: nat, m: nat)
    requires k < 8 && m < 8
    ensures (1 as bv8) << k != 0
    ensures k != m ==> ((1 as bv8) << k) & ((1 as bv8) << m) == 0
  {
    assert k == 0 || k == 1 || k == 2 || k == 3 || k == 4 || k == 5 || k == 6 || k == 7;
    assert m == 0 || m == 1 || m == 2 || m == 3 || m == 4 || m == 5 || m == 6 || m == 7;
  }

  /** The relay's reading of bit `i`; a missing byte reads as unset. */
  predicate BitAt(bitmap: seq<bv8>, i: nat) {
    i / 8 < |bitmap| && Bit(bitmap[i / 8], i % 8)
  }

  function WithBit(bitmap: seq<bv8>, i: nat): seq<bv8>
    requires i / 8 < |bitmap|
  {
    bitmap[i / 8 := SetBit(bitmap[i / 8], i % 8)]
  }

  lemma WithBitOnly(bitmap: seq<bv8>, i: nat, j: nat)
    requires i / 8 < |bitmap|
    ensures BitAt(WithBit(bitmap, i), j) <==> j == i || BitAt(bitmap, j)
  {
    if i / 8 == j / 8 {
      SetBitOnly(bitmap[i / 8], i % 8, j % 8);
    }
  }

  // ---- Scattering into the vectors ----

  datatype Vectors = Vectors(observation: seq<real>, action: seq<real>, auxiliary: seq<real>) {
    function Get(kind: Kind): seq<real> {
      if kind.Observation? then observation else if kind.Action? then action else auxiliary
    }

    function Set(kind: Kind, vector: seq<real>): Vectors {
      if kind.Observation? then this.(observation := vector)
      else if kind.Action? then this.(action := vector)
      else this.(auxiliary := vector)
    }
  }

  function Zeros(n: nat): (z: seq<real>)
    ensures |z| == n && forall i :: 0 <= i < n ==> z[i] == 0.0
  {
    seq(n, _ => 0.0)
  }

  /** Feature `f` lies inside its vector. */
  predicate Inside(f: Feature, v: Vectors) {
    f.offset + f.length <= |v.Get(f.kind)|
  }

  function ContentOf(f: Feature, v: Vectors): seq<real>
    requires Inside(f, v)
  {
    v.Get(f.kind)[f.offset..f.offset + f.length]
  }

  function Splice(vector: seq<real>, start: nat, values: seq<real>): (r: seq<real>)
    requires start + |values| <= |vector|
    ensures |r| == |vector|
  {
    vector[..start] + values + vector[start + |values|..]
  }

  function Write(f: Feature, v: Vectors, values: seq<real>): Vectors
    requires Inside(f, v) && |values| == f.length
  {
    v.Set(f.kind, Splice(v.Get(f.kind), f.offset, values))
  }

  /** Each feature's slice holds its entry of `contents`. */
  ghost predicate Scattered(features: seq<Feature>, contents: seq<seq<real>>, v: Vectors) {
    && |contents| == |features|
    && forall j :: 0 <= j < |features| ==> Inside(features[j], v) && ContentOf(features[j], v) == contents[j]
  }

  lemma SpliceElsewhere(vector: seq<real>, start: nat, values: seq<real>, a: nat, b: nat)
    requires start + |values| <= |vector| && a <= b <= |vector| && (b <= start || start + |values| <= a)
    ensures Splice(vector, start, values)[a..b] == vector[a..b]
  {
  }

  lemma SpliceHere(vector: seq<real>, start: nat, values: seq<real>)
    requires start + |values| <= |vector|
    ensures Splice(vector, start, values)[start..start + |values|] == values
  {
  }

  lemma WriteOne(features: seq<Feature>, v: Vectors, i: nat, j: nat, values: seq<real>)
    requires SlicesOk(Slices(features)) && i < |features| && j < |features|
    requires Inside(features[i], v) && Inside(features[j], v) && |values| == features[i].length
    ensures Inside(features[j], Write(features[i], v, values))
    ensures ContentOf(features[j], Write(features[i], v, values)) == if i == j then values else ContentOf(features[j], v)
  {
    hide SlicesOk, Splice;
    var f, g := features[i], features[j];
    if i == j {
      SpliceHere(v.Get(f.kind), f.offset, values);
    } else if f.kind == g.kind {
      if i < j { SlicesDisjoint(Slices(features), i, j); } else { SlicesDisjoint(Slices(features), j, i); }
      SpliceElsewhere(v.Get(f.kind), f.offset, values, g.offset, g.offset + g.length);
    }
  }

  /** Writing one slice leaves every other slice alone. */
  lemma WriteScatters(features: seq<Feature>, contents: seq<seq<real>>, v: Vectors, i: nat, values: seq<real>)
    requires SlicesOk(Slices(features)) && Scattered(features, contents, v)
    requires i < |features| && |values| == features[i].length
    ensures Scattered(features, contents[i := values], Write(features[i], v, values))
  {
    hide SlicesOk, ContentOf, Write;
    forall j | 0 <= j < |features|
      ensures Inside(features[j], Write(features[i], v, values))
              && ContentOf(features[j], Write(features[i], v, values)) == contents[i := values][j]
    {
      WriteOne(features, v, i, j, values);
    }
  }

  // ---- What an anchor context holds ----

  type Rings = map<nat, Ring>

  function MethodOf(interpolation: int): Method {
    if interpolation == 1 then Linear
    else if interpolation == 2 then ZeroOrderHold
    else if interpolation == 3 then Nearest
    else if interpolation == 4 then Exact
    else Unspecified
  }

  function ValueOf(f: Feature, rings: Rings, at: nat, maxGap: nat): Option<Resampled> {
    if f.featureId !in rings then None
    else Resample(rings[f.featureId].samples, at, MethodOf(f.interpolation), maxGap)
  }

  /** The values a feature must come out with: its resampled ones, or zeros. */
  function Expected(f: Feature, rings: Rings, at: nat, maxGap: nat): seq<real> {
    match ValueOf(f, rings, at, maxGap)
    case Some(r) => r.values
    case None => Zeros(f.length)
  }

  predicate Missing(f: Feature, rings: Rings, at: nat, maxGap: nat) {
    f.required && ValueOf(f, rings, at, maxGap).None?
  }

  function MissingNames(features: seq<Feature>, rings: Rings, at: nat, maxGap: nat): seq<Text> {
    if features == [] then []
    else
      var last := |features| - 1;
      MissingNames(features[..last], rings, at, maxGap)
      + (if Missing(features[last], rings, at, maxGap) then [features[last].name] else [])
  }

  datatype Assembled = Assembled(
    vectors: Vectors, validity: seq<bv8>, missing: seq<Text>, invalidReason: Text, devices: Devices)

  function JoinReasons(names: seq<Text>): Text { if names == [] then [] else JoinOn(names, ',') }

  /** What a context says of a device: its validity and the samples its features were taken from. */
  datatype Quality = Quality(valid: bool, previous: nat, next: nat, maxGap: nat, alpha: real)

  type Devices = map<Text, Quality>

  function GapOf(v: Resampled): nat { SaturatingSub(v.nextTime, v.previousTime) }

  /** Feature `i` is one of device `d` and has a value. */
  ghost predicate PresentAt(features: seq<Feature>, i: nat, d: Text, rings: Rings, at: nat, maxGap: nat) {
    i < |features| && features[i].deviceId == d && ValueOf(features[i], rings, at, maxGap).Some?
  }

  ghost function ValueAt(features: seq<Feature>, i: nat, d: Text, rings: Rings, at: nat, maxGap: nat): Resampled
    requires PresentAt(features, i, d, rings, at, maxGap)
  {
    ValueOf(features[i], rings, at, maxGap).value
  }

  function Width(v: Resampled): int { v.nextTime - v.previousTime }

  /** The earliest sample before, the latest after and the widest gap over the present features of the device. */
  ghost predicate TimesOk(q: Quality, d: Text, features: seq<Feature>, rings: Rings, at: nat, maxGap: nat) {
    if exists i :: PresentAt(features, i, d, rings, at, maxGap) then
      && (forall i :: PresentAt(features, i, d, rings, at, maxGap) ==>
            var v := ValueAt(features, i, d, rings, at, maxGap);
            q.previous <= v.previousTime && v.nextTime <= q.next && v.nextTime - v.previousTime <= q.maxGap)
      && (exists i :: PresentAt(features, i, d, rings, at, maxGap) && ValueAt(features, i, d, rings, at, maxGap).previousTime == q.previous)
      && (exists i :: PresentAt(features, i, d, rings, at, maxGap) && ValueAt(features, i, d, rings, at, maxGap).nextTime == q.next)
      && (exists i :: PresentAt(features, i, d, rings, at, maxGap) && Width(ValueAt(features, i, d, rings, at, maxGap)) == q.maxGap)
    else q.previous == 0 && q.next == 0 && q.maxGap == 0
  }

  ghost predicate NoneMissing(d: Text, features: seq<Feature>, rings: Rings, at: nat, maxGap: nat) {
    forall i :: 0 <= i < |features| && features[i].deviceId == d ==> !Missing(features[i], rings, at, maxGap)
  }

  /** The alpha is that of the last present feature of the device. */
  ghost predicate AlphaOk(q: Quality, d: Text, features: seq<Feature>, rings: Rings, at: nat, maxGap: nat) {
    && ((forall i :: !PresentAt(features, i, d, rings, at, maxGap)) ==> q.alpha == 0.0)
    && forall i :: PresentAt(features, i, d, rings, at, maxGap)
                   && (forall j :: PresentAt(features, j, d, rings, at, maxGap) ==> j <= i) ==>
         q.alpha == ValueAt(features, i, d, rings, at, maxGap).alpha
  }

  /** Feature `i` makes its device known: it has a value, or is missing one. */
  ghost predicate ReportsAt(features: seq<Feature>, i: nat, d: Text, rings: Rings, at: nat, maxGap: nat) {
    && i < |features| && features[i].deviceId == d
    && (ValueOf(features[i], rings, at, maxGap).Some? || features[i].required)
  }

  /** A device is reported when one of its features is present or missing, and valid when none is missing. */
  ghost predicate DevicesOk(devices: Devices, features: seq<Feature>, rings: Rings, at: nat, maxGap: nat) {
    && (forall i, d :: ReportsAt(features, i, d, rings, at, maxGap) ==> d in devices)
    && (forall d :: d in devices ==> exists i :: ReportsAt(features, i, d, rings, at, maxGap))
    && (forall d :: d in devices ==> DeviceOk(devices[d], d, features, rings, at, maxGap))
  }

  ghost predicate DeviceOk(q: Quality, d: Text, features: seq<Feature>, rings: Rings, at: nat, maxGap: nat) {
    && (q.valid <==> NoneMissing(d, features, rings, at, maxGap)) && TimesOk(q, d, features, rings, at, maxGap)
    && AlphaOk(q, d, features, rings, at, maxGap)
  }

  ghost predicate AssembledOk(c: Compiled, rings: Rings, at: nat, maxGap: nat, r: Assembled) {
    && |r.vectors.observation| == c.observationLength
    && |r.vectors.action| == c.actionLength
    && |r.vectors.auxiliary| == c.auxiliaryLength
    && (forall i :: 0 <= i < |c.features| ==>
          && Inside(c.features[i], r.vectors)
          && ContentOf(c.features[i], r.vectors) == Expected(c.features[i], rings, at, maxGap))
    && (forall i :: 0 <= i < |c.features| ==> (BitAt(r.validity, i) <==> ValueOf(c.features[i], rings, at, maxGap).Some?))
    && r.missing == MissingNames(c.features, rings, at, maxGap)
    && r.invalidReason == JoinReasons(r.missing)
    && DevicesOk(r.devices, c.features, rings, at, maxGap)
  }

  /** Each feature's ring is valid and has the feature's length. */
  ghost predicate RingsOk(features: seq<Feature>, rings: Rings) {
    forall i :: 0 <= i < |features| && features[i].featureId in rings ==>
      FeatureRing.Valid(rings[features[i].featureId]) && rings[features[i].featureId].vectorLength == features[i].length
  }

  ghost predicate LayoutFits(c: Compiled) {
    && SlicesOk(Slices(c.features))
    && SumOf(Slices(c.features), 1) == c.observationLength
    && SumOf(Slices(c.features), 2) == c.actionLength
    && SumOf(Slices(c.features), 3) == c.auxiliaryLength
  }

  lemma StartsAtZero(c: Compiled, v: Vectors)
    requires LayoutFits(c)
    requires v == Vectors(Zeros(c.observationLength), Zeros(c.actionLength), Zeros(c.auxiliaryLength))
    ensures Scattered(c.features, seq(|c.features|, j requires 0 <= j < |c.features| => Zeros(c.features[j].length)), v)
  {
    forall j | 0 <= j < |c.features|
      ensures Inside(c.features[j], v) && ContentOf(c.features[j], v) == Zeros(c.features[j].length)
    {
      SliceInVector(Slices(c.features), j);
    }
  }

  lemma ValueFits(features: seq<Feature>, rings: Rings, i: nat, at: nat, maxGap: nat)
    requires RingsOk(features, rings) && i < |features| && ValueOf(features[i], rings, at, maxGap).Some?
    ensures |ValueOf(features[i], rings, at, maxGap).value.values| == features[i].length
  {
    var ring := rings[features[i].featureId];
    ResampledLength(ring.samples, ring.vectorLength, at, MethodOf(features[i].interpolation), maxGap);
  }

  lemma MissingSnoc(features: seq<Feature>, i: nat, rings: Rings, at: nat, maxGap: nat)
    requires i < |features|
    ensures MissingNames(features[..i + 1], rings, at, maxGap) ==
            MissingNames(features[..i], rings, at, maxGap)
            + (if Missing(features[i], rings, at, maxGap) then [features[i].name] else [])
  {
    assert features[..i + 1][..i] == features[..i];
  }

  /** A device's record with one more present feature; a time of zero stands for none yet. */
  function WithValue(q: Quality, v: Resampled): Quality {
    Quality(q.valid, if q.previous == 0 then v.previousTime else Min(q.previous, v.previousTime),
            Max(q.next, v.nextTime), Max(q.maxGap, GapOf(v)), v.alpha)
  }

  const FRESH := Quality(true, 0, 0, 0, 0.0)

  function Known(devices: Devices, d: Text): Quality { if d in devices then devices[d] else FRESH }

  function DeviceStep(devices: Devices, f: Feature, rings: Rings, at: nat, maxGap: nat): Devices {
    match ValueOf(f, rings, at, maxGap)
    case Some(v) => devices[f.deviceId := WithValue(Known(devices, f.deviceId), v)]
    case None => if f.required then devices[f.deviceId := Known(devices, f.deviceId).(valid := false)] else devices
  }

  /** A device not reported yet has no present and no missing feature. */
  lemma KnownOk(devices: Devices, features: seq<Feature>, d: Text, rings: Rings, at: nat, maxGap: nat)
    requires DevicesOk(devices, features, rings, at, maxGap)
    ensures DeviceOk(Known(devices, d), d, features, rings, at, maxGap)
  {
    if d !in devices {
      forall i | 0 <= i < |features| && features[i].deviceId == d
        ensures !PresentAt(features, i, d, rings, at, maxGap) && !Missing(features[i], rings, at, maxGap)
      {
        assert !ReportsAt(features, i, d, rings, at, maxGap);
      }
    }
  }

  lemma PresentSnoc(features: seq<Feature>, f: Feature, d: Text, rings: Rings, at: nat, maxGap: nat)
    ensures var all := features + [f];
            forall i: nat :: PresentAt(all, i, d, rings, at, maxGap) <==>
              PresentAt(features, i, d, rings, at, maxGap)
              || (i == |features| && f.deviceId == d && ValueOf(f, rings, at, maxGap).Some?)
    ensures NoneMissing(d, features + [f], rings, at, maxGap) <==>
            NoneMissing(d, features, rings, at, maxGap) && !(f.deviceId == d && Missing(f, rings, at, maxGap))
  {
    var all := features + [f];
    assert all[|features|] == f;
    assert forall i :: 0 <= i < |features| ==> all[i] == features[i];
  }

  /** A feature that is absent or of another device leaves the times alone. */
  lemma TimesKept(q: Quality, d: Text, features: seq<Feature>, f: Feature, rings: Rings, at: nat, maxGap: nat)
    requires TimesOk(q, d, features, rings, at, maxGap)
    requires f.deviceId != d || ValueOf(f, rings, at, maxGap).None?
    ensures TimesOk(q, d, features + [f], rings, at, maxGap)
  {
    PresentSnoc(features, f, d, rings, at, maxGap);
    var all := features + [f];
    assert forall i: nat :: PresentAt(features, i, d, rings, at, maxGap) ==>
      ValueAt(all, i, d, rings, at, maxGap) == ValueAt(features, i, d, rings, at, maxGap);
  }

  lemma AlphaKept(q: Quality, d: Text, features: seq<Feature>, f: Feature, rings: Rings, at: nat, maxGap: nat)
    requires AlphaOk(q, d, features, rings, at, maxGap)
    requires f.deviceId != d || ValueOf(f, rings, at, maxGap).None?
    ensures AlphaOk(q, d, features + [f], rings, at, maxGap)
    ensures AlphaOk(q.(valid := false), d, features + [f], rings, at, maxGap)
  {
    hide ValueOf;
    PresentSnoc(features, f, d, rings, at, maxGap);
    var all := features + [f];
    assert forall i: nat :: PresentAt(features, i, d, rings, at, maxGap) ==>
      ValueAt(all, i, d, rings, at, maxGap) == ValueAt(features, i, d, rings, at, maxGap);
    assert forall i: nat :: PresentAt(all, i, d, rings, at, maxGap) <==> PresentAt(features, i, d, rings, at, maxGap);
  }

  lemma AlphaTaken(q: Quality, d: Text, features: seq<Feature>, f: Feature, rings: Rings, at: nat, maxGap: nat)
    requires f.deviceId == d && ValueOf(f, rings, at, maxGap).Some?
    ensures AlphaOk(WithValue(q, ValueOf(f, rings, at, maxGap).value), d, features + [f], rings, at, maxGap)
  {
    hide ValueOf;
    PresentSnoc(features, f, d, rings, at, maxGap);
    var all, n := features + [f], |features|;
    assert PresentAt(all, n, d, rings, at, maxGap);
    assert ValueAt(all, n, d, rings, at, maxGap) == ValueOf(f, rings, at, maxGap).value;
  }

  /** A reported device stays reported, and the next feature adds its own at most. */
  lemma ReportsSnoc(features: seq<Feature>, f: Feature, rings: Rings, at: nat, maxGap: nat)
    ensures var all := features + [f];
            forall i: nat, d :: ReportsAt(all, i, d, rings, at, maxGap) <==>
              ReportsAt(features, i, d, rings, at, maxGap)
              || (i == |features| && f.deviceId == d && (ValueOf(f, rings, at, maxGap).Some? || f.required))
  {
    hide ValueOf;
    var all := features + [f];
    assert all[|features|] == f;
    assert forall i :: 0 <= i < |features| ==> all[i] == features[i];
  }

  /** The value of a feature in its valid ring comes from samples at real times. */
  lemma ValueTimes(features: seq<Feature>, rings: Rings, i: nat, at: nat, maxGap: nat)
    requires RingsOk(features, rings) && i < |features| && ValueOf(features[i], rings, at, maxGap).Some?
    ensures var v := ValueOf(features[i], rings, at, maxGap).value; 0 < v.previousTime <= v.nextTime
  {
    var ring := rings[features[i].featureId];
    ResampledTimes(ring.samples, at, MethodOf(features[i].interpolation), maxGap);
  }

  ghost predicate TimesReal(features: seq<Feature>, d: Text, rings: Rings, at: nat, maxGap: nat) {
    forall i :: PresentAt(features, i, d, rings, at, maxGap) ==> ValueAt(features, i, d, rings, at, maxGap).previousTime > 0
  }

  lemma TimesTaken(q: Quality, d: Text, features: seq<Feature>, f: Feature, rings: Rings, at: nat, maxGap: nat)
    requires TimesOk(q, d, features, rings, at, maxGap) && TimesReal(features, d, rings, at, maxGap)
    requires f.deviceId == d && ValueOf(f, rings, at, maxGap).Some?
    requires 0 < ValueOf(f, rings, at, maxGap).value.previousTime <= ValueOf(f, rings, at, maxGap).value.nextTime
    ensures TimesOk(WithValue(q, ValueOf(f, rings, at, maxGap).value), d, features + [f], rings, at, maxGap)
  {
    hide ValueOf;
    PresentSnoc(features, f, d, rings, at, maxGap);
    var all, n, v := features + [f], |features|, ValueOf(f, rings, at, maxGap).value;
    assert PresentAt(all, n, d, rings, at, maxGap) && ValueAt(all, n, d, rings, at, maxGap) == v;
    assert forall i: nat :: PresentAt(features, i, d, rings, at, maxGap) ==>
      ValueAt(all, i, d, rings, at, maxGap) == ValueAt(features, i, d, rings, at, maxGap);
  }

  lemma DevicesSnoc(devices: Devices, features: seq<Feature>, i: nat, rings: Rings, at: nat, maxGap: nat)
    requires i < |features| && DevicesOk(devices, features[..i], rings, at, maxGap) && RingsOk(features, rings)
    ensures DevicesOk(DeviceStep(devices, features[i], rings, at, maxGap), features[..i + 1], rings, at, maxGap)
  {
    hide TimesOk, AlphaOk, ValueOf, RingsOk, NoneMissing;
    var f, before, after := features[i], features[..i], features[..i + 1];
    assert after == before + [f];
    var next := DeviceStep(devices, f, rings, at, maxGap);
    ReportsSnoc(before, f, rings, at, maxGap);
    hide ReportsAt;
    StillReported(devices, before, f, rings, at, maxGap);
    forall d | d in next
      ensures DeviceOk(next[d], d, after, rings, at, maxGap)
    {
      PresentSnoc(before, f, d, rings, at, maxGap);
      if f.deviceId == d && ValueOf(f, rings, at, maxGap).Some? {
        KnownOk(devices, before, d, rings, at, maxGap);
        AllReal(features, i, d, rings, at, maxGap);
        ValueTimes(features, rings, i, at, maxGap);
        TimesTaken(Known(devices, d), d, before, f, rings, at, maxGap);
        AlphaTaken(Known(devices, d), d, before, f, rings, at, maxGap);
      } else {
        KnownOk(devices, before, d, rings, at, maxGap);
        TimesKept(Known(devices, d), d, before, f, rings, at, maxGap);
        AlphaKept(Known(devices, d), d, before, f, rings, at, maxGap);
        SameTimes(Known(devices, d), d, after, rings, at, maxGap);
      }
    }
  }

  lemma StillReported(devices: Devices, features: seq<Feature>, f: Feature, rings: Rings, at: nat, maxGap: nat)
    requires forall i, d :: ReportsAt(features, i, d, rings, at, maxGap) ==> d in devices
    requires forall d :: d in devices ==> exists i :: ReportsAt(features, i, d, rings, at, maxGap)
    ensures var all, next := features + [f], DeviceStep(devices, f, rings, at, maxGap);
            && (forall i, d :: ReportsAt(all, i, d, rings, at, maxGap) ==> d in next)
            && forall d :: d in next ==> exists i :: ReportsAt(all, i, d, rings, at, maxGap)
  {
    hide ValueOf;
    ReportsSnoc(features, f, rings, at, maxGap);
    hide ReportsAt;
    var all, next := features + [f], DeviceStep(devices, f, rings, at, maxGap);
    forall d | d in next
      ensures exists i :: ReportsAt(all, i, d, rings, at, maxGap)
    {
      if d in devices {
        var i :| ReportsAt(features, i, d, rings, at, maxGap);
        assert ReportsAt(all, i, d, rings, at, maxGap);
      } else {
        assert ReportsAt(all, |features|, d, rings, at, maxGap);
      }
    }
  }

  lemma SameTimes(q: Quality, d: Text, features: seq<Feature>, rings: Rings, at: nat, maxGap: nat)
    requires TimesOk(q, d, features, rings, at, maxGap)
    ensures TimesOk(q.(valid := false), d, features, rings, at, maxGap)
  {
  }

  lemma AllReal(features: seq<Feature>, n: nat, d: Text, rings: Rings, at: nat, maxGap: nat)
    requires RingsOk(features, rings) && n <= |features|
    ensures TimesReal(features[..n], d, rings, at, maxGap)
  {
    hide RingsOk;
    forall i | PresentAt(features[..n], i, d, rings, at, maxGap)
      ensures ValueAt(features[..n], i, d, rings, at, maxGap).previousTime > 0
    {
      ValueTimes(features, rings, i, at, maxGap);
    }
  }

  /** The four things the loop of `assemble` fills. */
  datatype Work = Work(vectors: Vectors, validity: seq<bv8>, missing: seq<Text>, devices: Devices)

  /** The slices after `index` features have been looked at. */
  ghost function ContentsAt(features: seq<Feature>, rings: Rings, at: nat, maxGap: nat, index: nat): seq<seq<real>> {
    seq(|features|, j requires 0 <= j < |features| =>
      if j < index then Expected(features[j], rings, at, maxGap) else Zeros(features[j].length))
  }

  ghost predicate BitsOk(features: seq<Feature>, rings: Rings, at: nat, maxGap: nat, index: nat, validity: seq<bv8>) {
    && |validity| == (|features| + 7) / 8
    && forall j :: 0 <= j < |features| ==>
         (BitAt(validity, j) <==> j < index && ValueOf(features[j], rings, at, maxGap).Some?)
  }

  ghost predicate WorkOk(c: Compiled, rings: Rings, at: nat, maxGap: nat, index: nat, w: Work)
    requires index <= |c.features|
  {
    && Scattered(c.features, ContentsAt(c.features, rings, at, maxGap, index), w.vectors)
    && SameShape(w.vectors, c)
    && BitsOk(c.features, rings, at, maxGap, index, w.validity)
    && w.missing == MissingNames(c.features[..index], rings, at, maxGap)
    && DevicesOk(w.devices, c.features[..index], rings, at, maxGap)
  }

  lemma WorkPresent(c: Compiled, rings: Rings, at: nat, maxGap: nat, index: nat, w: Work)
    requires LayoutFits(c) && RingsOk(c.features, rings) && index < |c.features| && WorkOk(c, rings, at, maxGap, index, w)
    requires ValueOf(c.features[index], rings, at, maxGap).Some?
    ensures var f, values := c.features[index], ValueOf(c.features[index], rings, at, maxGap).value.values;
            && Inside(f, w.vectors) && |values| == f.length && index / 8 < |w.validity|
            && WorkOk(c, rings, at, maxGap, index + 1,
                      Work(Write(f, w.vectors, values), WithBit(w.validity, index), w.missing,
                           DeviceStep(w.devices, f, rings, at, maxGap)))
  {
    hide SlicesOk, ContentOf, DevicesOk, MissingNames, FeatureRing.Valid, Bit, SetBit, RingsOk;
    var f := c.features[index];
    ValueFits(c.features, rings, index, at, maxGap);
    var values := ValueOf(f, rings, at, maxGap).value.values;
    WriteScatters(c.features, ContentsAt(c.features, rings, at, maxGap, index), w.vectors, index, values);
    assert ContentsAt(c.features, rings, at, maxGap, index)[index := values] == ContentsAt(c.features, rings, at, maxGap, index + 1);
    BitsAfter(w.validity, index, |c.features|);
    MissingSnoc(c.features, index, rings, at, maxGap);
    assert w.missing + [] == w.missing;
    DevicesSnoc(w.devices, c.features, index, rings, at, maxGap);
  }

  lemma WorkAbsent(c: Compiled, rings: Rings, at: nat, maxGap: nat, index: nat, w: Work)
    requires RingsOk(c.features, rings) && index < |c.features| && WorkOk(c, rings, at, maxGap, index, w)
    requires ValueOf(c.features[index], rings, at, maxGap).None?
    ensures var f := c.features[index];
            WorkOk(c, rings, at, maxGap, index + 1,
                   Work(w.vectors, w.validity, if f.required then w.missing + [f.name] else w.missing,
                        DeviceStep(w.devices, f, rings, at, maxGap)))
  {
    hide ContentOf, DevicesOk, MissingNames, BitAt, RingsOk;
    assert ContentsAt(c.features, rings, at, maxGap, index) == ContentsAt(c.features, rings, at, maxGap, index + 1);
    MissingSnoc(c.features, index, rings, at, maxGap);
    assert w.missing + [] == w.missing;
    DevicesSnoc(w.devices, c.features, index, rings, at, maxGap);
  }

  lemma WorkStarts(c: Compiled, rings: Rings, at: nat, maxGap: nat, w: Work)
    requires LayoutFits(c)
    requires w.vectors == Vectors(Zeros(c.observationLength), Zeros(c.actionLength), Zeros(c.auxiliaryLength))
    requires w.validity == seq((|c.features| + 7) / 8, _ => 0) && w.missing == [] && w.devices == map[]
    ensures WorkOk(c, rings, at, maxGap, 0, w)
  {
    StartsAtZero(c, w.vectors);
    assert ContentsAt(c.features, rings, at, maxGap, 0)
        == seq(|c.features|, j requires 0 <= j < |c.features| => Zeros(c.features[j].length));
    assert forall k: nat {:trigger Bit(0, k)} :: k < 8 ==> !Bit(0, k);
  }

  lemma WorkEnds(c: Compiled, rings: Rings, at: nat, maxGap: nat, w: Work)
    requires WorkOk(c, rings, at, maxGap, |c.features|, w)
    ensures AssembledOk(c, rings, at, maxGap, Assembled(w.vectors, w.validity, w.missing, JoinReasons(w.missing), w.devices))
  {
    hide DevicesOk, MissingNames, ValueOf, Expected, ContentOf, BitAt;
    assert c.features[..|c.features|] == c.features;
  }

  /** The loop of `assemble`: stays in bounds and fills vectors, bitmap, reasons and device quality. */
  method Assemble(c: Compiled, rings: Rings, at: nat, maxGap: nat) returns (r: Assembled)
    requires LayoutFits(c) && RingsOk(c.features, rings)
    ensures AssembledOk(c, rings, at, maxGap, r)
  {
    hide WorkOk, LayoutFits, RingsOk, AssembledOk, ValueOf;
    var vectors := Vectors(Zeros(c.observationLength), Zeros(c.actionLength), Zeros(c.auxiliaryLength));
    var validity: seq<bv8> := seq((|c.features| + 7) / 8, _ => 0);
    var missing: seq<Text>, devices: Devices := [], map[];
    WorkStarts(c, rings, at, maxGap, Work(vectors, validity, missing, devices));
    for index := 0 to |c.features|
      invariant WorkOk(c, rings, at, maxGap, index, Work(vectors, validity, missing, devices))
    {
      var feature := c.features[index];
      var value := ValueOf(feature, rings, at, maxGap);
      if value.Some? {
        WorkPresent(c, rings, at, maxGap, index, Work(vectors, validity, missing, devices));
        vectors := Write(feature, vectors, value.value.values);
        validity := WithBit(validity, index);
        var quality := if feature.deviceId in devices then devices[feature.deviceId] else FRESH;
        quality := quality.(previous := if quality.previous == 0 then value.value.previousTime
                                        else Min(quality.previous, value.value.previousTime));
        quality := quality.(next := Max(quality.next, value.value.nextTime));
        quality := quality.(maxGap := Max(quality.maxGap, GapOf(value.value)));
        quality := quality.(alpha := value.value.alpha);
        devices := devices[feature.deviceId := quality];
      } else {
        WorkAbsent(c, rings, at, maxGap, index, Work(vectors, validity, missing, devices));
        if feature.required {
          missing := missing + [feature.name];
          var quality := if feature.deviceId in devices then devices[feature.deviceId] else FRESH;
          devices := devices[feature.deviceId := quality.(valid := false)];
        }
      }
    }
    WorkEnds(c, rings, at, maxGap, Work(vectors, validity, missing, devices));
    r := Assembled(vectors, validity, missing, JoinReasons(missing), devices);
  }

  /** `assemble` as a whole: a context over the size budget is refused. */
  method AssembleWithin(
      c: Compiled, rings: Rings, at: nat, maxGap: nat, budget: nat, encodedLength: Assembled -> nat)
    returns (result: Result<Assembled, ContextError>)
    requires LayoutFits(c) && RingsOk(c.features, rings)
    ensures result.Ok? ==> AssembledOk(c, rings, at, maxGap, result.value) && encodedLength(result.value) <= budget
    ensures result.Err? ==>
              result.error == ContextBudget && exists r :: AssembledOk(c, rings, at, maxGap, r) && encodedLength(r) > budget
  {
    hide AssembledOk;
    var r := Assemble(c, rings, at, maxGap);
    if encodedLength(r) > budget {
      return Err(ContextBudget);
    }
    return Ok(r);
  }

  predicate SameShape(v: Vectors, c: Compiled) {
    && |v.observation| == c.observationLength && |v.action| == c.actionLength && |v.auxiliary| == c.auxiliaryLength
  }

  lemma BitsAfter(bitmap: seq<bv8>, i: nat, n: nat)
    requires i < n && |bitmap| == (n + 7) / 8
    ensures i / 8 < |bitmap|
    ensures forall j: nat :: j < n ==> (BitAt(WithBit(bitmap, i), j) <==> j == i || BitAt(bitmap, j))
  {
    forall j: nat | j < n
      ensures BitAt(WithBit(bitmap, i), j) <==> j == i || BitAt(bitmap, j)
    {
      WithBitOnly(bitmap, i, j);
    }
  }

  // ---- Gathering out of the vectors ----

  datatype Named = Named(featureId: nat, name: Text, kind: int, values: seq<real>, valid: bool, required: bool)

  datatype ProjectionError = FeatureSlice | FeatureKind

  function VectorOf(v: Vectors, kind: int): Option<seq<real>> {
    if kind == 1 then Some(v.observation)
    else if kind == 2 then Some(v.action)
    else if kind == 3 then Some(v.auxiliary)
    else None
  }

  function ProjectOne(v: Vectors, slices: seq<Slice>, validity: seq<bv8>, i: nat): Result<Named, ProjectionError>
    requires i < |slices|
  {
    var s := slices[i];
    match VectorOf(v, s.kind)
    case None => Err(FeatureKind)
    case Some(vector) =>
      if s.offset + s.length > |vector| then Err(FeatureSlice)
      else Ok(Named(s.featureId, s.name, s.kind, vector[s.offset..s.offset + s.length], BitAt(validity, i), s.required))
  }

  function ProjectFrom(v: Vectors, slices: seq<Slice>, validity: seq<bv8>, i: nat): Result<seq<Named>, ProjectionError>
    requires i <= |slices|
    decreases |slices| - i
  {
    if i == |slices| then Ok([])
    else
      var first :- ProjectOne(v, slices, validity, i);
      var rest :- ProjectFrom(v, slices, validity, i + 1);
      Ok([first] + rest)
  }

  function ProjectFeatures(v: Vectors, slices: seq<Slice>, validity: seq<bv8>): Result<seq<Named>, ProjectionError> {
    ProjectFrom(v, slices, validity, 0)
  }

  lemma {:induction false} ProjectAll(v: Vectors, slices: seq<Slice>, validity: seq<bv8>, i: nat)
    requires i <= |slices| && forall j :: i <= j < |slices| ==> ProjectOne(v, slices, validity, j).Ok?
    ensures ProjectFrom(v, slices, validity, i).Ok? && |ProjectFrom(v, slices, validity, i).value| == |slices| - i
    ensures forall j :: i <= j < |slices| ==>
              ProjectFrom(v, slices, validity, i).value[j - i] == ProjectOne(v, slices, validity, j).value
    decreases |slices| - i
  {
    if i < |slices| {
      ProjectAll(v, slices, validity, i + 1);
    }
  }

  /** A slice of one of the three vectors, inside it. */
  predicate Projectable(v: Vectors, s: Slice) {
    1 <= s.kind <= 3 && s.offset + s.length <= |if s.kind == 1 then v.observation else if s.kind == 2 then v.action else v.auxiliary|
  }

  lemma ProjectOneIs(v: Vectors, slices: seq<Slice>, validity: seq<bv8>, i: nat)
    requires i < |slices|
    ensures var s, r := slices[i], ProjectOne(v, slices, validity, i);
            if !(1 <= s.kind <= 3) then r == Err(FeatureKind)
            else if !Projectable(v, s) then r == Err(FeatureSlice)
            else
              var vector := if s.kind == 1 then v.observation else if s.kind == 2 then v.action else v.auxiliary;
              r == Ok(Named(s.featureId, s.name, s.kind, vector[s.offset..s.offset + s.length], BitAt(validity, i), s.required))
  {
  }

  /** The first slice that cannot be projected decides the error. */
  lemma {:induction false} ProjectFails(v: Vectors, slices: seq<Slice>, validity: seq<bv8>, i: nat, k: nat)
    requires i <= k < |slices| && ProjectOne(v, slices, validity, k).Err?
    requires forall j :: i <= j < k ==> ProjectOne(v, slices, validity, j).Ok?
    ensures ProjectFrom(v, slices, validity, i) == Err(ProjectOne(v, slices, validity, k).error)
    decreases k - i
  {
    if i < k {
      ProjectFails(v, slices, validity, i + 1, k);
    }
  }

  /**
   * Any vectors project exactly when every slice is of a known kind and inside its vector,
   * one named feature per slice in order; otherwise the first slice that is not says why.
   */
  lemma ProjectsExactlyWhen(v: Vectors, slices: seq<Slice>, validity: seq<bv8>)
    ensures var named := ProjectFeatures(v, slices, validity);
            && (named.Ok? <==> forall i :: 0 <= i < |slices| ==> Projectable(v, slices[i]))
            && (named.Ok? ==> |named.value| == |slices| && forall i :: 0 <= i < |slices| ==>
                  Ok(named.value[i]) == ProjectOne(v, slices, validity, i))
            && (forall k :: 0 <= k < |slices| && !Projectable(v, slices[k])
                            && (forall j :: 0 <= j < k ==> Projectable(v, slices[j])) ==>
                  named == Err(if 1 <= slices[k].kind <= 3 then FeatureSlice else FeatureKind))
  {
    forall i | 0 <= i < |slices|
      ensures ProjectOne(v, slices, validity, i).Ok? <==> Projectable(v, slices[i])
      ensures ProjectOne(v, slices, validity, i).Err? ==>
                ProjectOne(v, slices, validity, i) == Err(if 1 <= slices[i].kind <= 3 then FeatureSlice else FeatureKind)
    {
      ProjectOneIs(v, slices, validity, i);
    }
    hide ProjectOne, Projectable, ProjectFrom;
    if forall i :: 0 <= i < |slices| ==> Projectable(v, slices[i]) {
      ProjectAll(v, slices, validity, 0);
      forall i | 0 <= i < |slices|
        ensures ProjectFrom(v, slices, validity, 0).value[i] == ProjectOne(v, slices, validity, i).value
      {
        assert ProjectFrom(v, slices, validity, 0).value[i - 0] == ProjectOne(v, slices, validity, i).value;
      }
    } else {
      var k := FirstBad(v, slices);
      ProjectFails(v, slices, validity, 0, k);
      forall other | 0 <= other < |slices| && !Projectable(v, slices[other])
                     && (forall j :: 0 <= j < other ==> Projectable(v, slices[j]))
        ensures other == k
      {
      }
    }
  }

  lemma FirstBad(v: Vectors, slices: seq<Slice>) returns (k: nat)
    requires exists i :: 0 <= i < |slices| && !Projectable(v, slices[i])
    ensures k < |slices| && !Projectable(v, slices[k]) && forall j :: 0 <= j < k ==> Projectable(v, slices[j])
  {
    k := 0;
    while Projectable(v, slices[k])
      invariant k < |slices| && forall j :: 0 <= j < k ==> Projectable(v, slices[j])
      decreases |slices| - k
    {
      k := k + 1;
    }
  }

  lemma GatherOne(c: Compiled, rings: Rings, at: nat, maxGap: nat, r: Assembled, i: nat)
    requires AssembledOk(c, rings, at, maxGap, r) && i < |c.features|
    ensures ProjectOne(r.vectors, Slices(c.features), r.validity, i) ==
            Ok(Named(c.features[i].featureId, c.features[i].name, c.features[i].kind.Wire(),
                     Expected(c.features[i], rings, at, maxGap),
                     ValueOf(c.features[i], rings, at, maxGap).Some?, c.features[i].required))
  {
    hide AssembledOk, Expected, ValueOf, BitAt;
    AssembledAt(c, rings, at, maxGap, r, i);
    assert VectorOf(r.vectors, c.features[i].kind.Wire()) == Some(r.vectors.Get(c.features[i].kind));
  }

  lemma AssembledAt(c: Compiled, rings: Rings, at: nat, maxGap: nat, r: Assembled, i: nat)
    requires AssembledOk(c, rings, at, maxGap, r) && i < |c.features|
    ensures Inside(c.features[i], r.vectors) && ContentOf(c.features[i], r.vectors) == Expected(c.features[i], rings, at, maxGap)
    ensures BitAt(r.validity, i) <==> ValueOf(c.features[i], rings, at, maxGap).Some?
  {
    hide Expected, ValueOf, BitAt, DevicesOk, ContentOf;
  }

  /** What must come out for a feature: what it is, and its resampled values or zeros. */
  function NamedFor(f: Feature, rings: Rings, at: nat, maxGap: nat): Named {
    Named(f.featureId, f.name, if f.kind.Observation? then 1 else if f.kind.Action? then 2 else 3,
          Expected(f, rings, at, maxGap), ValueOf(f, rings, at, maxGap).Some?, f.required)
  }

  /**
   * Feature values survive the whole path: what the relay projects for each
   * feature is exactly its resampled values with valid true, or zeros with valid false.
   */
  lemma ProjectionUndoesAssembly(c: Compiled, rings: Rings, at: nat, maxGap: nat, r: Assembled)
    requires AssembledOk(c, rings, at, maxGap, r)
    ensures var named := ProjectFeatures(r.vectors, Slices(c.features), r.validity);
            && named.Ok? && |named.value| == |c.features|
            && forall i :: 0 <= i < |c.features| ==>
                 named.value[i] == NamedFor(c.features[i], rings, at, maxGap)
  {
    hide AssembledOk, Expected, ValueOf;
    var slices := Slices(c.features);
    forall i | 0 <= i < |slices|
      ensures ProjectOne(r.vectors, slices, r.validity, i) ==
              Ok(Named(c.features[i].featureId, c.features[i].name, c.features[i].kind.Wire(),
                       Expected(c.features[i], rings, at, maxGap),
                       ValueOf(c.features[i], rings, at, maxGap).Some?, c.features[i].required))
    {
      GatherOne(c, rings, at, maxGap, r, i);
    }
    ProjectAll(r.vectors, slices, r.validity, 0);
    forall i | 0 <= i < |c.features|
      ensures ProjectFeatures(r.vectors, slices, r.validity).value[i] == ProjectOne(r.vectors, slices, r.validity, i).value
    {
      assert ProjectFrom(r.vectors, slices, r.validity, 0).value[i - 0] == ProjectOne(r.vectors, slices, r.validity, i).value;
    }
  }

  // ---- The reason for an invalid frame ----

  lemma {:induction false} MissingNamesEmpty(features: seq<Feature>, rings: Rings, at: nat, maxGap: nat)
    ensures MissingNames(features, rings, at, maxGap) == [] <==>
            forall i :: 0 <= i < |features| ==> !Missing(features[i], rings, at, maxGap)
  {
    if features != [] {
      var last := |features| - 1;
      MissingNamesEmpty(features[..last], rings, at, maxGap);
      assert forall i :: 0 <= i < last ==> features[..last][i] == features[i];
    }
  }

  lemma {:induction false} MissingNamesNonEmpty(features: seq<Feature>, rings: Rings, at: nat, maxGap: nat)
    requires forall i :: 0 <= i < |features| ==> features[i].name != []
    ensures forall k :: 0 <= k < |MissingNames(features, rings, at, maxGap)| ==> MissingNames(features, rings, at, maxGap)[k] != []
  {
    if features != [] {
      MissingNamesNonEmpty(features[..|features| - 1], rings, at, maxGap);
    }
  }

  /** The context's reason is empty exactly when every required feature has a value. */
  lemma ReasonEmptyWhenValid(c: Compiled, rings: Rings, at: nat, maxGap: nat, r: Assembled)
    requires LayoutFits(c) && AssembledOk(c, rings, at, maxGap, r)
    ensures r.invalidReason == [] <==>
            forall i :: 0 <= i < |c.features| && c.features[i].required ==> ValueOf(c.features[i], rings, at, maxGap).Some?
  {
    forall i | 0 <= i < |c.features|
      ensures c.features[i].name != []
    {
      assert SliceOk(Slices(c.features), i);
    }
    MissingNamesEmpty(c.features, rings, at, maxGap);
    MissingNamesNonEmpty(c.features, rings, at, maxGap);
    if r.missing != [] {
      assert JoinOn(r.missing, ',') != [];
    }
  }

  // ---- The rings the assembler starts with and what pushes keep ----

  function NewRings(features: seq<Feature>, capacity: nat): Result<Rings, ContextError> {
    if features == [] then Ok(map[])
    else
      var last := |features| - 1;
      var rings :- NewRings(features[..last], capacity);
      var ring :- NewRing(capacity, features[last].length);
      Ok(rings[features[last].featureId := ring])
  }

  function PushSample(rings: Rings, featureId: nat, sample: Sample): (Result<(), ContextError>, Rings) {
    if featureId !in rings then (Err(InvalidSample), rings)
    else var (result, ring) := InsertStep(rings[featureId], sample); (result, rings[featureId := ring])
  }

  ghost predicate DistinctIds(features: seq<Feature>) {
    forall i, j :: 0 <= i < j < |features| ==> features[i].featureId != features[j].featureId
  }

  lemma {:induction false} NewRingsOk(features: seq<Feature>, capacity: nat)
    requires DistinctIds(features) && NewRings(features, capacity).Ok?
    ensures RingsOk(features, NewRings(features, capacity).value)
    ensures NewRings(features, capacity).value.Keys == set i | 0 <= i < |features| :: features[i].featureId
  {
    if features != [] {
      var last := |features| - 1;
      var front := features[..last];
      assert forall i :: 0 <= i < last ==> front[i] == features[i];
      NewRingsOk(front, capacity);
      hide FeatureRing.Valid;
      var rings := NewRings(front, capacity).value;
      var ring := NewRing(capacity, features[last].length).value;
      FreshRing(capacity, features[last].length);
      OneMoreRing(features, rings, ring);
    }
  }

  lemma FreshRing(capacity: nat, length: nat)
    requires NewRing(capacity, length).Ok?
    ensures FeatureRing.Valid(NewRing(capacity, length).value) && NewRing(capacity, length).value.vectorLength == length
  {
  }

  lemma OneMoreRing(features: seq<Feature>, rings: Rings, ring: Ring)
    requires features != [] && DistinctIds(features) && RingsOk(features[..|features| - 1], rings)
    requires FeatureRing.Valid(ring) && ring.vectorLength == features[|features| - 1].length
    ensures RingsOk(features, rings[features[|features| - 1].featureId := ring])
  {
    hide FeatureRing.Valid;
    var last := |features| - 1;
    forall i | 0 <= i < last
      ensures features[i] == features[..last][i] && features[i].featureId != features[last].featureId
    {
    }
  }

  lemma PushKeepsRings(features: seq<Feature>, rings: Rings, featureId: nat, sample: Sample)
    requires RingsOk(features, rings)
    ensures RingsOk(features, PushSample(rings, featureId, sample).1)
  {
    if featureId in rings {
      forall i | 0 <= i < |features| && features[i].featureId == featureId
        ensures FeatureRing.Valid(InsertStep(rings[featureId], sample).1)
      {
        InsertKeepsValid(rings[featureId], sample);
      }
    }
  }

  lemma InsertKeepsValid(ring: Ring, sample: Sample)
    requires FeatureRing.Valid(ring)
    ensures FeatureRing.Valid(InsertStep(ring, sample).1)
  {
    if Insertable(ring, sample) {
      SortedSnoc(ring.samples, sample);
    }
  }

  // ---- The whole path ----

  /** A compiled embodiment with usable features fits the assembler's vectors. */
  lemma CompiledFits(layout: VectorLayout, available: Available, schemaId: SchemaId)
    requires Filed(available) && Compile(layout, available, schemaId).Ok?
    requires UsableFeatures(Compile(layout, available, schemaId).value.features)
    ensures LayoutFits(Compile(layout, available, schemaId).value)
  {
    hide Compile;
    CompiledIsPlaced(layout, available, schemaId);
    PlacedIsOk(Compile(layout, available, schemaId).value.features);
  }

  function PushAll(rings: Rings, pushes: seq<(nat, Sample)>): Rings {
    if pushes == [] then rings
    else PushSample(PushAll(rings, pushes[..|pushes| - 1]), pushes[|pushes| - 1].0, pushes[|pushes| - 1].1).1
  }

  lemma {:induction false} PushAllKeepsRings(features: seq<Feature>, rings: Rings, pushes: seq<(nat, Sample)>)
    requires RingsOk(features, rings)
    ensures RingsOk(features, PushAll(rings, pushes))
    decreases |pushes|
  {
    if pushes != [] {
      var last := |pushes| - 1;
      PushAllKeepsRings(features, rings, pushes[..last]);
      PushKeepsRings(features, PushAll(rings, pushes[..last]), pushes[last].0, pushes[last].1);
    }
  }

  /** Each feature comes out as what it is, with its resampled values and valid set, or with zeros. */
  ghost predicate Survives(features: seq<Feature>, rings: Rings, at: nat, maxGap: nat, named: seq<Named>) {
    |named| == |features| && forall i :: 0 <= i < |features| ==> named[i] == NamedFor(features[i], rings, at, maxGap)
  }

  /** The manifest's part of a compiled layout. */
  function WithLayout(m: Manifest, c: Compiled): Manifest {
    m.(slices := Slices(c.features), observationLength := c.observationLength, actionLength := c.actionLength,
       auxiliaryLength := c.auxiliaryLength)
  }

  /** Assembled, accepted by the Receiver and projected at the relay, every feature survives. */
  lemma FeaturesSurvive(
      layout: VectorLayout, available: Available, schemaId: SchemaId, rings: Rings, at: nat, maxGap: nat,
      r: Assembled, m: Manifest)
    requires Filed(available) && Compile(layout, available, schemaId).Ok?
    requires var c := Compile(layout, available, schemaId).value;
             UsableFeatures(c.features) && AssembledOk(c, rings, at, maxGap, r)
    ensures var c := Compile(layout, available, schemaId).value;
            var named := ProjectFeatures(r.vectors, WithLayout(m, c).slices, r.validity);
            LayoutOk(WithLayout(m, c)) && named.Ok? && Survives(c.features, rings, at, maxGap, named.value)
  {
    hide Compile, AssembledOk;
    var c := Compile(layout, available, schemaId).value;
    ReceiverAcceptsCompiled(layout, available, schemaId, WithLayout(m, c));
    ProjectionUndoesAssembly(c, rings, at, maxGap, r);
  }

  /**
   * The whole path, from the adapters' descriptors to the relay's named features: gather,
   * compile, the Receiver's layout test, new rings, any run of samples, assembly and
   * projection. It yields features exactly when the embodiment compiles, its features are
   * usable and the rings have room, and then every feature survives.
   */
  method FeaturePath(
      devices: seq<DeviceRef>, descriptors: map<Text, seq<DeviceDescriptor>>, layout: VectorLayout, schemaId: SchemaId,
      m: Manifest, capacity: nat, pushes: seq<(nat, Sample)>, at: nat, maxGap: nat)
    returns (named: Option<seq<Named>>)
    ensures named.Some? <==>
            && Gather(devices, descriptors, map[]).Ok?
            && var compiled := Compile(layout, Gather(devices, descriptors, map[]).value, schemaId);
            && compiled.Ok? && UsableFeatures(compiled.value.features) && (compiled.value.features != [] ==> capacity > 0)
    ensures named.Some? ==>
              var c := Compile(layout, Gather(devices, descriptors, map[]).value, schemaId).value;
              && NewRings(c.features, capacity).Ok?
              && Survives(c.features, PushAll(NewRings(c.features, capacity).value, pushes), at, maxGap, named.value)
  {
    hide Gather, Compile, AssembledOk, LayoutFits, RingsOk, Survives, ProjectFeatures, LayoutOk, PushSample, UsableFeatures;
    var gathered := Gather(devices, descriptors, map[]);
    if gathered.Err? {
      return None;
    }
    GatherFiled(devices, descriptors);
    var compiled := Compile(layout, gathered.value, schemaId);
    if compiled.Err? {
      return None;
    }
    var c := compiled.value;
    var accepted := ValidateLayout(WithLayout(m, c));
    ReceiverAcceptsCompiled(layout, gathered.value, schemaId, WithLayout(m, c));
    if !accepted {
      return None;
    }
    CompiledFits(layout, gathered.value, schemaId);
    UsableRings(c.features, capacity);
    var started := NewRings(c.features, capacity);
    if started.Err? {
      return None;
    }
    var rings := started.value;
    for i := 0 to |pushes|
      invariant rings == PushAll(started.value, pushes[..i])
    {
      assert pushes[..i + 1][..i] == pushes[..i];
      rings := PushSample(rings, pushes[i].0, pushes[i].1).1;
    }
    assert pushes[..|pushes|] == pushes;
    PushAllKeepsRings(c.features, started.value, pushes);
    var r := Assemble(c, rings, at, maxGap);
    FeaturesSurvive(layout, gathered.value, schemaId, rings, at, maxGap, r, m);
    return Some(ProjectFeatures(r.vectors, WithLayout(m, c).slices, r.validity).value);
  }

  lemma UsableRings(features: seq<Feature>, capacity: nat)
    requires UsableFeatures(features)
    ensures NewRings(features, capacity).Ok? <==> (features != [] ==> capacity > 0)
    ensures NewRings(features, capacity).Ok? ==> RingsOk(features, NewRings(features, capacity).value)
  {
    RingsMade(features, capacity);
    if NewRings(features, capacity).Ok? {
      NewRingsOk(features, capacity);
    }
  }

  lemma {:induction false} RingsMade(features: seq<Feature>, capacity: nat)
    requires forall i :: 0 <= i < |features| ==> features[i].length != 0
    ensures NewRings(features, capacity).Ok? <==> (features != [] ==> capacity > 0)
  {
    if features != [] {
      RingsMade(features[..|features| - 1], capacity);
    }
  }
}
