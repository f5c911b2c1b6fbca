/**
 * The Receiver's judgement of a session manifest, `validate_manifest` and
 * `validate_layout` of `crates/receiver/src/synchronize.rs`.
 */
module SessionManifest {
  import opened Common
  import opened Text

  datatype Camera = Camera(id: Text, slot: nat, epoch: nat, port: nat, role: int, excluded: bool)

  datatype Slice = Slice(featureId: nat, name: Text, kind: int, offset: nat, length: nat, required: bool)

  datatype Manifest = Manifest(
    schemaVersion: nat, sessionId: seq<Byte>, edgeBootId: seq<Byte>, revision: nat, anchorCameraId: Text,
    streamIdSchema: string, schemaIdAlgorithm: string, observationSchemaId: nat, actionSchemaId: nat,
    observationLength: nat, actionLength: nat, auxiliaryLength: nat, slices: seq<Slice>, cameras: seq<Camera>)

  datatype ConnectedCamera = ConnectedCamera(cameraId: Text, slot: nat, epoch: nat, port: nat)

  datatype SynchronizeError = BadManifest | CameraCatalog | FeatureLayout | BadContext | MissingCamera | NonMonotonic

  const ANCHOR_ROLE := 1
  const STREAM_ID_SCHEMA := "rmc1"
  const SCHEMA_ID_HASH := "RFC8785-JCS+SHA-256-first-64-bits-big-endian"

  // ---- Feature layout ----

  predicate IsKind(kind: int) { 1 <= kind <= 3 }

  /** The number of vector entries that the slices of one kind take. */
  function SumOf(slices: seq<Slice>, kind: int): nat {
    if slices == [] then 0
    else SumOf(slices[..|slices| - 1], kind)
         + (if slices[|slices| - 1].kind == kind then slices[|slices| - 1].length else 0)
  }

  /** Slice `i` starts where the earlier slices of its kind end, and is new. */
  predicate SliceOk(slices: seq<Slice>, i: nat)
    requires i < |slices|
  {
    var s := slices[i];
    && IsKind(s.kind) && s.featureId != 0 && s.name != [] && s.length != 0
    && s.offset == SumOf(slices[..i], s.kind)
    && s.offset + s.length <= U32_MAX
    && (forall j :: 0 <= j < i ==> slices[j].name != s.name && slices[j].featureId != s.featureId)
  }

  predicate SlicesOk(slices: seq<Slice>) {
    forall i :: 0 <= i < |slices| ==> SliceOk(slices, i)
  }

  /** What the Receiver accepts as a layout. */
  predicate LayoutOk(m: Manifest) {
    && SlicesOk(m.slices)
    && SumOf(m.slices, 1) == m.observationLength
    && SumOf(m.slices, 2) == m.actionLength
    && SumOf(m.slices, 3) == m.auxiliaryLength
  }

  lemma SumSnoc(slices: seq<Slice>, i: nat, kind: int)
    requires i < |slices|
    ensures SumOf(slices[..i + 1], kind) ==
            SumOf(slices[..i], kind) + (if slices[i].kind == kind then slices[i].length else 0)
  {
    assert slices[..i + 1][..i] == slices[..i];
  }

  method ValidateLayout(m: Manifest) returns (ok: bool)
    ensures ok <==> LayoutOk(m)
  {
    var expected := map[1 := 0, 2 := 0, 3 := 0];
    var names: set<Text>, ids: set<nat> := {}, {};
    for i := 0 to |m.slices|
      invariant expected.Keys == {1, 2, 3}
      invariant forall kind :: IsKind(kind) ==> expected[kind] == SumOf(m.slices[..i], kind)
      invariant names == set j | 0 <= j < i :: m.slices[j].name
      invariant ids == set j | 0 <= j < i :: m.slices[j].featureId
      invariant forall j :: 0 <= j < i ==> SliceOk(m.slices, j)
    {
      var feature := m.slices[i];
      if feature.kind !in expected
         || feature.featureId == 0 || feature.name == [] || feature.length == 0
         || feature.offset != expected[feature.kind]
         || feature.name in names || feature.featureId in ids
         || expected[feature.kind] + feature.length > U32_MAX
      {
        assert !SliceOk(m.slices, i);
        return false;
      }
      names, ids := names + {feature.name}, ids + {feature.featureId};
      expected := expected[feature.kind := expected[feature.kind] + feature.length];
      forall kind | IsKind(kind)
        ensures expected[kind] == SumOf(m.slices[..i + 1], kind)
      {
        SumSnoc(m.slices, i, kind);
      }
    }
    assert m.slices[..|m.slices|] == m.slices;
    ok := expected[1] == m.observationLength && expected[2] == m.actionLength && expected[3] == m.auxiliaryLength;
    assert IsKind(1) && IsKind(2) && IsKind(3);
  }

  lemma {:induction false} SumMonotone(slices: seq<Slice>, i: nat, j: nat, kind: int)
    requires i <= j <= |slices|
    ensures SumOf(slices[..i], kind) <= SumOf(slices[..j], kind)
    decreases j - i
  {
    if i < j {
      SumSnoc(slices, i, kind);
      SumMonotone(slices, i + 1, j, kind);
    }
  }

  /** Two slices of one kind never overlap, and none runs past its vector. */
  lemma SlicesDisjoint(slices: seq<Slice>, i: nat, j: nat)
    requires SlicesOk(slices) && i < j < |slices| && slices[i].kind == slices[j].kind
    ensures slices[i].offset + slices[i].length <= slices[j].offset
  {
    assert SliceOk(slices, i) && SliceOk(slices, j);
    SumSnoc(slices, i, slices[i].kind);
    SumMonotone(slices, i + 1, j, slices[i].kind);
  }

  lemma SliceInVector(slices: seq<Slice>, i: nat)
    requires SlicesOk(slices) && i < |slices|
    ensures slices[i].offset + slices[i].length <= SumOf(slices, slices[i].kind)
  {
    assert SliceOk(slices, i);
    SumSnoc(slices, i, slices[i].kind);
    SumMonotone(slices, i + 1, |slices|, slices[i].kind);
    assert slices[..|slices|] == slices;
  }

  predicate Owns(s: Slice, kind: int, p: nat) {
    s.kind == kind && s.offset <= p < s.offset + s.length
  }

  /** Every entry of a vector belongs to exactly one slice. */
  lemma {:induction false} SlicesPartition(slices: seq<Slice>, kind: int, p: nat)
    requires SlicesOk(slices) && p < SumOf(slices, kind)
    ensures exists i :: 0 <= i < |slices| && Owns(slices[i], kind, p)
    ensures forall i, j :: 0 <= i < j < |slices| ==> !Owns(slices[i], kind, p) || !Owns(slices[j], kind, p)
    decreases |slices|
  {
    var last := |slices| - 1;
    var front := slices[..last];
    assert SlicesOk(front) by {
      forall i | 0 <= i < last ensures SliceOk(front, i) {
        assert SliceOk(slices, i) && front[..i] == slices[..i];
      }
    }
    assert SliceOk(slices, last);
    if p < SumOf(front, kind) {
      SlicesPartition(front, kind, p);
      var i :| 0 <= i < |front| && Owns(front[i], kind, p);
      assert Owns(slices[i], kind, p);
    } else {
      assert Owns(slices[last], kind, p);
    }
    forall i, j | 0 <= i < j < |slices| && Owns(slices[i], kind, p)
      ensures !Owns(slices[j], kind, p)
    {
      if slices[j].kind == kind {
        SlicesDisjoint(slices, i, j);
      }
    }
  }

  // ---- Camera catalog ----

  /** The entry a map built from the list holds for an id: the last one. */
  function Lookup(transports: seq<ConnectedCamera>, id: Text): Option<ConnectedCamera> {
    if transports == [] then None
    else if transports[|transports| - 1].cameraId == id then Some(transports[|transports| - 1])
    else Lookup(transports[..|transports| - 1], id)
  }

  /** A streamed camera agrees with an authenticated transport on slot, epoch and port. */
  predicate Backed(c: Camera, transports: seq<ConnectedCamera>, basePort: nat) {
    var t := Lookup(transports, c.id);
    && t.Some? && basePort + c.slot <= U32_MAX
    && t.value.slot == c.slot && t.value.epoch == c.epoch
    && t.value.port == basePort + c.slot == c.port
  }

  predicate CameraOk(m: Manifest, i: nat, transports: seq<ConnectedCamera>, basePort: nat)
    requires i < |m.cameras|
  {
    var c := m.cameras[i];
    && c.id != [] && (forall j :: 0 <= j < i ==> m.cameras[j].id != c.id)
    && (c.role == ANCHOR_ROLE ==> c.id == m.anchorCameraId && !c.excluded)
    && (!c.excluded ==> Backed(c, transports, basePort))
  }

  function Streamed(cameras: seq<Camera>): set<Text> {
    set c | c in cameras && !c.excluded :: c.id
  }

  function CountStreamed(cameras: seq<Camera>): nat {
    if cameras == [] then 0
    else CountStreamed(cameras[..|cameras| - 1]) + (if cameras[|cameras| - 1].excluded then 0 else 1)
  }

  function CountAnchors(cameras: seq<Camera>): nat {
    if cameras == [] then 0
    else CountAnchors(cameras[..|cameras| - 1]) + (if cameras[|cameras| - 1].role == ANCHOR_ROLE then 1 else 0)
  }

  predicate IdentityOk(m: Manifest) {
    && m.schemaVersion == 1 && |m.sessionId| == 16 && |m.edgeBootId| == 16 && m.revision != 0
    && m.anchorCameraId != [] && m.streamIdSchema == STREAM_ID_SCHEMA && m.schemaIdAlgorithm == SCHEMA_ID_HASH
  }

  predicate CatalogOk(m: Manifest, transports: seq<ConnectedCamera>, basePort: nat) {
    && (forall i :: 0 <= i < |m.cameras| ==> CameraOk(m, i, transports, basePort))
    && CountAnchors(m.cameras) == 1
    && |transports| == CountStreamed(m.cameras)
  }

  function Judge(m: Manifest, transports: seq<ConnectedCamera>, basePort: nat): Result<Manifest, SynchronizeError> {
    if !IdentityOk(m) then Err(BadManifest)
    else if !CatalogOk(m, transports, basePort) then Err(CameraCatalog)
    else if !LayoutOk(m) then Err(FeatureLayout)
    else Ok(m)
  }

  method ValidateManifest(m: Manifest, transports: seq<ConnectedCamera>, basePort: nat)
    returns (result: Result<Manifest, SynchronizeError>)
    ensures result == Judge(m, transports, basePort)
  {
    if !IdentityOk(m) {
      return Err(BadManifest);
    }
    var cameraIds: set<Text>, anchorCount, streamed := {}, 0, 0;
    for i := 0 to |m.cameras|
      invariant forall j :: 0 <= j < i ==> CameraOk(m, j, transports, basePort)
      invariant cameraIds == set j | 0 <= j < i :: m.cameras[j].id
      invariant anchorCount == CountAnchors(m.cameras[..i]) && streamed == CountStreamed(m.cameras[..i])
    {
      var camera := m.cameras[i];
      assert m.cameras[..i + 1][..i] == m.cameras[..i];
      if camera.id == [] || camera.id in cameraIds {
        assert !CameraOk(m, i, transports, basePort);
        return Err(CameraCatalog);
      }
      cameraIds := cameraIds + {camera.id};
      if camera.role == ANCHOR_ROLE {
        anchorCount := anchorCount + 1;
        if camera.id != m.anchorCameraId || camera.excluded {
          assert !CameraOk(m, i, transports, basePort);
          return Err(CameraCatalog);
        }
      }
      if !camera.excluded {
        streamed := streamed + 1;
        if !Backed(camera, transports, basePort) {
          assert !CameraOk(m, i, transports, basePort);
          return Err(CameraCatalog);
        }
      }
    }
    assert m.cameras[..|m.cameras|] == m.cameras;
    if anchorCount != 1 || |transports| != streamed {
      return Err(CameraCatalog);
    }
    var layout := ValidateLayout(m);
    if !layout {
      return Err(FeatureLayout);
    }
    return Ok(m);
  }

  // ---- What an accepted catalog pins down ----

  predicate DistinctTransports(transports: seq<ConnectedCamera>) {
    forall i, j :: 0 <= i < j < |transports| ==> transports[i].cameraId != transports[j].cameraId
  }

  function TransportIds(transports: seq<ConnectedCamera>): set<Text> {
    set i | 0 <= i < |transports| :: transports[i].cameraId
  }

  lemma {:induction false} LookupFinds(transports: seq<ConnectedCamera>, id: Text)
    ensures Lookup(transports, id).Some? ==>
              Lookup(transports, id).value in transports && Lookup(transports, id).value.cameraId == id
    ensures Lookup(transports, id).Some? <==> id in TransportIds(transports)
  {
    if transports != [] {
      var last := |transports| - 1;
      LookupFinds(transports[..last], id);
      if id in TransportIds(transports[..last]) {
        var i :| 0 <= i < last && transports[..last][i].cameraId == id;
        assert transports[i].cameraId == id;
      }
      if id in TransportIds(transports) && transports[last].cameraId != id {
        var i :| 0 <= i < |transports| && transports[i].cameraId == id;
        assert transports[..last][i].cameraId == id;
      }
    }
  }

  lemma {:induction false} TransportIdsSize(transports: seq<ConnectedCamera>)
    requires DistinctTransports(transports)
    ensures |TransportIds(transports)| == |transports|
  {
    if transports != [] {
      var last := |transports| - 1;
      TransportIdsSize(transports[..last]);
      assert forall i :: 0 <= i < last ==> transports[..last][i] == transports[i];
      assert TransportIds(transports) == TransportIds(transports[..last]) + {transports[last].cameraId};
    }
  }

  predicate DistinctCameras(cameras: seq<Camera>) {
    forall i, j :: 0 <= i < j < |cameras| ==> cameras[i].id != cameras[j].id
  }

  lemma {:induction false} StreamedSize(cameras: seq<Camera>)
    requires DistinctCameras(cameras)
    ensures |Streamed(cameras)| == CountStreamed(cameras)
  {
    if cameras != [] {
      var last := |cameras| - 1;
      var front := cameras[..last];
      StreamedSize(front);
      assert cameras == front + [cameras[last]];
      if cameras[last].excluded {
        assert Streamed(cameras) == Streamed(front);
      } else {
        assert Streamed(cameras) == Streamed(front) + {cameras[last].id};
        assert cameras[last].id !in Streamed(front);
      }
    }
  }

  /** The streamed cameras of an accepted manifest are exactly the connected ones. */
  lemma CatalogIsBijective(m: Manifest, transports: seq<ConnectedCamera>, basePort: nat)
    requires CatalogOk(m, transports, basePort) && DistinctTransports(transports)
    ensures DistinctCameras(m.cameras)
    ensures Streamed(m.cameras) == TransportIds(transports)
  {
    forall i, j | 0 <= i < j < |m.cameras|
      ensures m.cameras[i].id != m.cameras[j].id
    {
      assert CameraOk(m, j, transports, basePort);
    }
    forall id | id in Streamed(m.cameras)
      ensures id in TransportIds(transports)
    {
      var c :| c in m.cameras && !c.excluded && c.id == id;
      var i :| 0 <= i < |m.cameras| && m.cameras[i] == c;
      assert CameraOk(m, i, transports, basePort);
      LookupFinds(transports, id);
    }
    StreamedSize(m.cameras);
    TransportIdsSize(transports);
    SubsetSize(Streamed(m.cameras), TransportIds(transports));
  }

  /** A camera and a transport are the same stream. */
  predicate SameStream(c: Camera, t: ConnectedCamera, basePort: nat) {
    c.id == t.cameraId && c.slot == t.slot && c.epoch == t.epoch && c.port == t.port == basePort + t.slot
  }

  /** Every transport has its camera, and every streamed camera its transport. */
  lemma CatalogMatches(m: Manifest, transports: seq<ConnectedCamera>, basePort: nat)
    requires CatalogOk(m, transports, basePort) && DistinctTransports(transports)
    ensures forall c :: c in m.cameras && !c.excluded ==> exists t :: t in transports && SameStream(c, t, basePort)
    ensures forall t :: t in transports ==> exists c :: c in m.cameras && !c.excluded && SameStream(c, t, basePort)
  {
    CatalogIsBijective(m, transports, basePort);
    forall c | c in m.cameras && !c.excluded
      ensures Lookup(transports, c.id).Some? && Lookup(transports, c.id).value in transports
              && SameStream(c, Lookup(transports, c.id).value, basePort)
    {
      var i :| 0 <= i < |m.cameras| && m.cameras[i] == c;
      assert CameraOk(m, i, transports, basePort);
      LookupFinds(transports, c.id);
    }
    forall t | t in transports
      ensures exists c :: c in m.cameras && !c.excluded && SameStream(c, t, basePort)
    {
      assert t.cameraId in TransportIds(transports);
      var c :| c in m.cameras && !c.excluded && c.id == t.cameraId;
      var found := Lookup(transports, c.id).value;
      var i, j :| 0 <= i < |transports| && 0 <= j < |transports| && transports[i] == t && transports[j] == found;
      assert i == j;
      assert SameStream(c, t, basePort);
    }
  }

  /** Exactly one camera has the anchor role; it is the named one and it is streamed. */
  lemma {:induction false} OneAnchor(cameras: seq<Camera>)
    requires CountAnchors(cameras) == 1
    ensures exists i :: 0 <= i < |cameras| && cameras[i].role == ANCHOR_ROLE
    ensures forall i, j :: 0 <= i < j < |cameras| ==> cameras[i].role != ANCHOR_ROLE || cameras[j].role != ANCHOR_ROLE
  {
    var last := |cameras| - 1;
    var front := cameras[..last];
    if cameras[last].role == ANCHOR_ROLE {
      NoAnchor(front);
      assert forall i :: 0 <= i < last ==> front[i] == cameras[i];
    } else {
      OneAnchor(front);
      var i :| 0 <= i < |front| && front[i].role == ANCHOR_ROLE;
      assert cameras[i].role == ANCHOR_ROLE;
      assert forall k :: 0 <= k < last ==> front[k] == cameras[k];
    }
  }

  lemma {:induction false} NoAnchor(cameras: seq<Camera>)
    requires CountAnchors(cameras) == 0
    ensures forall i :: 0 <= i < |cameras| ==> cameras[i].role != ANCHOR_ROLE
  {
    if cameras != [] {
      NoAnchor(cameras[..|cameras| - 1]);
      assert forall i :: 0 <= i < |cameras| - 1 ==> cameras[..|cameras| - 1][i] == cameras[i];
    }
  }
}
