/**
 * Exactly which session manifests `crates/receiver/src/synchronize.rs` accepts, in terms of
 * the cameras, transports and slices themselves rather than of the loops that test them.
 */
module Judgement {
  import opened Common
  import opened SessionManifest
  import opened Text

  // ---- The layout ----

  /** Where the last slice of a kind ends. */
  function EndOf(slices: seq<Slice>, kind: int): nat {
    if slices == [] then 0
    else
      var last := slices[|slices| - 1];
      if last.kind == kind then last.offset + last.length else EndOf(slices[..|slices| - 1], kind)
  }

  /** A slice of a known kind, named, not empty and within 32 bits. */
  predicate Proper(s: Slice) {
    1 <= s.kind <= 3 && s.featureId != 0 && s.name != [] && s.length > 0 && s.offset + s.length <= 0xFFFF_FFFF
  }

  /** Proper slices with names and ids of their own, each where the one of its kind before it ends. */
  ghost predicate Tiled(slices: seq<Slice>) {
    && (forall i :: 0 <= i < |slices| ==> Proper(slices[i]))
    && (forall i :: 0 <= i < |slices| ==> slices[i].offset == EndOf(slices[..i], slices[i].kind))
    && (forall i, j :: 0 <= i < j < |slices| ==> slices[i].name != slices[j].name && slices[i].featureId != slices[j].featureId)
  }

  ghost predicate Abuts(slices: seq<Slice>, n: nat) {
    forall i :: 0 <= i < n <= |slices| ==> slices[i].offset == EndOf(slices[..i], slices[i].kind)
  }

  ghost predicate Sums(slices: seq<Slice>, n: nat) {
    forall i :: 0 <= i < n <= |slices| ==> slices[i].offset == SumOf(slices[..i], slices[i].kind)
  }

  lemma {:induction false} EndIsSum(slices: seq<Slice>, n: nat, kind: int)
    requires n <= |slices|
    requires Sums(slices, n) || Abuts(slices, n)
    ensures EndOf(slices[..n], kind) == SumOf(slices[..n], kind)
    decreases n
  {
    if n > 0 {
      assert slices[..n][..n - 1] == slices[..n - 1];
      EndIsSum(slices, n - 1, kind);
      EndIsSum(slices, n - 1, slices[n - 1].kind);
    }
  }

  lemma TiledIsOk(slices: seq<Slice>)
    ensures SlicesOk(slices) <==> Tiled(slices)
  {
    hide SumOf, EndOf;
    if SlicesOk(slices) {
      forall i | 0 <= i < |slices|
        ensures Proper(slices[i]) && slices[i].offset == EndOf(slices[..i], slices[i].kind)
        ensures forall j :: 0 <= j < i ==> slices[j].name != slices[i].name && slices[j].featureId != slices[i].featureId
      {
        assert SliceOk(slices, i);
        forall j | 0 <= j < i
          ensures slices[j].offset == SumOf(slices[..j], slices[j].kind)
          ensures slices[j].name != slices[i].name && slices[j].featureId != slices[i].featureId
        {
          assert SliceOk(slices, j);
        }
        assert Sums(slices, i);
        EndIsSum(slices, i, slices[i].kind);
      }
    }
    if Tiled(slices) {
      forall i | 0 <= i < |slices|
        ensures SliceOk(slices, i)
      {
        assert Abuts(slices, i);
        EndIsSum(slices, i, slices[i].kind);
      }
    }
  }

  /** The layout is accepted exactly when its slices tile vectors of the announced lengths. */
  lemma LayoutExactlyWhen(m: Manifest)
    ensures LayoutOk(m) <==>
            && Tiled(m.slices) && EndOf(m.slices, 1) == m.observationLength
            && EndOf(m.slices, 2) == m.actionLength && EndOf(m.slices, 3) == m.auxiliaryLength
  {
    var slices := m.slices;
    TiledIsOk(slices);
    if Tiled(slices) {
      assert slices[..|slices|] == slices;
      assert Abuts(slices, |slices|);
      EndIsSum(slices, |slices|, 1);
      EndIsSum(slices, |slices|, 2);
      EndIsSum(slices, |slices|, 3);
    }
  }

  // ---- The catalog ----

  /** Camera `i` is the only one with the anchor role, and it is the named one and streamed. */
  ghost predicate IsTheAnchor(m: Manifest, i: nat) {
    && i < |m.cameras| && m.cameras[i].role == 1 && m.cameras[i].id == m.anchorCameraId && !m.cameras[i].excluded
    && forall j :: 0 <= j < |m.cameras| && m.cameras[j].role == 1 ==> j == i
  }

  ghost predicate HasTransport(c: Camera, transports: seq<ConnectedCamera>, basePort: nat) {
    exists t :: t in transports && SameStream(c, t, basePort)
  }

  ghost predicate HasCamera(t: ConnectedCamera, cameras: seq<Camera>, basePort: nat) {
    exists c :: c in cameras && !c.excluded && SameStream(c, t, basePort)
  }

  /** Cameras with names of their own, one of them the anchor, and the streamed ones are the connected ones. */
  ghost predicate Catalogued(m: Manifest, transports: seq<ConnectedCamera>, basePort: nat) {
    && (forall i :: 0 <= i < |m.cameras| ==> m.cameras[i].id != [])
    && DistinctCameras(m.cameras)
    && (exists i :: IsTheAnchor(m, i))
    && (forall c :: c in m.cameras && !c.excluded ==> basePort + c.slot <= U32_MAX && HasTransport(c, transports, basePort))
    && (forall t :: t in transports ==> HasCamera(t, m.cameras, basePort))
  }

  lemma CatalogForward(m: Manifest, transports: seq<ConnectedCamera>, basePort: nat)
    requires DistinctTransports(transports) && CatalogOk(m, transports, basePort)
    ensures Catalogued(m, transports, basePort)
  {
    CatalogIsBijective(m, transports, basePort);
    CatalogMatches(m, transports, basePort);
    OneAnchor(m.cameras);
    forall i | 0 <= i < |m.cameras|
      ensures m.cameras[i].id != [] && (!m.cameras[i].excluded ==> basePort + m.cameras[i].slot <= U32_MAX)
      ensures m.cameras[i].role == 1 ==> IsTheAnchor(m, i)
    {
      assert CameraOk(m, i, transports, basePort);
    }
    hide CatalogOk, DistinctTransports, CountAnchors;
    forall c | c in m.cameras && !c.excluded
      ensures HasTransport(c, transports, basePort)
    {
    }
    forall t | t in transports
      ensures HasCamera(t, m.cameras, basePort)
    {
    }
  }

  lemma LookupIs(transports: seq<ConnectedCamera>, t: ConnectedCamera)
    requires DistinctTransports(transports) && t in transports
    ensures Lookup(transports, t.cameraId) == Some(t)
  {
    LookupFinds(transports, t.cameraId);
    var i :| 0 <= i < |transports| && transports[i] == t;
    assert t.cameraId in TransportIds(transports);
    var found := Lookup(transports, t.cameraId).value;
    var j :| 0 <= j < |transports| && transports[j] == found;
    assert i == j;
  }

  lemma {:induction false} AnchorsCounted(cameras: seq<Camera>, i: nat)
    requires i < |cameras| && cameras[i].role == 1 && forall j :: 0 <= j < |cameras| && cameras[j].role == 1 ==> j == i
    ensures CountAnchors(cameras) == 1
  {
    var last := |cameras| - 1;
    var front := cameras[..last];
    assert forall j :: 0 <= j < last ==> front[j] == cameras[j];
    if i == last {
      NoneCounted(front);
    } else {
      AnchorsCounted(front, i);
    }
  }

  lemma {:induction false} NoneCounted(cameras: seq<Camera>)
    requires forall j :: 0 <= j < |cameras| ==> cameras[j].role != 1
    ensures CountAnchors(cameras) == 0
  {
    if cameras != [] {
      NoneCounted(cameras[..|cameras| - 1]);
    }
  }

  lemma CatalogBackward(m: Manifest, transports: seq<ConnectedCamera>, basePort: nat)
    requires DistinctTransports(transports) && Catalogued(m, transports, basePort)
    ensures CatalogOk(m, transports, basePort)
  {
    hide DistinctTransports;
    var a :| IsTheAnchor(m, a);
    AnchorsCounted(m.cameras, a);
    forall c | c in m.cameras && !c.excluded
      ensures Backed(c, transports, basePort) && c.id in TransportIds(transports)
    {
      assert HasTransport(c, transports, basePort);
      var t :| t in transports && SameStream(c, t, basePort);
      LookupIs(transports, t);
      LookupFinds(transports, c.id);
    }
    assert Streamed(m.cameras) == TransportIds(transports) by {
      forall t | t in transports
        ensures t.cameraId in Streamed(m.cameras)
      {
        assert HasCamera(t, m.cameras, basePort);
      }
    }
    TransportIdsSize(transports);
    StreamedSize(m.cameras);
    forall i | 0 <= i < |m.cameras|
      ensures CameraOk(m, i, transports, basePort)
    {
      assert m.cameras[i] in m.cameras;
    }
  }

  /** What a manifest says of itself. */
  predicate WellIdentified(m: Manifest) {
    && m.schemaVersion == 1 && |m.sessionId| == 16 && |m.edgeBootId| == 16 && m.revision > 0 && m.anchorCameraId != []
    && m.streamIdSchema == "rmc1" && m.schemaIdAlgorithm == "RFC8785-JCS+SHA-256-first-64-bits-big-endian"
  }

  /**
   * Against transports of different cameras, a manifest is accepted exactly when it is well
   * identified, its cameras are catalogued and its slices tile its vectors; and otherwise it
   * is refused for the first of the three that fails.
   */
  lemma JudgedExactlyWhen(m: Manifest, transports: seq<ConnectedCamera>, basePort: nat)
    requires DistinctTransports(transports)
    ensures Judge(m, transports, basePort) ==
            if !WellIdentified(m) then Err(BadManifest)
            else if !Catalogued(m, transports, basePort) then Err(CameraCatalog)
            else if !(&& Tiled(m.slices) && EndOf(m.slices, 1) == m.observationLength
                      && EndOf(m.slices, 2) == m.actionLength && EndOf(m.slices, 3) == m.auxiliaryLength)
            then Err(FeatureLayout)
            else Ok(m)
  {
    LayoutExactlyWhen(m);
    if CatalogOk(m, transports, basePort) {
      CatalogForward(m, transports, basePort);
    }
    if Catalogued(m, transports, basePort) {
      CatalogBackward(m, transports, basePort);
    }
    hide CatalogOk, Catalogued, Tiled, EndOf, LayoutOk;
  }
}
