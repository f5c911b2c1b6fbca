/**
 * Admission and the manifest together: `process_manifest_chunk` of
 * `crates/receiver/src/runtime.rs` judges a manifest against a snapshot of the
 * registry, and acceptance pins the camera catalog to the connected streams.
 */
module Catalog {
  import opened Common
  import opened IngestQueue
  import opened Registry
  import opened SessionManifest

  /** `keys` lists the connected streams of one session, each once, in some order. */
  ghost predicate IsSnapshot(s: State, sessionId: Uuid, keys: seq<StreamKey>) {
    && (forall i, j :: 0 <= i < j < |keys| ==> keys[i] != keys[j])
    && (forall key :: key in keys <==> key in Connected(s) && key.sessionId == sessionId)
  }

  function TransportOf(s: State, key: StreamKey): ConnectedCamera
    requires key in s.streams
  {
    ConnectedCamera(key.cameraId, s.streams[key].identity.slot, key.epoch, s.streams[key].listenPort)
  }

  function Transports(s: State, keys: seq<StreamKey>): (transports: seq<ConnectedCamera>)
    requires forall key :: key in keys ==> key in s.streams
    ensures |transports| == |keys| && forall i :: 0 <= i < |keys| ==> transports[i] == TransportOf(s, keys[i])
  {
    seq(|keys|, i requires 0 <= i < |keys| => TransportOf(s, keys[i]))
  }

  /** A manifest camera and a connected stream are one and the same. */
  ghost predicate Matches(policy: Policy, s: State, c: Camera, key: StreamKey)
    requires key in s.streams
  {
    && c.id == key.cameraId && c.slot == s.streams[key].identity.slot && c.epoch == key.epoch
    && c.port == s.streams[key].listenPort == policy.basePort + c.slot
  }

  lemma SnapshotTransportsDistinct(s: State, sessionId: Uuid, keys: seq<StreamKey>)
    requires IsSnapshot(s, sessionId, keys) && DistinctCamerasAndSlots(s)
    ensures forall key :: key in keys ==> key in s.streams
    ensures DistinctTransports(Transports(s, keys))
  {
    assert forall key :: key in keys ==> key in Connected(s);
    forall i, j | 0 <= i < j < |keys|
      ensures keys[i].cameraId != keys[j].cameraId
    {
      assert keys[i] in keys && keys[j] in keys;
    }
  }

  /**
   * On every run, a manifest accepted against the session's snapshot matches its
   * streamed cameras one-to-one with the connected streams on slot, epoch and port.
   */
  lemma AcceptedManifestPinsCatalog(
      policy: Policy, env: Env, events: seq<Event>, sessionId: Uuid, keys: seq<StreamKey>, m: Manifest)
    requires IsSnapshot(Run(policy, env, events).state, sessionId, keys)
    requires forall key :: key in keys ==> key in Run(policy, env, events).state.streams
    requires Judge(m, Transports(Run(policy, env, events).state, keys), policy.basePort).Ok?
    ensures var s := Run(policy, env, events).state;
            && DistinctCameras(m.cameras)
            && (forall c :: c in m.cameras && !c.excluded ==> exists key :: key in keys && Matches(policy, s, c, key))
            && (forall key :: key in keys ==> exists c :: c in m.cameras && !c.excluded && Matches(policy, s, c, key))
  {
    var s := Run(policy, env, events).state;
    AdmissionOnEveryRun(policy, env, events);
    Pinned(policy, s, sessionId, keys, m);
  }

  lemma Pinned(policy: Policy, s: State, sessionId: Uuid, keys: seq<StreamKey>, m: Manifest)
    requires IsSnapshot(s, sessionId, keys) && DistinctCamerasAndSlots(s)
    requires forall key :: key in keys ==> key in s.streams
    requires CatalogOk(m, Transports(s, keys), policy.basePort)
    ensures DistinctCameras(m.cameras)
    ensures forall c :: c in m.cameras && !c.excluded ==> exists key :: key in keys && Matches(policy, s, c, key)
    ensures forall key :: key in keys ==> exists c :: c in m.cameras && !c.excluded && Matches(policy, s, c, key)
  {
    hide CatalogOk;
    var transports := Transports(s, keys);
    SnapshotTransportsDistinct(s, sessionId, keys);
    CatalogIsBijective(m, transports, policy.basePort);
    CatalogMatches(m, transports, policy.basePort);
    forall c | c in m.cameras && !c.excluded
      ensures exists key :: key in keys && Matches(policy, s, c, key)
    {
      var t :| t in transports && SameStream(c, t, policy.basePort);
      var i :| 0 <= i < |transports| && transports[i] == t;
      assert keys[i] in keys && Matches(policy, s, c, keys[i]);
    }
    forall key | key in keys
      ensures exists c :: c in m.cameras && !c.excluded && Matches(policy, s, c, key)
    {
      var i :| 0 <= i < |keys| && keys[i] == key;
      assert transports[i] in transports;
      var c :| c in m.cameras && !c.excluded && SameStream(c, transports[i], policy.basePort);
      assert Matches(policy, s, c, key);
    }
  }

  /** An accepted manifest has exactly one anchor: the named camera, and it is streamed. */
  lemma AcceptedManifestHasOneAnchor(m: Manifest, transports: seq<ConnectedCamera>, basePort: nat)
    requires Judge(m, transports, basePort).Ok?
    ensures exists i :: 0 <= i < |m.cameras| && m.cameras[i].role == ANCHOR_ROLE
                        && m.cameras[i].id == m.anchorCameraId && !m.cameras[i].excluded
    ensures forall i, j :: 0 <= i < j < |m.cameras| ==> m.cameras[i].role != ANCHOR_ROLE || m.cameras[j].role != ANCHOR_ROLE
  {
    OneAnchor(m.cameras);
    var i :| 0 <= i < |m.cameras| && m.cameras[i].role == ANCHOR_ROLE;
    assert CameraOk(m, i, transports, basePort);
  }
}
