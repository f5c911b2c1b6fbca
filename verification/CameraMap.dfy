/**
 * Stable camera slots, `crates/camera-discovery/src/lib.rs`: the identity string of
 * a camera, and the map that keeps a camera on its stream slot while it comes and goes.
 */
module CameraMap {
  import opened Common
  import opened Text

  // ---- The identity string ----

  datatype Candidate = Candidate(
    vendorId: Option<Text>, productId: Option<Text>, serial: Option<Text>, usbInterface: Option<Text>,
    udevIdPath: Option<Text>, busInfo: Option<Text>, endpointRole: Text)

  function OrEmpty(field: Option<Text>): Text { if field.Some? then field.value else [] }

  function Fields(c: Candidate): (fields: seq<Text>)
    ensures |fields| == 7
  {
    [OrEmpty(c.vendorId), OrEmpty(c.productId), OrEmpty(c.serial), OrEmpty(c.usbInterface),
     OrEmpty(c.udevIdPath), OrEmpty(c.busInfo), c.endpointRole]
  }

  function Tagged(field: Text): Text { Decimal(|field|) + [':'] + field }

  function AllTagged(fields: seq<Text>): (tagged: seq<Text>)
    ensures |tagged| == |fields|
  {
    if fields == [] then [] else [Tagged(fields[0])] + AllTagged(fields[1..])
  }

  function CanonicalIdentity(c: Candidate): Text { JoinOn(AllTagged(Fields(c)), '|') }

  /** A length prefix says where its field ends, whatever the field holds. */
  lemma TagIsPrefixFree(a: Text, restA: Text, b: Text, restB: Text)
    requires Tagged(a) + restA == Tagged(b) + restB
    ensures a == b && restA == restB
  {
    var whole := Tagged(a) + restA;
    assert whole == Decimal(|a|) + [':'] + (a + restA);
    assert whole == Decimal(|b|) + [':'] + (b + restB);
    NoColon(|a|);
    NoColon(|b|);
    IndexOfSeam(Decimal(|a|), ':', a + restA);
    IndexOfSeam(Decimal(|b|), ':', b + restB);
    var at := IndexOf(whole, ':');
    assert whole[..at] == Decimal(|a|) == Decimal(|b|);
    DecimalInjective(|a|, |b|);
    assert whole[at + 1..] == a + restA == b + restB;
    assert (a + restA)[..|a|] == a && (b + restB)[..|a|] == b;
    assert (a + restA)[|a|..] == restA && (b + restB)[|a|..] == restB;
  }

  lemma NoColon(n: nat)
    ensures ':' !in Decimal(n)
  {
    DecimalDigits(n);
  }

  /** What a joined list holds after its first part. */
  function JoinRest(parts: seq<Text>): Text
    requires parts != []
  {
    if |parts| == 1 then [] else ['|'] + JoinOn(parts[1..], '|')
  }

  lemma JoinHead(parts: seq<Text>)
    requires parts != []
    ensures JoinOn(parts, '|') == parts[0] + JoinRest(parts)
  {
    if |parts| == 1 {
      assert parts[0] + [] == parts[0];
    } else {
      var tail := JoinOn(parts[1..], '|');
      assert JoinOn(parts, '|') == parts[0] + ['|'] + tail && JoinRest(parts) == ['|'] + tail;
      hide JoinOn, JoinRest;
      ConcatAssociates(parts[0], ['|'], tail);
    }
  }

  lemma {:induction false} TaggedListInjective(a: seq<Text>, b: seq<Text>)
    requires a != [] && b != [] && JoinOn(AllTagged(a), '|') == JoinOn(AllTagged(b), '|')
    ensures a == b
    decreases |a|
  {
    hide Tagged;
    var tagsA, tagsB := AllTagged(a), AllTagged(b);
    JoinHead(tagsA);
    JoinHead(tagsB);
    TagIsPrefixFree(a[0], JoinRest(tagsA), b[0], JoinRest(tagsB));
    if |a| > 1 && |b| > 1 {
      assert tagsA[1..] == AllTagged(a[1..]) && tagsB[1..] == AllTagged(b[1..]);
      assert JoinRest(tagsA)[1..] == JoinOn(tagsA[1..], '|') && JoinRest(tagsB)[1..] == JoinOn(tagsB[1..], '|');
      TaggedListInjective(a[1..], b[1..]);
    }
    assert a == [a[0]] + a[1..] && b == [b[0]] + b[1..];
  }

  /**
   * Two cameras have the same identity string exactly when their seven fields agree
   * with an absent field read as an empty one, even when fields hold `|`, `:` or digits.
   */
  lemma IdentityIsInjective(a: Candidate, b: Candidate)
    ensures CanonicalIdentity(a) == CanonicalIdentity(b) <==>
            && Agree(a.vendorId, b.vendorId) && Agree(a.productId, b.productId) && Agree(a.serial, b.serial)
            && Agree(a.usbInterface, b.usbInterface) && Agree(a.udevIdPath, b.udevIdPath) && Agree(a.busInfo, b.busInfo)
            && a.endpointRole == b.endpointRole
  {
    if CanonicalIdentity(a) == CanonicalIdentity(b) {
      TaggedListInjective(Fields(a), Fields(b));
    }
    SameFields(a, b);
    hide CanonicalIdentity, Fields, Agree;
    if Fields(a) == Fields(b) {
      SameIdentity(a, b);
    }
  }

  /** Two fields are equal, or each is absent or empty. */
  predicate Agree(a: Option<Text>, b: Option<Text>) {
    a == b || (a in {None, Some([])} && b in {None, Some([])})
  }

  lemma SameFields(a: Candidate, b: Candidate)
    ensures Fields(a) == Fields(b) <==>
            && Agree(a.vendorId, b.vendorId) && Agree(a.productId, b.productId) && Agree(a.serial, b.serial)
            && Agree(a.usbInterface, b.usbInterface) && Agree(a.udevIdPath, b.udevIdPath) && Agree(a.busInfo, b.busInfo)
            && a.endpointRole == b.endpointRole
  {
    var f, g := Fields(a), Fields(b);
    assert f == g <==> f[0] == g[0] && f[1] == g[1] && f[2] == g[2] && f[3] == g[3] && f[4] == g[4] && f[5] == g[5] && f[6] == g[6];
  }

  lemma SameIdentity(a: Candidate, b: Candidate)
    requires Fields(a) == Fields(b)
    ensures CanonicalIdentity(a) == CanonicalIdentity(b)
  {
  }

  // ---- The map ----

  datatype MappingState = Active | Tombstone

  datatype Mapping = Mapping(stableId: Text, identity: Text, slot: nat, device: nat, state: MappingState)

  datatype MappingError = Collision(stableId: Text) | SlotExhausted

  datatype Camera = Camera(stableId: Text, identity: Text)

  /** The slots of the virtual device pool and the number of its first device. */
  datatype Pool = Pool(maxSlots: nat, start: nat)

  ghost predicate ValidPool(pool: Pool) { pool.maxSlots <= U16_MAX && pool.start <= U32_MAX }

  function Position(entries: seq<Mapping>, stableId: Text): (i: nat)
    ensures i <= |entries| && (i < |entries| ==> entries[i].stableId == stableId)
    ensures forall j :: 0 <= j < i ==> entries[j].stableId != stableId
  {
    if entries == [] || entries[0].stableId == stableId then 0
    else
      var i := Position(entries[1..], stableId);
      assert forall j :: 0 < j < |entries| ==> entries[j] == entries[1..][j - 1];
      1 + i
  }

  predicate Occupied(entries: seq<Mapping>, slot: nat) {
    exists i :: 0 <= i < |entries| && entries[i].slot == slot
  }

  function FreeSlot(entries: seq<Mapping>, from: nat, max: nat): Option<nat>
    decreases max - from
  {
    if from >= max then None
    else if !Occupied(entries, from) then Some(from)
    else FreeSlot(entries, from + 1, max)
  }

  /** The device number wraps at 32 bits. */
  function DeviceNumber(pool: Pool, slot: nat): nat { (pool.start + slot) % (U32_MAX + 1) }

  function AllocateStep(entries: seq<Mapping>, camera: Camera, pool: Pool)
    : (Result<Mapping, MappingError>, seq<Mapping>)
  {
    var i := Position(entries, camera.stableId);
    if i < |entries| then
      if entries[i].identity != camera.identity then (Err(Collision(camera.stableId)), entries)
      else
        var found := entries[i].(state := Active);
        (Ok(found), entries[i := found])
    else
      match FreeSlot(entries, 0, pool.maxSlots)
      case None => (Err(SlotExhausted), entries)
      case Some(slot) =>
        var added := Mapping(camera.stableId, camera.identity, slot, DeviceNumber(pool, slot), Active);
        (Ok(added), entries + [added])
  }

  function Marked(entry: Mapping, active: set<Text>): Mapping {
    if entry.stableId in active then entry else entry.(state := Tombstone)
  }

  function TombstoneStep(entries: seq<Mapping>, active: set<Text>): seq<Mapping> {
    seq(|entries|, i requires 0 <= i < |entries| => Marked(entries[i], active))
  }

  predicate Retained(entry: Mapping, stableId: Text) {
    entry.stableId != stableId || entry.state != Tombstone
  }

  function ReclaimStep(entries: seq<Mapping>, stableId: Text): seq<Mapping> {
    if entries == [] then []
    else
      var last := entries[|entries| - 1];
      ReclaimStep(entries[..|entries| - 1], stableId) + (if Retained(last, stableId) then [last] else [])
  }

  // ---- What a free slot is ----

  lemma {:induction false} FreeSlotIsLeast(entries: seq<Mapping>, from: nat, max: nat)
    ensures match FreeSlot(entries, from, max)
            case None => forall slot :: from <= slot < max ==> Occupied(entries, slot)
            case Some(free) =>
              from <= free < max && !Occupied(entries, free) && forall slot :: from <= slot < free ==> Occupied(entries, slot)
    decreases max - from
  {
    if from < max && Occupied(entries, from) {
      FreeSlotIsLeast(entries, from + 1, max);
    }
  }

  /**
   * A camera the map does not know gets the least slot no entry holds, tombstones
   * included, and the entries already there stay; it is refused only if all are held.
   */
  lemma NewCameraGetsLeastSlot(entries: seq<Mapping>, camera: Camera, pool: Pool)
    requires forall i :: 0 <= i < |entries| ==> entries[i].stableId != camera.stableId
    ensures var (result, next) := AllocateStep(entries, camera, pool);
            match result
            case Ok(added) =>
              && added.stableId == camera.stableId && added.identity == camera.identity && next == entries + [added]
              && added.slot < pool.maxSlots && !Occupied(entries, added.slot)
              && (forall slot :: 0 <= slot < added.slot ==> Occupied(entries, slot))
              && (pool.start + added.slot <= U32_MAX ==> added.device == pool.start + added.slot)
            case Err(error) =>
              error == SlotExhausted && next == entries && forall slot :: 0 <= slot < pool.maxSlots ==> Occupied(entries, slot)
  {
    FreeSlotIsLeast(entries, 0, pool.maxSlots);
  }

  ghost function SlotSet(entries: seq<Mapping>): (slots: set<nat>)
    ensures forall slot :: slot in slots <==> Occupied(entries, slot)
  {
    if entries == [] then {}
    else
      var front := entries[..|entries| - 1];
      assert forall slot :: Occupied(entries, slot) <==> Occupied(front, slot) || slot == entries[|entries| - 1].slot by {
        OccupiedSnoc(entries);
      }
      SlotSet(front) + {entries[|entries| - 1].slot}
  }

  lemma OccupiedSnoc(entries: seq<Mapping>)
    requires entries != []
    ensures forall slot :: Occupied(entries, slot)
                      <==> Occupied(entries[..|entries| - 1], slot) || slot == entries[|entries| - 1].slot
  {
    var front := entries[..|entries| - 1];
    forall slot | Occupied(entries, slot)
      ensures Occupied(front, slot) || slot == entries[|entries| - 1].slot
    {
      var i :| 0 <= i < |entries| && entries[i].slot == slot;
      assert i < |front| ==> front[i].slot == slot;
    }
    forall slot | Occupied(front, slot)
      ensures Occupied(entries, slot)
    {
      var i :| 0 <= i < |front| && front[i].slot == slot;
      assert entries[i].slot == slot;
    }
  }

  ghost function Below(max: nat): (slots: set<nat>)
    ensures |slots| == max && forall slot: nat :: slot in slots <==> slot < max
  {
    if max == 0 then {} else Below(max - 1) + {max - 1}
  }

  ghost predicate Unique(entries: seq<Mapping>) {
    forall i, j :: 0 <= i < j < |entries| ==>
      entries[i].stableId != entries[j].stableId && entries[i].slot != entries[j].slot
  }

  lemma {:induction false} SlotSetSize(entries: seq<Mapping>)
    requires Unique(entries)
    ensures |SlotSet(entries)| == |entries|
  {
    if entries != [] {
      var front := entries[..|entries| - 1];
      SlotSetSize(front);
      assert !Occupied(front, entries[|entries| - 1].slot);
    }
  }

  /** When every slot is one of the pool's, a new camera is refused exactly when as many cameras as slots are mapped. */
  lemma ExhaustedExactlyWhenFull(entries: seq<Mapping>, camera: Camera, pool: Pool)
    requires Unique(entries) && forall i :: 0 <= i < |entries| ==> entries[i].slot < pool.maxSlots
    requires Position(entries, camera.stableId) == |entries|
    ensures AllocateStep(entries, camera, pool).0 == Err(SlotExhausted) <==> |entries| == pool.maxSlots
  {
    FreeSlotIsLeast(entries, 0, pool.maxSlots);
    SlotSetSize(entries);
    var slots, all := SlotSet(entries), Below(pool.maxSlots);
    SubsetSize(slots, all);
    match FreeSlot(entries, 0, pool.maxSlots)
    case None =>
      assert all <= slots by {
        forall slot | slot in all
          ensures slot in slots
        {
          assert Occupied(entries, slot);
        }
      }
      SubsetSize(all, slots);
    case Some(free) =>
      assert free in all && free !in slots;
  }

  // ---- Runs ----

  datatype Event = Allocate(camera: Camera, pool: Pool) | TombstoneMissing(active: set<Text>) | Reclaim(stableId: Text)

  function Next(entries: seq<Mapping>, event: Event): seq<Mapping> {
    match event
    case Allocate(camera, pool) => AllocateStep(entries, camera, pool).1
    case TombstoneMissing(active) => TombstoneStep(entries, active)
    case Reclaim(stableId) => ReclaimStep(entries, stableId)
  }

  function Run(entries: seq<Mapping>, events: seq<Event>): seq<Mapping>
    decreases |events|
  {
    if events == [] then entries else Next(Run(entries, events[..|events| - 1]), events[|events| - 1])
  }

  /** A reclaim keeps exactly the retained entries, once each and in their order. */
  lemma {:induction false} ReclaimKeeps(entries: seq<Mapping>, stableId: Text)
    requires Unique(entries)
    ensures Unique(ReclaimStep(entries, stableId))
    ensures forall e :: e in ReclaimStep(entries, stableId) <==> e in entries && Retained(e, stableId)
  {
    if entries != [] {
      var front, last := entries[..|entries| - 1], entries[|entries| - 1];
      ReclaimKeeps(front, stableId);
      assert entries == front + [last];
      var kept := ReclaimStep(front, stableId);
      forall i | 0 <= i < |kept|
        ensures kept[i].stableId != last.stableId && kept[i].slot != last.slot
      {
        assert kept[i] in front;
        var j :| 0 <= j < |front| && front[j] == kept[i];
        assert entries[j] == front[j];
      }
    }
  }

  lemma AllocateKeepsUnique(entries: seq<Mapping>, camera: Camera, pool: Pool)
    requires Unique(entries)
    ensures Unique(AllocateStep(entries, camera, pool).1)
  {
    FreeSlotIsLeast(entries, 0, pool.maxSlots);
    var i := Position(entries, camera.stableId);
    if i == |entries| && FreeSlot(entries, 0, pool.maxSlots).Some? {
      var slot := FreeSlot(entries, 0, pool.maxSlots).value;
      assert forall j :: 0 <= j < |entries| ==> entries[j].slot != slot;
    }
  }

  lemma NextKeepsUnique(entries: seq<Mapping>, event: Event)
    requires Unique(entries)
    ensures Unique(Next(entries, event))
  {
    match event
    case Allocate(camera, pool) => AllocateKeepsUnique(entries, camera, pool);
    case TombstoneMissing(active) =>
    case Reclaim(stableId) => ReclaimKeeps(entries, stableId);
  }

  /** On every run no two mapped cameras share an id or a slot. */
  lemma {:induction false} UniqueOnEveryRun(entries: seq<Mapping>, events: seq<Event>)
    requires Unique(entries)
    ensures Unique(Run(entries, events))
    decreases |events|
  {
    if events != [] {
      UniqueOnEveryRun(entries, events[..|events| - 1]);
      NextKeepsUnique(Run(entries, events[..|events| - 1]), events[|events| - 1]);
    }
  }

  /** `stableId` is mapped, with this identity, slot and device. */
  ghost predicate Holds(entries: seq<Mapping>, stableId: Text, identity: Text, slot: nat, device: nat) {
    exists e :: e in entries && e.stableId == stableId && e.identity == identity && e.slot == slot && e.device == device
  }

  ghost predicate ReclaimsNothing(entries: seq<Mapping>, event: Event, stableId: Text) {
    event == Reclaim(stableId) ==> forall e :: e in entries && e.stableId == stableId ==> e.state == Active
  }

  lemma NextKeepsSlot(entries: seq<Mapping>, event: Event, e: Mapping)
    requires Unique(entries) && e in entries && ReclaimsNothing(entries, event, e.stableId)
    ensures Holds(Next(entries, event), e.stableId, e.identity, e.slot, e.device)
  {
    var i :| 0 <= i < |entries| && entries[i] == e;
    var next := Next(entries, event);
    match event
    case Allocate(camera, pool) =>
      assert i < |next| && next[i].(state := Active) == e.(state := Active);
      assert next[i] in next;
    case TombstoneMissing(active) =>
      assert next[i] == Marked(e, active) && next[i] in next;
    case Reclaim(stableId) =>
      ReclaimKeeps(entries, stableId);
      assert e in next;
  }

  /** No event of the run reclaims `stableId` while it is tombstoned. */
  ghost predicate NeverReclaimed(entries: seq<Mapping>, events: seq<Event>, stableId: Text) {
    forall k :: 0 <= k < |events| ==> ReclaimsNothing(Run(entries, events[..k]), events[k], stableId)
  }

  /**
   * A camera keeps its slot and device number through every sequence of unplugging,
   * replugging and arrivals of other cameras, until it is reclaimed as a tombstone.
   */
  lemma {:induction false} SlotIsSticky(entries: seq<Mapping>, events: seq<Event>, e: Mapping)
    requires Unique(entries) && e in entries && NeverReclaimed(entries, events, e.stableId)
    ensures Holds(Run(entries, events), e.stableId, e.identity, e.slot, e.device)
    decreases |events|
  {
    if events != [] {
      var front, last := events[..|events| - 1], events[|events| - 1];
      assert NeverReclaimed(entries, front, e.stableId) by {
        forall k | 0 <= k < |front|
          ensures ReclaimsNothing(Run(entries, front[..k]), front[k], e.stableId)
        {
          assert front[..k] == events[..k] && ReclaimsNothing(Run(entries, events[..k]), events[k], e.stableId);
        }
      }
      SlotIsSticky(entries, front, e);
      UniqueOnEveryRun(entries, front);
      var before := Run(entries, front);
      var now :| now in before && now.stableId == e.stableId && now.identity == e.identity && now.slot == e.slot && now.device == e.device;
      NextKeepsSlot(before, last, now);
    }
  }

  lemma PositionOf(entries: seq<Mapping>, e: Mapping)
    requires Unique(entries) && e in entries
    ensures Position(entries, e.stableId) < |entries| && entries[Position(entries, e.stableId)] == e
  {
    var i :| 0 <= i < |entries| && entries[i] == e;
    var j := Position(entries, e.stableId);
    assert j <= i;
  }

  /**
   * A camera plugged in again after any such run is answered with the slot and device
   * it had, while another camera with its id is refused and changes nothing.
   */
  lemma ReplugFindsItsSlot(entries: seq<Mapping>, events: seq<Event>, e: Mapping, pool: Pool, other: Text)
    requires Unique(entries) && e in entries && NeverReclaimed(entries, events, e.stableId) && other != e.identity
    ensures var now := Run(entries, events);
            && AllocateStep(now, Camera(e.stableId, e.identity), pool).0 == Ok(e.(state := Active))
            && AllocateStep(now, Camera(e.stableId, other), pool) == (Err(Collision(e.stableId)), now)
  {
    SlotIsSticky(entries, events, e);
    UniqueOnEveryRun(entries, events);
    var now := Run(entries, events);
    var found :| found in now && found.stableId == e.stableId && found.identity == e.identity
              && found.slot == e.slot && found.device == e.device;
    PositionOf(now, found);
  }

  // ---- Where a camera stands ----

  /** Not mapped, active or a tombstone, as the latest events about the camera say. */
  function Standing(events: seq<Event>, stableId: Text): Option<MappingState> {
    if events == [] then None
    else
      var front, last := events[..|events| - 1], events[|events| - 1];
      var before := Standing(front, stableId);
      match last
      case Allocate(camera, pool) =>
        if camera.stableId == stableId && AllocateStep(Run([], front), camera, pool).0.Ok? then Some(Active) else before
      case TombstoneMissing(active) => if before.Some? && stableId !in active then Some(Tombstone) else before
      case Reclaim(reclaimed) => if reclaimed == stableId && before == Some(Tombstone) then None else before
  }

  /** The map holds the camera exactly in this state. */
  ghost predicate Stands(entries: seq<Mapping>, stableId: Text, standing: Option<MappingState>) {
    && (standing.Some? <==> exists e :: e in entries && e.stableId == stableId)
    && forall e :: e in entries && e.stableId == stableId ==> standing == Some(e.state)
  }

  lemma AllocateStands(entries: seq<Mapping>, camera: Camera, pool: Pool, stableId: Text, before: Option<MappingState>)
    requires Unique(entries) && Stands(entries, stableId, before)
    ensures var (result, next) := AllocateStep(entries, camera, pool);
            Stands(next, stableId, if camera.stableId == stableId && result.Ok? then Some(Active) else before)
  {
    var (result, next) := AllocateStep(entries, camera, pool);
    var i := Position(entries, camera.stableId);
    if result.Ok? {
      if i < |entries| {
        assert next[i].stableId == camera.stableId && next[i].state == Active;
        forall e | e in next
          ensures e == next[i] || (e in entries && e.stableId != camera.stableId)
        {
          var k :| 0 <= k < |next| && next[k] == e;
          assert k != i ==> next[k] == entries[k] && entries[k].stableId != entries[i].stableId;
        }
        forall e | e in entries
          ensures e.stableId == camera.stableId || e in next
        {
          var k :| 0 <= k < |entries| && entries[k] == e;
          assert k != i ==> next[k] == entries[k];
        }
      } else {
        assert next == entries + [result.value];
        assert forall e :: e in entries ==> e.stableId != camera.stableId;
      }
    }
  }

  lemma TombstoneStands(entries: seq<Mapping>, active: set<Text>, stableId: Text, before: Option<MappingState>)
    requires Stands(entries, stableId, before)
    ensures Stands(TombstoneStep(entries, active), stableId,
                   if before.Some? && stableId !in active then Some(Tombstone) else before)
  {
    var next := TombstoneStep(entries, active);
    forall e | e in next
      ensures exists o :: o in entries && e == Marked(o, active)
    {
      var k :| 0 <= k < |next| && next[k] == e;
      assert entries[k] in entries;
    }
    forall o | o in entries
      ensures Marked(o, active) in next
    {
      var k :| 0 <= k < |entries| && entries[k] == o;
      assert next[k] == Marked(o, active);
    }
    if o :| o in entries && o.stableId == stableId {
      assert Marked(o, active).stableId == stableId;
    }
  }

  lemma ReclaimStands(entries: seq<Mapping>, reclaimed: Text, stableId: Text, before: Option<MappingState>)
    requires Unique(entries) && Stands(entries, stableId, before)
    ensures Stands(ReclaimStep(entries, reclaimed), stableId,
                   if reclaimed == stableId && before == Some(Tombstone) then None else before)
  {
    ReclaimKeeps(entries, reclaimed);
  }

  /**
   * On every run, a camera is active exactly if it has been taken in and not been missing
   * since, a tombstone exactly if it has been missing since, and unknown exactly if it was
   * never taken in or has been reclaimed as a tombstone.
   */
  lemma {:induction false} StandingOnEveryRun(events: seq<Event>, stableId: Text)
    ensures Stands(Run([], events), stableId, Standing(events, stableId))
  {
    hide Stands, AllocateStep, TombstoneStep, ReclaimStep, Unique;
    if events == [] {
      NobodyStands(stableId);
    } else {
      var front, last := events[..|events| - 1], events[|events| - 1];
      var before := Standing(front, stableId);
      StandingOnEveryRun(front, stableId);
      NobodyClashes();
      UniqueOnEveryRun([], front);
      match last
      case Allocate(camera, pool) => AllocateStands(Run([], front), camera, pool, stableId, before);
      case TombstoneMissing(active) => TombstoneStands(Run([], front), active, stableId, before);
      case Reclaim(reclaimed) => ReclaimStands(Run([], front), reclaimed, stableId, before);
    }
  }

  lemma NobodyStands(stableId: Text)
    ensures Stands([], stableId, None)
  {
  }

  lemma NobodyClashes()
    ensures Unique([])
  {
  }

  // ---- Slots and devices of one pool ----

  ghost predicate InPool(entries: seq<Mapping>, pool: Pool) {
    forall i :: 0 <= i < |entries| ==> entries[i].slot < pool.maxSlots && entries[i].device == DeviceNumber(pool, entries[i].slot)
  }

  ghost predicate UsesPool(events: seq<Event>, pool: Pool) {
    forall k :: 0 <= k < |events| && events[k].Allocate? ==> events[k].pool == pool
  }

  lemma NextKeepsPool(entries: seq<Mapping>, event: Event, pool: Pool)
    requires Unique(entries) && InPool(entries, pool) && (event.Allocate? ==> event.pool == pool)
    ensures InPool(Next(entries, event), pool)
  {
    match event
    case Allocate(camera, _) => FreeSlotIsLeast(entries, 0, pool.maxSlots);
    case TombstoneMissing(active) =>
    case Reclaim(stableId) =>
      ReclaimKeeps(entries, stableId);
      var next := Next(entries, event);
      forall i | 0 <= i < |next|
        ensures next[i].slot < pool.maxSlots && next[i].device == DeviceNumber(pool, next[i].slot)
      {
        assert next[i] in entries;
      }
  }

  lemma {:induction false} RunKeepsPool(events: seq<Event>, pool: Pool)
    requires UsesPool(events, pool)
    ensures Unique(Run([], events)) && InPool(Run([], events), pool)
  {
    UniqueOnEveryRun([], events);
    if events != [] {
      var front := events[..|events| - 1];
      RunKeepsPool(front, pool);
      NextKeepsPool(Run([], front), events[|events| - 1], pool);
    }
  }

  lemma DevicesApart(pool: Pool, a: nat, b: nat)
    requires ValidPool(pool) && a < b < pool.maxSlots
    ensures DeviceNumber(pool, a) != DeviceNumber(pool, b)
  {
  }

  /**
   * On every run over one pool the mapped cameras have distinct slots of the pool and
   * distinct device numbers, and there are never more of them than slots.
   */
  lemma PoolOnEveryRun(events: seq<Event>, pool: Pool)
    requires ValidPool(pool) && UsesPool(events, pool)
    ensures var entries := Run([], events);
            && |entries| <= pool.maxSlots
            && (forall i :: 0 <= i < |entries| ==> entries[i].slot < pool.maxSlots)
            && (forall i, j :: 0 <= i < j < |entries| ==>
                  entries[i].slot != entries[j].slot && entries[i].device != entries[j].device)
  {
    RunKeepsPool(events, pool);
    var entries := Run([], events);
    SlotSetSize(entries);
    SubsetSize(SlotSet(entries), Below(pool.maxSlots));
    forall i, j | 0 <= i < j < |entries|
      ensures entries[i].device != entries[j].device
    {
      if entries[i].slot < entries[j].slot {
        DevicesApart(pool, entries[i].slot, entries[j].slot);
      } else {
        DevicesApart(pool, entries[j].slot, entries[i].slot);
      }
    }
  }

  // ---- The source's object ----

  class SlotMap {
    var entries: seq<Mapping>

    constructor ()
      ensures entries == []
    {
      entries := [];
    }

    method AllocateOrReuse(camera: Camera, pool: Pool) returns (result: Result<Mapping, MappingError>)
      modifies this
      ensures (result, entries) == AllocateStep(old(entries), camera, pool)
    {
      var index := 0;
      while index < |entries| && entries[index].stableId != camera.stableId
        invariant index <= |entries| && entries == old(entries)
        invariant forall j :: 0 <= j < index ==> entries[j].stableId != camera.stableId
      {
        index := index + 1;
      }
      assert index == Position(entries, camera.stableId);
      if index < |entries| {
        if entries[index].identity != camera.identity {
          return Err(Collision(camera.stableId));
        }
        entries := entries[index := entries[index].(state := Active)];
        return Ok(entries[index]);
      }
      var slot := FindSlot(pool.maxSlots);
      if slot.None? {
        return Err(SlotExhausted);
      }
      var added := Mapping(camera.stableId, camera.identity, slot.value, DeviceNumber(pool, slot.value), Active);
      entries := entries + [added];
      return Ok(added);
    }

    method FindSlot(max: nat) returns (slot: Option<nat>)
      ensures slot == FreeSlot(entries, 0, max)
    {
      var occupied: set<nat> := {};
      for i := 0 to |entries|
        invariant forall s :: s in occupied <==> exists j :: 0 <= j < i && entries[j].slot == s
      {
        occupied := occupied + {entries[i].slot};
      }
      var candidate := 0;
      while candidate < max
        invariant candidate <= max && FreeSlot(entries, 0, max) == FreeSlot(entries, candidate, max)
      {
        if candidate !in occupied {
          return Some(candidate);
        }
        candidate := candidate + 1;
      }
      return None;
    }

    method MarkMissing(active: set<Text>)
      modifies this
      ensures entries == TombstoneStep(old(entries), active)
    {
      for i := 0 to |entries|
        invariant |entries| == |old(entries)|
        invariant forall j :: 0 <= j < i ==> entries[j] == Marked(old(entries)[j], active)
        invariant forall j :: i <= j < |entries| ==> entries[j] == old(entries)[j]
      {
        if entries[i].stableId !in active {
          entries := entries[i := entries[i].(state := Tombstone)];
        }
      }
    }

    method ReclaimTombstone(stableId: Text) returns (changed: bool)
      modifies this
      ensures entries == ReclaimStep(old(entries), stableId)
      ensures changed <==> |entries| != |old(entries)|
    {
      var kept: seq<Mapping> := [];
      for i := 0 to |entries|
        invariant entries == old(entries) && kept == ReclaimStep(entries[..i], stableId)
      {
        assert entries[..i + 1][..i] == entries[..i];
        if entries[i].stableId != stableId || entries[i].state != Tombstone {
          kept := kept + [entries[i]];
        }
      }
      assert entries[..|entries|] == entries;
      changed := |entries| != |kept|;
      entries := kept;
    }
  }
}
