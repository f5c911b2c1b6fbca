/**
 * What a run of the control gateway of `crates/edge-core/src/control.rs` grants, keeps
 * and executes, stated from the requests and the log.
 */
module ControlRuns {
  import opened Common
  import opened Control
  import opened Text

  lemma RunSnoc(cfg: Config, events: seq<Event>, event: Event)
    ensures Run(cfg, events + [event]) == TraceStep(cfg, Run(cfg, events), event)
  {
    assert (events + [event])[..|events|] == events;
  }

  // ---- Granting ----

  /** A live lease holds one of the devices. */
  ghost predicate Taken(leases: map<Id, Lease>, devices: set<Text>, now: nat) {
    exists id, d :: id in leases && leases[id].expiresAt > now && d in leases[id].devices && d in devices
  }

  ghost predicate Grantable(cfg: Config, leases: map<Id, Lease>, client: Text, devices: set<Text>, ttl: nat, now: nat) {
    && 0 < |client| <= 128 && devices != {} && cfg.minimumTtl <= ttl <= cfg.maximumTtl
    && (forall d :: d in devices ==> d in cfg.policies) && !Taken(leases, devices, now)
  }

  /**
   * On every run a lease is granted exactly when the request is well formed and no live
   * lease holds one of its devices; it is then the client's, on exactly those devices, and
   * expires `ttl` after `now`, or never past the last representable time.
   */
  lemma AcquireOnEveryRun(
      cfg: Config, events: seq<Event>, client: Text, devices: set<Text>, ttl: nat, now: nat, freshId: Id)
    ensures var t, next := Run(cfg, events), Run(cfg, events + [Acquire(client, devices, ttl, now, freshId)]);
            var lease := Lease(freshId, client, devices, Min(U64_MAX, now + ttl));
            && next.log == (if Grantable(cfg, t.gateway.leases, client, devices, ttl, now) then t.log + [Granted(lease)] else t.log)
            && (forall id :: id in next.gateway.leases <==>
                  (id == freshId && Grantable(cfg, t.gateway.leases, client, devices, ttl, now))
                  || (id in t.gateway.leases && t.gateway.leases[id].expiresAt > now))
  {
    RunSnoc(cfg, events, Acquire(client, devices, ttl, now, freshId));
    hide Run;
    var g := Run(cfg, events).gateway;
    var live := ExpireStep(g, now);
    assert (exists d :: d in devices && (d !in cfg.policies || Leased(live, d))) <==>
           !((forall d :: d in devices ==> d in cfg.policies) && !Taken(g.leases, devices, now)) by {
      LeasedIsTaken(g, devices, now);
    }
  }

  lemma LeasedIsTaken(g: Gateway, devices: set<Text>, now: nat)
    ensures Taken(g.leases, devices, now) <==> exists d :: d in devices && Leased(ExpireStep(g, now), d)
  {
    var live := ExpireStep(g, now);
    if Taken(g.leases, devices, now) {
      var id, d :| id in g.leases && g.leases[id].expiresAt > now && d in g.leases[id].devices && d in devices;
      assert id in live.leases && Leased(live, d);
    }
    if d :| d in devices && Leased(live, d) {
      var id :| id in live.leases && d in live.leases[id].devices;
      assert id in g.leases;
    }
  }

  // ---- The lease table is exactly the live leases ----

  /** The time an event brings, if any. */
  function TimeOf(event: Event): Option<nat> {
    match event
    case Acquire(_, _, _, now, _) => Some(now)
    case Release(_) => None
    case Submit(_, now) => Some(now)
    case Expire(now) => Some(now)
  }

  /** The latest time brought so far. */
  function Latest(events: seq<Event>): nat {
    if events == [] then 0
    else
      var last := TimeOf(events[|events| - 1]);
      if last.Some? then Max(last.value, Latest(events[..|events| - 1])) else Latest(events[..|events| - 1])
  }

  /** The clock does not go back, and every requested lease id is new. */
  ghost predicate Regular(cfg: Config, events: seq<Event>) {
    events != [] ==>
      var front, event := events[..|events| - 1], events[|events| - 1];
      && Regular(cfg, front)
      && (TimeOf(event).Some? ==> Latest(front) <= TimeOf(event).value < U64_MAX)
      && (event.Acquire? ==> forall k :: 0 <= k < |front| && front[k].Acquire? ==> front[k].freshId != event.freshId)
  }

  /** The lease is granted and not released. */
  ghost predicate Held(log: seq<Entry>, lease: Lease) { GrantedAndHeld(log, lease, |log|) }

  lemma HeldSnoc(log: seq<Entry>, entry: Entry, lease: Lease)
    ensures Held(log + [entry], lease) <==>
            entry == Granted(lease) || (Held(log, lease) && entry != Released(lease.id))
  {
    var longer := log + [entry];
    assert longer[|log|] == entry;
    if Held(log, lease) && entry != Released(lease.id) {
      HeldAfter(log, entry, lease);
    }
    if Held(longer, lease) && entry != Granted(lease) {
      var g :| 0 <= g < |longer| && longer[g] == Granted(lease) && forall k :: g < k < |longer| ==> longer[k] != Released(lease.id);
      assert log[g] == Granted(lease);
      assert forall k :: g < k < |log| ==> log[k] == longer[k];
    }
  }

  ghost predicate InTable(leases: map<Id, Lease>, lease: Lease) { lease.id in leases && leases[lease.id] == lease }

  /** Every granted lease id was requested. */
  ghost predicate IdsRequested(events: seq<Event>, log: seq<Entry>) {
    forall i :: 0 <= i < |log| && log[i].Granted? ==>
      exists k :: 0 <= k < |events| && events[k].Acquire? && events[k].freshId == log[i].lease.id
  }

  lemma {:induction false} RequestedOnEveryRun(cfg: Config, events: seq<Event>)
    ensures IdsRequested(events, Run(cfg, events).log)
  {
    if events != [] {
      var front, event := events[..|events| - 1], events[|events| - 1];
      RequestedOnEveryRun(cfg, front);
      assert events == front + [event];
      var log, next := Run(cfg, front).log, Run(cfg, events).log;
      forall i | 0 <= i < |next| && next[i].Granted?
        ensures exists k :: 0 <= k < |events| && events[k].Acquire? && events[k].freshId == next[i].lease.id
      {
        if i < |log| {
          assert next[i] == log[i];
          var k :| 0 <= k < |front| && front[k].Acquire? && front[k].freshId == log[i].lease.id;
          assert events[k] == front[k];
        } else {
          assert events[|front|] == event;
        }
      }
    }
  }

  ghost predicate TableIs(t: Trace, now: nat) {
    && (forall lease :: InTable(t.gateway.leases, lease) <==> Held(t.log, lease) && lease.expiresAt > now)
    && forall id :: id in t.gateway.leases ==> t.gateway.leases[id].id == id
  }

  lemma ExpireTable(t: Trace, before: nat, now: nat)
    requires TableIs(t, before) && before <= now
    ensures TableIs(t.(gateway := ExpireStep(t.gateway, now)), now)
  {
    hide Held;
    var next := t.(gateway := ExpireStep(t.gateway, now));
    forall lease
      ensures InTable(next.gateway.leases, lease) <==> Held(t.log, lease) && lease.expiresAt > now
    {
      assert InTable(next.gateway.leases, lease) <==> InTable(t.gateway.leases, lease) && lease.expiresAt > now;
    }
  }

  lemma GrantTable(t: Trace, lease: Lease, now: nat)
    requires TableIs(t, now) && lease.expiresAt > now
    requires forall other :: Held(t.log, other) ==> other.id != lease.id
    ensures TableIs(Trace(t.gateway.(leases := t.gateway.leases[lease.id := lease]), t.log + [Granted(lease)]), now)
  {
    hide Held;
    var next := Trace(t.gateway.(leases := t.gateway.leases[lease.id := lease]), t.log + [Granted(lease)]);
    forall other
      ensures InTable(next.gateway.leases, other) <==> Held(next.log, other) && other.expiresAt > now
    {
      HeldSnoc(t.log, Granted(lease), other);
      assert InTable(t.gateway.leases, other) ==> Held(t.log, other);
    }
  }

  lemma ReleaseTable(t: Trace, id: Id, now: nat)
    requires TableIs(t, now)
    ensures TableIs(Trace(ReleaseStep(t.gateway, id), t.log + [Released(id)]), now)
  {
    hide Held;
    var next := Trace(ReleaseStep(t.gateway, id), t.log + [Released(id)]);
    forall lease
      ensures InTable(next.gateway.leases, lease) <==> Held(next.log, lease) && lease.expiresAt > now
    {
      HeldSnoc(t.log, Released(id), lease);
      assert InTable(next.gateway.leases, lease) <==> InTable(t.gateway.leases, lease) && lease.id != id;
    }
  }

  lemma ExecuteTable(t: Trace, g: Gateway, command: Command, at: nat, now: nat)
    requires TableIs(t, now) && g.leases == t.gateway.leases
    ensures TableIs(Trace(g, t.log + [Executed(command, at)]), now)
  {
    hide Held;
    forall lease
      ensures InTable(g.leases, lease) <==> Held(t.log + [Executed(command, at)], lease) && lease.expiresAt > now
    {
      HeldSnoc(t.log, Executed(command, at), lease);
      assert InTable(g.leases, lease) <==> InTable(t.gateway.leases, lease);
    }
  }

  lemma NewIdIsNew(cfg: Config, events: seq<Event>, freshId: Id, lease: Lease)
    requires forall k :: 0 <= k < |events| && events[k].Acquire? ==> events[k].freshId != freshId
    requires Held(Run(cfg, events).log, lease)
    ensures lease.id != freshId
  {
    RequestedOnEveryRun(cfg, events);
    var log := Run(cfg, events).log;
    var g :| 0 <= g < |log| && log[g] == Granted(lease);
  }

  lemma StepTable(cfg: Config, events: seq<Event>, event: Event)
    requires ValidConfig(cfg) && Regular(cfg, events + [event]) && TableIs(Run(cfg, events), Latest(events))
    ensures TableIs(Run(cfg, events + [event]), Latest(events + [event]))
  {
    var all := events + [event];
    assert all[..|events|] == events && all[|events|] == event;
    var t, now := Run(cfg, events), Latest(all);
    RunSnoc(cfg, events, event);
    hide Run, TableIs, Held;
    match event
    case Acquire(client, devices, ttl, at, freshId) =>
      ExpireTable(t, Latest(events), at);
      var live := t.(gateway := ExpireStep(t.gateway, at));
      var result := AcquireStep(cfg, t.gateway, client, devices, ttl, at, freshId).0;
      if result.Ok? {
        forall other | Held(t.log, other)
          ensures other.id != freshId
        {
          NewIdIsNew(cfg, events, freshId, other);
        }
        GrantTable(live, result.value, at);
      }
    case Release(id) => ReleaseTable(t, id, now);
    case Submit(command, at) =>
      ExpireTable(t, Latest(events), at);
      var live := t.(gateway := ExpireStep(t.gateway, at));
      var (result, next) := CommandStep(cfg, t.gateway, command, at);
      if result.Ok? {
        hide Remembered, CommandError;
        ExecuteTable(live, next, command, at, at);
      }
    case Expire(at) => ExpireTable(t, Latest(events), at);
  }

  /**
   * On every regular run the gateway holds exactly the leases that were granted, not
   * released since, and not expired: none is lost early and none outlives its time.
   */
  lemma {:induction false} TableOnEveryRun(cfg: Config, events: seq<Event>)
    requires ValidConfig(cfg) && Regular(cfg, events)
    ensures TableIs(Run(cfg, events), Latest(events))
  {
    hide TableIs;
    if events == [] {
      NothingHeld(cfg);
    } else {
      var front := events[..|events| - 1];
      assert events == front + [events[|events| - 1]];
      TableOnEveryRun(cfg, front);
      StepTable(cfg, front, events[|events| - 1]);
    }
  }

  lemma NothingHeld(cfg: Config)
    ensures TableIs(Run(cfg, []), 0)
  {
  }

  // ---- Executing ----

  /** The command has its policy's schema, an allowed mode and values within bounds. */
  ghost predicate Proper(cfg: Config, c: Command) {
    && c.device in cfg.policies
    && var policy := cfg.policies[c.device];
    && c.schemaId == policy.actionSchemaId && c.mode in policy.modes
    && |c.values| == policy.vectorLength == |policy.minimum| == |policy.maximum|
    && forall i :: 0 <= i < |c.values| ==>
         c.values[i].Finite? && policy.minimum[i] <= c.values[i].r <= policy.maximum[i]
  }

  lemma ObeysIsBounds(values: seq<Value>, policy: Policy)
    requires |policy.minimum| == |policy.maximum| == policy.vectorLength
    ensures Obeys(values, policy) <==>
            && |values| == policy.vectorLength
            && forall i :: 0 <= i < |values| ==>
                 values[i].Finite? && policy.minimum[i] <= values[i].r <= policy.maximum[i]
  {
  }

  /**
   * On every run a command is executed exactly when its id is not remembered, its lease is
   * live and owns its device, and it is proper.
   */
  lemma SubmitOnEveryRun(cfg: Config, events: seq<Event>, c: Command, now: nat)
    requires ValidConfig(cfg)
    ensures var t, next := Run(cfg, events), Run(cfg, events + [Submit(c, now)]);
            var leases := t.gateway.leases;
            next.log == if && c.id !in t.gateway.commandIds && c.leaseId in leases && leases[c.leaseId].expiresAt > now
                           && c.device in leases[c.leaseId].devices && Proper(cfg, c)
                        then t.log + [Executed(c, now)] else t.log
  {
    RunSnoc(cfg, events, Submit(c, now));
    hide Run, Remembered, Obeys;
    if c.device in cfg.policies {
      ObeysIsBounds(c.values, cfg.policies[c.device]);
    }
  }

  /** The values of the latest command executed on a device. */
  function LatestValues(log: seq<Entry>, device: Text): Option<seq<Value>> {
    if log == [] then None
    else
      var last := log[|log| - 1];
      if last.Executed? && last.command.device == device then Some(last.command.values)
      else LatestValues(log[..|log| - 1], device)
  }

  ghost predicate ExecutedOk(cfg: Config, t: Trace) {
    && (forall i :: 0 <= i < |t.log| && t.log[i].Executed? ==> Proper(cfg, t.log[i].command))
    && (forall d :: d in t.gateway.effective <==> LatestValues(t.log, d).Some?)
    && (forall d :: d in t.gateway.effective ==> LatestValues(t.log, d) == Some(t.gateway.effective[d]))
  }

  lemma LatestSnoc(log: seq<Entry>, entry: Entry, d: Text)
    ensures LatestValues(log + [entry], d) ==
            if entry.Executed? && entry.command.device == d then Some(entry.command.values) else LatestValues(log, d)
  {
    assert (log + [entry])[..|log|] == log;
  }

  lemma LogSnoc(cfg: Config, t: Trace, entry: Entry, g: Gateway)
    requires ExecutedOk(cfg, t) && (entry.Executed? ==> Proper(cfg, entry.command))
    requires g.effective == if entry.Executed? then t.gateway.effective[entry.command.device := entry.command.values]
                            else t.gateway.effective
    ensures ExecutedOk(cfg, Trace(g, t.log + [entry]))
  {
    hide Proper;
    forall d
      ensures LatestValues(t.log + [entry], d) ==
              if entry.Executed? && entry.command.device == d then Some(entry.command.values) else LatestValues(t.log, d)
    {
      LatestSnoc(t.log, entry, d);
    }
    hide LatestValues;
  }

  /**
   * On every run every executed command is proper, and the effective action of a device is
   * that of its latest executed command.
   */
  lemma {:induction false} ExecutedOnEveryRun(cfg: Config, events: seq<Event>)
    requires ValidConfig(cfg)
    ensures ExecutedOk(cfg, Run(cfg, events))
  {
    if events != [] {
      var front, event := events[..|events| - 1], events[|events| - 1];
      ExecutedOnEveryRun(cfg, front);
      var t, next := Run(cfg, front), Run(cfg, events);
      hide ExecutedOk, Run;
      match event
      case Acquire(client, devices, ttl, now, freshId) =>
        var result := AcquireStep(cfg, t.gateway, client, devices, ttl, now, freshId).0;
        SameEffective(cfg, t, next.gateway);
        if result.Ok? {
          LogSnoc(cfg, t, Granted(result.value), next.gateway);
        }
      case Release(id) => LogSnoc(cfg, t, Released(id), next.gateway);
      case Submit(command, now) =>
        if CommandStep(cfg, t.gateway, command, now).0.Ok? {
          hide Remembered;
          LogSnoc(cfg, t, Executed(command, now), next.gateway);
        } else {
          SameEffective(cfg, t, next.gateway);
        }
      case Expire(now) => SameEffective(cfg, t, next.gateway);
    }
  }

  lemma SameEffective(cfg: Config, t: Trace, g: Gateway)
    requires ExecutedOk(cfg, t) && g.effective == t.gateway.effective
    ensures ExecutedOk(cfg, t.(gateway := g))
  {
  }
}
