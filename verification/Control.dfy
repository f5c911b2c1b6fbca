/**
 * Control leases and command validation, `ControlGateway` of
 * `crates/edge-core/src/control.rs`: what holds over every run of acquire, release,
 * command and expire, whatever the clock does.
 */
module Control {
  import opened Common
  import opened Text

  type Id = nat // a UUID as a number, which is also the order of `BTreeSet<Uuid>`

  /** A command value: a real, or one of the infinities and NaN. */
  datatype Value = Finite(r: real) | NonFinite

  datatype Policy = Policy(
    actionSchemaId: nat, vectorLength: nat, modes: set<Text>, minimum: seq<real>, maximum: seq<real>)

  datatype Lease = Lease(id: Id, clientId: Text, devices: set<Text>, expiresAt: nat)

  datatype Command = Command(id: Id, leaseId: Id, device: Text, mode: Text, schemaId: nat, values: seq<Value>)

  datatype ControlError = Identifier | Ttl | DeviceUnavailable | NoLease | DuplicateCommand | UnsafeCommand

  datatype Config = Config(policies: map<Text, Policy>, minimumTtl: nat, maximumTtl: nat, maxHistory: nat)

  datatype Gateway = Gateway(leases: map<Id, Lease>, commandIds: set<Id>, effective: map<Text, seq<Value>>)

  /** What the constructor checks. */
  ghost predicate ValidConfig(cfg: Config) {
    && 0 < cfg.minimumTtl <= cfg.maximumTtl && cfg.maxHistory > 0
    && forall d :: d in cfg.policies ==>
         |cfg.policies[d].minimum| == |cfg.policies[d].maximum| == cfg.policies[d].vectorLength
  }

  function ExpireStep(g: Gateway, now: nat): Gateway {
    g.(leases := map id | id in g.leases && g.leases[id].expiresAt > now :: g.leases[id])
  }

  predicate Leased(g: Gateway, device: Text) {
    exists id :: id in g.leases && device in g.leases[id].devices
  }

  function AcquireStep(cfg: Config, g0: Gateway, client: Text, devices: set<Text>, ttl: nat, now: nat, fresh': Id)
    : (Result<Lease, ControlError>, Gateway)
  {
    var g := ExpireStep(g0, now);
    if client == [] || |client| > 128 || devices == {} then (Err(Identifier), g)
    else if !(cfg.minimumTtl <= ttl <= cfg.maximumTtl) then (Err(Ttl), g)
    else if exists d :: d in devices && (d !in cfg.policies || Leased(g, d)) then (Err(DeviceUnavailable), g)
    else
      var lease := Lease(fresh', client, devices, Min(U64_MAX, now + ttl));
      (Ok(lease), g.(leases := g.leases[fresh' := lease]))
  }

  function ReleaseStep(g: Gateway, id: Id): Gateway {
    g.(leases := map other | other in g.leases && other != id :: g.leases[other])
  }

  predicate InRange(v: Value, low: real, high: real) { v.Finite? && low <= v.r <= high }

  /** The length and range policy of a device. */
  predicate Obeys(values: seq<Value>, policy: Policy) {
    && |values| == policy.vectorLength
    && forall i :: 0 <= i < |values| && i < |policy.minimum| && i < |policy.maximum| ==>
         InRange(values[i], policy.minimum[i], policy.maximum[i])
  }

  predicate IsLeast(least: Id, ids: set<Id>) {
    least in ids && forall id :: id in ids ==> least <= id
  }

  function Least(ids: set<Id>): (least: Id)
    requires ids != {}
    ensures IsLeast(least, ids)
  {
    HasLeast(ids);
    var least :| IsLeast(least, ids);
    least
  }

  lemma HasLeast(ids: set<Id>)
    requires ids != {}
    ensures exists least :: IsLeast(least, ids)
  {
    var least := LeastExists(ids);
  }

  lemma {:induction false} LeastExists(ids: set<Id>) returns (least: Id)
    requires ids != {}
    ensures IsLeast(least, ids)
  {
    least :| least in ids;
    var rest := ids - {least};
    assert forall id :: id in ids ==> id == least || id in rest;
    if rest != {} {
      var other := LeastExists(rest);
      if other < least {
        least := other;
      }
    }
  }

  /** Room for one more id: a full history forgets its smallest one. */
  function Remembered(ids: set<Id>, maxHistory: nat): set<Id> {
    if |ids| == maxHistory && ids != {} then ids - {Least(ids)} else ids
  }

  /** What is wrong with a command apart from its id. */
  function Unfit(cfg: Config, g: Gateway, c: Command): Option<ControlError> {
    if c.leaseId !in g.leases || c.device !in g.leases[c.leaseId].devices then Some(NoLease)
    else if c.device !in cfg.policies then Some(DeviceUnavailable)
    else
      var policy := cfg.policies[c.device];
      if c.schemaId != policy.actionSchemaId || c.mode !in policy.modes || !Obeys(c.values, policy) then Some(UnsafeCommand)
      else None
  }

  function CommandError(cfg: Config, g: Gateway, c: Command): Option<ControlError> {
    if c.id in g.commandIds then Some(DuplicateCommand) else Unfit(cfg, g, c)
  }

  function CommandStep(cfg: Config, g0: Gateway, c: Command, now: nat): (Result<Command, ControlError>, Gateway) {
    var g := ExpireStep(g0, now);
    match CommandError(cfg, g, c)
    case Some(error) => (Err(error), g)
    case None =>
      (Ok(c), g.(commandIds := Remembered(g.commandIds, cfg.maxHistory) + {c.id},
                 effective := g.effective[c.device := c.values]))
  }

  // ---- Runs, with a log of what was granted, released and accepted ----

  datatype Event =
    | Acquire(client: Text, devices: set<Text>, ttl: nat, now: nat, freshId: Id)
    | Release(leaseId: Id)
    | Submit(command: Command, now: nat)
    | Expire(now: nat)

  datatype Entry = Granted(lease: Lease) | Released(id: Id) | Executed(command: Command, at: nat)

  datatype Trace = Trace(gateway: Gateway, log: seq<Entry>)

  function TraceStep(cfg: Config, t: Trace, event: Event): Trace {
    match event
    case Acquire(client, devices, ttl, now, freshId) =>
      (match AcquireStep(cfg, t.gateway, client, devices, ttl, now, freshId)
       case (Ok(lease), next) => Trace(next, t.log + [Granted(lease)])
       case (Err(_), next) => t.(gateway := next))
    case Release(id) => Trace(ReleaseStep(t.gateway, id), t.log + [Released(id)])
    case Submit(command, now) =>
      (match CommandStep(cfg, t.gateway, command, now)
       case (Ok(c), next) => Trace(next, t.log + [Executed(c, now)])
       case (Err(_), next) => t.(gateway := next))
    case Expire(now) => t.(gateway := ExpireStep(t.gateway, now))
  }

  function Run(cfg: Config, events: seq<Event>): Trace {
    if events == [] then Trace(Gateway(map[], {}, map[]), [])
    else TraceStep(cfg, Run(cfg, events[..|events| - 1]), events[|events| - 1])
  }

  // ---- The invariant ----

  ghost predicate Exclusive(leases: map<Id, Lease>) {
    forall a, b :: a in leases && b in leases && a != b ==> leases[a].devices !! leases[b].devices
  }

  /** The lease was granted before position `end` of the log and not released since. */
  ghost predicate GrantedAndHeld(log: seq<Entry>, lease: Lease, end: nat)
    requires end <= |log|
  {
    exists g :: 0 <= g < end && log[g] == Granted(lease) && forall k :: g < k < end ==> log[k] != Released(lease.id)
  }

  ghost predicate LeasesOk(t: Trace) {
    forall id :: id in t.gateway.leases ==>
      t.gateway.leases[id].id == id && GrantedAndHeld(t.log, t.gateway.leases[id], |t.log|)
  }

  /** Entry `i`, if it is a command, was covered by a lease that owned the device and had not expired. */
  ghost predicate Covered(log: seq<Entry>, i: nat)
    requires i < |log|
  {
    log[i].Executed? ==>
      exists lease :: GrantedAndHeld(log, lease, i) && lease.id == log[i].command.leaseId
                      && log[i].command.device in lease.devices && log[i].at < lease.expiresAt
  }

  ghost predicate EffectiveOk(cfg: Config, effective: map<Text, seq<Value>>) {
    forall d :: d in effective ==> d in cfg.policies && Obeys(effective[d], cfg.policies[d])
  }

  function CommandIds(log: seq<Entry>): seq<Id> {
    if log == [] then []
    else
      var last := log[|log| - 1];
      CommandIds(log[..|log| - 1]) + (if last.Executed? then [last.command.id] else [])
  }

  ghost predicate DistinctFirst(ids: seq<Id>, n: nat) {
    forall i, j :: 0 <= i < j < |ids| && j < n ==> ids[i] != ids[j]
  }

  function SetOf(ids: seq<Id>): set<Id> { set id | id in ids }

  /** `top` holds the `k` largest of `ids`, or all of them. */
  ghost predicate IsTop(top: set<Id>, ids: set<Id>, k: nat) {
    && top <= ids && |top| == Min(k, |ids|)
    && forall x, y :: x in ids && x !in top && y in top ==> x < y
  }

  /** The history is the latest id and the largest ones executed before it, `maxHistory` in all. */
  ghost predicate HistoryIs(history: set<Id>, ids: seq<Id>, maxHistory: nat)
    requires maxHistory > 0
  {
    if ids == [] then history == {}
    else
      var last := ids[|ids| - 1];
      last in history && IsTop(history - {last}, SetOf(ids[..|ids| - 1]), maxHistory - 1)
  }

  ghost predicate HistoryOk(cfg: Config, t: Trace) {
    && DistinctFirst(CommandIds(t.log), cfg.maxHistory + 1)
    && (cfg.maxHistory > 0 ==> HistoryIs(t.gateway.commandIds, CommandIds(t.log), cfg.maxHistory))
  }

  ghost predicate TraceOk(cfg: Config, t: Trace) {
    && Exclusive(t.gateway.leases) && LeasesOk(t)
    && (forall i :: 0 <= i < |t.log| ==> Covered(t.log, i))
    && EffectiveOk(cfg, t.gateway.effective)
    && HistoryOk(cfg, t)
  }

  lemma HeldMonotone(log: seq<Entry>, entry: Entry, lease: Lease, end: nat)
    requires end <= |log|
    ensures GrantedAndHeld(log, lease, end) <==> GrantedAndHeld(log + [entry], lease, end)
  {
    var longer := log + [entry];
    assert forall k :: 0 <= k < |log| ==> longer[k] == log[k];
    if GrantedAndHeld(log, lease, end) {
      var g :| 0 <= g < end && log[g] == Granted(lease) && forall k :: g < k < end ==> log[k] != Released(lease.id);
      assert longer[g] == Granted(lease);
    }
    if GrantedAndHeld(longer, lease, end) {
      var g :| 0 <= g < end && longer[g] == Granted(lease) && forall k :: g < k < end ==> longer[k] != Released(lease.id);
      assert log[g] == Granted(lease);
    }
  }

  lemma HeldAfter(log: seq<Entry>, entry: Entry, lease: Lease)
    requires GrantedAndHeld(log, lease, |log|) && entry != Released(lease.id)
    ensures GrantedAndHeld(log + [entry], lease, |log| + 1)
  {
    var g :| 0 <= g < |log| && log[g] == Granted(lease) && forall k :: g < k < |log| ==> log[k] != Released(lease.id);
    assert (log + [entry])[g] == Granted(lease);
  }

  lemma CoveredKept(log: seq<Entry>, entry: Entry)
    requires forall i :: 0 <= i < |log| ==> Covered(log, i)
    ensures forall i :: 0 <= i < |log| ==> Covered(log + [entry], i)
  {
    var longer := log + [entry];
    forall i | 0 <= i < |log|
      ensures Covered(longer, i)
    {
      assert Covered(log, i) && longer[i] == log[i];
      if log[i].Executed? {
        var lease :| GrantedAndHeld(log, lease, i) && lease.id == log[i].command.leaseId
                     && log[i].command.device in lease.devices && log[i].at < lease.expiresAt;
        HeldMonotone(log, entry, lease, i);
      }
    }
  }

  lemma CommandIdsSnoc(log: seq<Entry>, entry: Entry)
    ensures CommandIds(log + [entry]) == CommandIds(log) + (if entry.Executed? then [entry.command.id] else [])
  {
    assert (log + [entry])[..|log|] == log;
  }

  lemma ExpireKeeps(cfg: Config, t: Trace, now: nat)
    requires TraceOk(cfg, t)
    ensures TraceOk(cfg, t.(gateway := ExpireStep(t.gateway, now)))
    ensures forall id :: id in ExpireStep(t.gateway, now).leases ==> now < ExpireStep(t.gateway, now).leases[id].expiresAt
  {
  }

  lemma HistoryUnchanged(cfg: Config, t: Trace, entry: Entry, g: Gateway)
    requires HistoryOk(cfg, t) && !entry.Executed? && g.commandIds == t.gateway.commandIds
    ensures HistoryOk(cfg, Trace(g, t.log + [entry]))
  {
    CommandIdsSnoc(t.log, entry);
    assert CommandIds(t.log) + [] == CommandIds(t.log);
  }

  lemma GrantKeeps(cfg: Config, t: Trace, lease: Lease)
    requires TraceOk(cfg, t) && forall d :: d in lease.devices ==> !Leased(t.gateway, d)
    ensures TraceOk(cfg, Trace(t.gateway.(leases := t.gateway.leases[lease.id := lease]), t.log + [Granted(lease)]))
  {
    hide HistoryOk;
    var entry := Granted(lease);
    var next := Trace(t.gateway.(leases := t.gateway.leases[lease.id := lease]), t.log + [entry]);
    HistoryUnchanged(cfg, t, entry, next.gateway);
    CoveredKept(t.log, entry);
    forall id | id in next.gateway.leases
      ensures next.gateway.leases[id].id == id && GrantedAndHeld(next.log, next.gateway.leases[id], |next.log|)
    {
      if id == lease.id {
        assert next.log[|t.log|] == Granted(lease);
      } else {
        HeldAfter(t.log, entry, t.gateway.leases[id]);
      }
    }
  }

  lemma ReleaseKeeps(cfg: Config, t: Trace, id: Id)
    requires TraceOk(cfg, t)
    ensures TraceOk(cfg, Trace(ReleaseStep(t.gateway, id), t.log + [Released(id)]))
  {
    hide HistoryOk;
    var entry := Released(id);
    var next := Trace(ReleaseStep(t.gateway, id), t.log + [entry]);
    HistoryUnchanged(cfg, t, entry, next.gateway);
    CoveredKept(t.log, entry);
    forall other | other in next.gateway.leases
      ensures next.gateway.leases[other].id == other && GrantedAndHeld(next.log, next.gateway.leases[other], |next.log|)
    {
      HeldAfter(t.log, entry, t.gateway.leases[other]);
    }
  }

  lemma SetOfSnoc(ids: seq<Id>, id: Id)
    ensures SetOf(ids + [id]) == SetOf(ids) + {id} && |SetOf(ids)| <= |ids|
  {
    SetOfSize(ids);
  }

  lemma {:induction false} SetOfSize(ids: seq<Id>)
    ensures |SetOf(ids)| <= |ids|
  {
    if ids != [] {
      SetOfSize(ids[..|ids| - 1]);
      assert SetOf(ids) == SetOf(ids[..|ids| - 1]) + {ids[|ids| - 1]};
    }
  }

  /** Forgetting the least of a full history leaves the largest ids executed so far. */
  lemma TopStep(top: set<Id>, ids: set<Id>, last: Id, maxHistory: nat)
    requires maxHistory > 0 && IsTop(top, ids, maxHistory - 1) && last !in top
    ensures IsTop(Remembered(top + {last}, maxHistory), ids + {last}, maxHistory - 1)
  {
    var history, all := top + {last}, ids + {last};
    SubsetSize(top, ids);
    SubsetSize(history, all);
    if |history| == maxHistory {
      var least := Least(history);
      var kept := history - {least};
      assert |kept| == maxHistory - 1;
      forall x, y | x in all && x !in kept && y in kept
        ensures x < y
      {
        assert least <= y;
        if x != least && y == last {
          assert least in top;
        }
      }
    }
  }

  lemma HistoryStep(history: set<Id>, ids: seq<Id>, id: Id, maxHistory: nat)
    requires maxHistory > 0 && HistoryIs(history, ids, maxHistory) && id !in history
    ensures HistoryIs(Remembered(history, maxHistory) + {id}, ids + [id], maxHistory)
  {
    var kept := Remembered(history, maxHistory);
    assert kept + {id} - {id} == kept;
    assert (ids + [id])[..|ids|] == ids;
    HistoryIsTop(history, ids, maxHistory);
  }

  lemma HistoryIsTop(history: set<Id>, ids: seq<Id>, maxHistory: nat)
    requires maxHistory > 0 && HistoryIs(history, ids, maxHistory)
    ensures IsTop(Remembered(history, maxHistory), SetOf(ids), maxHistory - 1)
  {
    hide IsTop, Remembered;
    if ids == [] {
      NothingIsTop(maxHistory);
    } else {
      var front, last := ids[..|ids| - 1], ids[|ids| - 1];
      TopStep(history - {last}, SetOf(front), last, maxHistory);
      SetOfSnoc(front, last);
      assert ids == front + [last] && history - {last} + {last} == history;
    }
  }

  /** Until the history has been full, an id not remembered was not executed. */
  lemma ForgetsNothingEarly(history: set<Id>, ids: seq<Id>, id: Id, maxHistory: nat)
    requires maxHistory > 0 && HistoryIs(history, ids, maxHistory) && id !in history && |ids| <= maxHistory
    ensures id !in ids
  {
    if ids != [] {
      var front, last := ids[..|ids| - 1], ids[|ids| - 1];
      SetOfSnoc(front, last);
      AllAreTop(history - {last}, SetOf(front), maxHistory - 1);
      assert ids == front + [last] && id !in SetOf(front);
    }
  }

  lemma NothingIsTop(maxHistory: nat)
    requires maxHistory > 0
    ensures IsTop(Remembered({}, maxHistory), SetOf([]), maxHistory - 1)
  {
  }

  lemma AllAreTop(top: set<Id>, ids: set<Id>, k: nat)
    requires IsTop(top, ids, k) && |ids| <= k
    ensures top == ids
  {
    SubsetSize(top, ids);
  }

  lemma HistoryKept(cfg: Config, t: Trace, c: Command, at: nat, g: Gateway)
    requires cfg.maxHistory > 0 && HistoryOk(cfg, t) && c.id !in t.gateway.commandIds
    requires g.commandIds == Remembered(t.gateway.commandIds, cfg.maxHistory) + {c.id}
    ensures HistoryOk(cfg, Trace(g, t.log + [Executed(c, at)]))
  {
    CommandIdsSnoc(t.log, Executed(c, at));
    HistoryStep(t.gateway.commandIds, CommandIds(t.log), c.id, cfg.maxHistory);
    if |CommandIds(t.log)| <= cfg.maxHistory {
      ForgetsNothingEarly(t.gateway.commandIds, CommandIds(t.log), c.id, cfg.maxHistory);
    }
  }

  lemma ExecuteKeeps(cfg: Config, t: Trace, c: Command, now: nat)
    requires cfg.maxHistory > 0 && TraceOk(cfg, t) && CommandError(cfg, t.gateway, c).None?
    requires forall id :: id in t.gateway.leases ==> now < t.gateway.leases[id].expiresAt
    ensures TraceOk(cfg, Trace(t.gateway.(commandIds := Remembered(t.gateway.commandIds, cfg.maxHistory) + {c.id},
                                          effective := t.gateway.effective[c.device := c.values]),
                               t.log + [Executed(c, now)]))
  {
    hide HistoryOk, Remembered, Exclusive, Covered, LeasesOk, Obeys;
    var entry := Executed(c, now);
    var log := t.log + [entry];
    var next := t.gateway.(commandIds := Remembered(t.gateway.commandIds, cfg.maxHistory) + {c.id},
                           effective := t.gateway.effective[c.device := c.values]);
    HistoryKept(cfg, t, c, now, next);
    CoveredKept(t.log, entry);
    LeasesHeld(t, entry, next);
    ExecutedIsCovered(t, c, now);
    forall i | 0 <= i < |log|
      ensures Covered(log, i)
    {
      assert i < |t.log| || i == |t.log|;
    }
  }

  lemma LeasesHeld(t: Trace, entry: Entry, g: Gateway)
    requires LeasesOk(t) && entry.Executed? && g.leases == t.gateway.leases
    ensures LeasesOk(Trace(g, t.log + [entry]))
  {
    hide GrantedAndHeld;
    forall id | id in t.gateway.leases
      ensures GrantedAndHeld(t.log + [entry], t.gateway.leases[id], |t.log| + 1)
    {
      HeldAfter(t.log, entry, t.gateway.leases[id]);
    }
  }

  lemma ExecutedIsCovered(t: Trace, c: Command, now: nat)
    requires LeasesOk(t) && c.leaseId in t.gateway.leases && c.device in t.gateway.leases[c.leaseId].devices
    requires now < t.gateway.leases[c.leaseId].expiresAt
    ensures Covered(t.log + [Executed(c, now)], |t.log|)
  {
    HeldMonotone(t.log, Executed(c, now), t.gateway.leases[c.leaseId], |t.log|);
  }

  lemma TraceStepKeeps(cfg: Config, t: Trace, event: Event)
    requires cfg.maxHistory > 0 && TraceOk(cfg, t)
    ensures TraceOk(cfg, TraceStep(cfg, t, event))
  {
    hide TraceOk;
    match event
    case Acquire(client, devices, ttl, now, freshId) =>
      ExpireKeeps(cfg, t, now);
      var (result, next) := AcquireStep(cfg, t.gateway, client, devices, ttl, now, freshId);
      if result.Ok? {
        GrantKeeps(cfg, t.(gateway := ExpireStep(t.gateway, now)), result.value);
      }
    case Release(id) => ReleaseKeeps(cfg, t, id);
    case Submit(command, now) =>
      ExpireKeeps(cfg, t, now);
      if CommandStep(cfg, t.gateway, command, now).0.Ok? {
        ExecuteKeeps(cfg, t.(gateway := ExpireStep(t.gateway, now)), command, now);
      }
    case Expire(now) => ExpireKeeps(cfg, t, now);
  }

  lemma {:induction false} RunKeeps(cfg: Config, events: seq<Event>)
    requires cfg.maxHistory > 0
    ensures TraceOk(cfg, Run(cfg, events))
  {
    if events != [] {
      RunKeeps(cfg, events[..|events| - 1]);
      TraceStepKeeps(cfg, Run(cfg, events[..|events| - 1]), events[|events| - 1]);
    }
  }

  /** As many values as the policy says, every one finite and within its bounds. */
  predicate Within(values: seq<Value>, policy: Policy) {
    && |values| == policy.vectorLength == |policy.minimum| == |policy.maximum|
    && forall i :: 0 <= i < |values| ==> InRange(values[i], policy.minimum[i], policy.maximum[i])
  }

  /**
   * On every run: live leases share no device; every executed command was covered,
   * when it was accepted, by a lease granted earlier, not released, not expired and
   * owning the device; every stored action obeys its device's policy; and the first
   * `maxHistory + 1` executed commands have distinct ids.
   */
  lemma ControlIsSafe(cfg: Config, events: seq<Event>)
    requires ValidConfig(cfg)
    ensures var t := Run(cfg, events);
            && Exclusive(t.gateway.leases)
            && (forall i :: 0 <= i < |t.log| ==> Covered(t.log, i))
            && (forall d :: d in t.gateway.effective ==>
                  d in cfg.policies && Within(t.gateway.effective[d], cfg.policies[d]))
            && DistinctFirst(CommandIds(t.log), cfg.maxHistory + 1)
  {
    RunKeeps(cfg, events);
  }

  // ---- Exactly when an id comes back ----

  ghost function Larger(ids: set<Id>, id: Id): set<Id> { set x | x in ids && x > id }

  lemma TopIsFew(top: set<Id>, ids: set<Id>, k: nat, id: Id)
    requires IsTop(top, ids, k)
    ensures id in top <==> id in ids && |Larger(ids, id)| < k
  {
    var larger := Larger(ids, id);
    if id in top {
      assert larger <= top - {id};
      SubsetSize(larger, top - {id});
    } else if id in ids {
      assert top <= larger;
      SubsetSize(top, larger);
      SubsetSize(top + {id}, ids);
    }
  }

  /**
   * On every run: an executed id is accepted again exactly when the command is otherwise
   * fit, the id is not the latest one, and `maxHistory - 1` distinct larger ids were
   * executed before the latest.
   */
  lemma AcceptedAgainExactlyWhen(cfg: Config, events: seq<Event>, c: Command, now: nat)
    requires cfg.maxHistory > 0 && c.id in CommandIds(Run(cfg, events).log)
    ensures var g := Run(cfg, events).gateway;
            var ids := CommandIds(Run(cfg, events).log);
            CommandStep(cfg, g, c, now).0.Ok? <==>
              && Unfit(cfg, ExpireStep(g, now), c).None?
              && c.id != ids[|ids| - 1]
              && |Larger(SetOf(ids[..|ids| - 1]), c.id)| >= cfg.maxHistory - 1
  {
    HistoryOnEveryRun(cfg, events);
    var ids := CommandIds(Run(cfg, events).log);
    var front, last := ids[..|ids| - 1], ids[|ids| - 1];
    assert ids == front + [last];
    var history := Run(cfg, events).gateway.commandIds;
    TopIsFew(history - {last}, SetOf(front), cfg.maxHistory - 1, c.id);
  }

  /** The numbers from 1 to `n`. */
  function UpTo(n: nat): seq<Id> { if n == 0 then [] else UpTo(n - 1) + [n] }

  /** A lease on the command's device, then the command with each id from 1 to `n`. */
  function Submissions(client: Text, c: Command, ttl: nat, n: nat): seq<Event> {
    if n == 0 then [Acquire(client, {c.device}, ttl, 0, c.leaseId)]
    else Submissions(client, c, ttl, n - 1) + [Submit(c.(id := n), 0)]
  }

  /** A request and a command that the gateway's policies allow. */
  ghost predicate Allowed(cfg: Config, client: Text, c: Command, ttl: nat) {
    && ValidConfig(cfg) && 0 < |client| <= 128 && cfg.minimumTtl <= ttl <= cfg.maximumTtl && c.device in cfg.policies
    && var policy := cfg.policies[c.device];
       c.schemaId == policy.actionSchemaId && c.mode in policy.modes && Obeys(c.values, policy)
  }

  ghost predicate HoldsOne(g: Gateway, c: Command) {
    && g.leases.Keys == {c.leaseId} && g.leases[c.leaseId].devices == {c.device} && g.leases[c.leaseId].expiresAt > 0
  }

  lemma {:induction false} UpToSet(n: nat)
    ensures |UpTo(n)| == n && forall id :: id in SetOf(UpTo(n)) <==> 1 <= id <= n
  {
    if n > 0 {
      UpToSet(n - 1);
      SetOfSnoc(UpTo(n - 1), n);
    }
  }

  lemma {:induction false} LargerThanOne(n: nat)
    requires n > 0
    ensures |Larger(SetOf(UpTo(n)), 1)| == n - 1
  {
    UpToSet(n);
    if n == 1 {
      assert Larger(SetOf(UpTo(n)), 1) == {};
    } else {
      LargerThanOne(n - 1);
      UpToSet(n - 1);
      assert Larger(SetOf(UpTo(n)), 1) == Larger(SetOf(UpTo(n - 1)), 1) + {n};
    }
  }

  lemma FitAtZero(cfg: Config, client: Text, c: Command, ttl: nat, g: Gateway)
    requires Allowed(cfg, client, c, ttl) && HoldsOne(g, c)
    ensures ExpireStep(g, 0) == g && Unfit(cfg, g, c).None?
  {
    assert ExpireStep(g, 0).leases == g.leases;
  }

  lemma GrantOne(cfg: Config, client: Text, c: Command, ttl: nat)
    requires Allowed(cfg, client, c, ttl)
    ensures var t := TraceStep(cfg, Run(cfg, []), Acquire(client, {c.device}, ttl, 0, c.leaseId));
            HoldsOne(t.gateway, c) && CommandIds(t.log) == []
  {
    var t := Run(cfg, []);
    assert ExpireStep(t.gateway, 0) == t.gateway;
    CommandIdsSnoc([], Granted(Lease(c.leaseId, client, {c.device}, Min(U64_MAX, 0 + ttl))));
  }

  /** A fit command with an id not remembered is executed, and the leases stay. */
  lemma Executes(cfg: Config, t: Trace, c: Command, id: Id)
    requires ExpireStep(t.gateway, 0) == t.gateway && Unfit(cfg, t.gateway, c).None? && id !in t.gateway.commandIds
    ensures var next := TraceStep(cfg, t, Submit(c.(id := id), 0));
            next.gateway.leases == t.gateway.leases && CommandIds(next.log) == CommandIds(t.log) + [id]
  {
    hide Remembered, Obeys;
    CommandIdsSnoc(t.log, Executed(c.(id := id), 0));
  }

  lemma {:induction false} SubmissionsRun(cfg: Config, client: Text, c: Command, ttl: nat, n: nat)
    requires Allowed(cfg, client, c, ttl) && n <= cfg.maxHistory + 1
    ensures var t := Run(cfg, Submissions(client, c, ttl, n));
            HoldsOne(t.gateway, c) && CommandIds(t.log) == UpTo(n)
  {
    hide TraceStep, HistoryOk, CommandIds, Unfit;
    var events := Submissions(client, c, ttl, n);
    if n == 0 {
      GrantOne(cfg, client, c, ttl);
      assert events[..0] == [];
    } else {
      var earlier := Submissions(client, c, ttl, n - 1);
      assert events[..|earlier|] == earlier;
      SubmissionsRun(cfg, client, c, ttl, n - 1);
      HistoryOnEveryRun(cfg, earlier);
      UpToSet(n - 1);
      var t := Run(cfg, earlier);
      RememberedWereExecuted(cfg, t, n);
      FitAtZero(cfg, client, c, ttl, t.gateway);
      Executes(cfg, t, c, n);
    }
  }

  lemma HistoryOnEveryRun(cfg: Config, events: seq<Event>)
    requires cfg.maxHistory > 0
    ensures HistoryOk(cfg, Run(cfg, events))
  {
    RunKeeps(cfg, events);
  }

  lemma RememberedWereExecuted(cfg: Config, t: Trace, id: Id)
    requires cfg.maxHistory > 0 && HistoryOk(cfg, t) && id !in SetOf(CommandIds(t.log))
    ensures id !in t.gateway.commandIds
  {
    var ids, history := CommandIds(t.log), t.gateway.commandIds;
    forall x | x in history
      ensures x in SetOf(ids)
    {
      var last := ids[|ids| - 1];
      assert x == last || x in history - {last};
    }
  }

  /**
   * The bound on distinct ids is tight for every history size: a run whose first
   * `maxHistory + 1` ids are distinct and whose next command repeats the first.
   */
  lemma RepeatIsExecuted(cfg: Config, client: Text, c: Command, ttl: nat)
    requires Allowed(cfg, client, c, ttl)
    ensures var events := Submissions(client, c, ttl, cfg.maxHistory + 1) + [Submit(c.(id := 1), 0)];
            CommandIds(Run(cfg, events).log) == UpTo(cfg.maxHistory + 1) + [1]
  {
    var n := cfg.maxHistory + 1;
    var earlier := Submissions(client, c, ttl, n);
    var again := c.(id := 1);
    SubmissionsRun(cfg, client, c, ttl, n);
    UpToSet(n);
    LargerThanOne(n - 1);
    assert UpTo(n)[..n - 1] == UpTo(n - 1) && UpTo(n)[n - 1] == n;
    assert again.id in SetOf(UpTo(n));
    var t := Run(cfg, earlier);
    FitAtZero(cfg, client, c, ttl, t.gateway);
    AcceptedAgainExactlyWhen(cfg, earlier, again, 0);
    Executes(cfg, t, c, 1);
    assert (earlier + [Submit(again, 0)])[..|earlier|] == earlier;
  }

  // ---- The source's object ----

  class ControlGateway {
    const cfg: Config
    var leases: map<Id, Lease>
    var commandIds: set<Id>
    var effective: map<Text, seq<Value>>

    ghost function State(): Gateway
      reads this
    {
      Gateway(leases, commandIds, effective)
    }

    constructor (cfg: Config)
      requires cfg.maxHistory > 0
      ensures this.cfg == cfg && State() == Gateway(map[], {}, map[])
    {
      this.cfg := cfg;
      leases, commandIds, effective := map[], {}, map[];
    }

    method ExpireLeases(now: nat) returns (removed: nat)
      modifies this`leases
      ensures State() == ExpireStep(old(State()), now)
      ensures removed == |old(leases)| - |leases|
    {
      var kept := map id | id in leases && leases[id].expiresAt > now :: leases[id];
      SubsetSize(kept.Keys, leases.Keys);
      removed := |leases| - |kept|;
      leases := kept;
    }

    method Acquire(client: Text, devices: set<Text>, ttl: nat, now: nat, freshId: Id)
      returns (result: Result<Lease, ControlError>)
      modifies this`leases
      ensures (result, State()) == AcquireStep(cfg, old(State()), client, devices, ttl, now, freshId)
    {
      var _ := ExpireLeases(now);
      if client == [] || |client| > 128 || devices == {} {
        return Err(Identifier);
      }
      if !(cfg.minimumTtl <= ttl <= cfg.maximumTtl) {
        return Err(Ttl);
      }
      if exists d :: d in devices && (d !in cfg.policies || exists id :: id in leases && d in leases[id].devices) {
        return Err(DeviceUnavailable);
      }
      var lease := Lease(freshId, client, devices, Min(U64_MAX, now + ttl));
      leases := leases[freshId := lease];
      return Ok(lease);
    }

    method Release(id: Id) returns (released: bool)
      modifies this`leases
      ensures State() == ReleaseStep(old(State()), id) && released == (id in old(leases))
    {
      released := id in leases;
      leases := map other | other in leases && other != id :: leases[other];
    }

    method ValidateCommand(command: Command, now: nat) returns (result: Result<Command, ControlError>)
      modifies this
      ensures (result, State()) == CommandStep(cfg, old(State()), command, now)
    {
      var _ := ExpireLeases(now);
      if command.id in commandIds {
        return Err(DuplicateCommand);
      }
      if command.leaseId !in leases || command.device !in leases[command.leaseId].devices {
        return Err(NoLease);
      }
      if command.device !in cfg.policies {
        return Err(DeviceUnavailable);
      }
      var policy := cfg.policies[command.device];
      if command.schemaId != policy.actionSchemaId || command.mode !in policy.modes || !Obeys(command.values, policy) {
        return Err(UnsafeCommand);
      }
      if |commandIds| == cfg.maxHistory && commandIds != {} {
        commandIds := commandIds - {Least(commandIds)};
      }
      commandIds := commandIds + {command.id};
      effective := effective[command.device := command.values];
      return Ok(command);
    }
  }
}
