/**
 * The relay's hand-over from stored history to live events, `process_step` and
 * `metadata_sse` of `crates/web-relay/src/linux.rs`, over every interleaving of
 * the producer with a client.
 */
module SseHandover {
  import opened Common
  import opened Text

  datatype Event = Event(stream: Text, epoch: nat, ordinal: nat)

  /** The order of `(stream_epoch, access_unit_ordinal)` pairs. */
  predicate Less(a: Event, b: Event) {
    a.epoch < b.epoch || (a.epoch == b.epoch && a.ordinal < b.ordinal)
  }

  /** The events of one stream, in order. */
  function OfStream(events: seq<Event>, stream: Text): seq<Event> {
    if events == [] then []
    else
      var last := events[|events| - 1];
      OfStream(events[..|events| - 1], stream) + (if last.stream == stream then [last] else [])
  }

  /** Each event has a later epoch than the ones before it, or the same epoch and a later number. */
  ghost predicate Increasing(events: seq<Event>) {
    forall i, j :: 0 <= i < j < |events| ==>
      && events[i].epoch <= events[j].epoch
      && (events[i].epoch == events[j].epoch ==> events[i].ordinal < events[j].ordinal)
  }

  // ---- The producer ----

  function LastOf(events: seq<Event>, n: nat): seq<Event> {
    if |events| <= n then events else events[|events| - n..]
  }

  type Histories = map<Text, seq<Event>>

  function HistoryOf(histories: Histories, stream: Text): seq<Event> {
    if stream in histories then histories[stream] else []
  }

  /** Appending to a stream's history and trimming it from the front. */
  method PushHistory(histories: Histories, event: Event, capacity: nat) returns (updated: Histories)
    ensures updated == histories[event.stream := LastOf(HistoryOf(histories, event.stream) + [event], capacity)]
  {
    var full := HistoryOf(histories, event.stream) + [event];
    var history := full;
    while |history| > capacity
      invariant LastOf(history, capacity) == LastOf(full, capacity)
    {
      LastOfTail(history, capacity);
      history := history[1..];
    }
    updated := histories[event.stream := history];
  }

  lemma LastOfTail(events: seq<Event>, n: nat)
    requires |events| > n
    ensures LastOf(events[1..], n) == LastOf(events, n)
  {
  }

  // ---- The client and the interleaving ----

  /** A client that has subscribed at broadcast position `from`, and then read the history. */
  datatype Client =
    | Idle
    | Subscribed(from: nat)
    | Live(from: nat, snapshot: seq<Event>, pushedBefore: nat)

  /** `events` are all the events ever produced; `pushed` are in the histories and `sent` are broadcast. */
  datatype State = State(events: seq<Event>, pushed: nat, sent: nat, histories: Histories, client: Client)

  datatype Action = Push | Send | Subscribe | Snapshot

  predicate Enabled(s: State, action: Action) {
    match action
    case Push => s.pushed == s.sent && s.pushed < |s.events|
    case Send => s.sent < s.pushed
    case Subscribe => s.client.Idle?
    case Snapshot => s.client.Subscribed?
  }

  function Apply(s: State, action: Action, stream: Text, capacity: nat): State
    requires Enabled(s, action)
  {
    match action
    case Push =>
      var event := s.events[s.pushed];
      s.(pushed := s.pushed + 1,
         histories := s.histories[event.stream := LastOf(HistoryOf(s.histories, event.stream) + [event], capacity)])
    case Send => s.(sent := s.sent + 1)
    case Subscribe => s.(client := Subscribed(s.sent))
    case Snapshot => s.(client := Live(s.client.from, HistoryOf(s.histories, stream), s.pushed))
  }

  /** One producer and one client, interleaved in any way; actions that are not enabled do nothing. */
  function Run(events: seq<Event>, actions: seq<Action>, stream: Text, capacity: nat): State {
    if actions == [] then State(events, 0, 0, map[], Idle)
    else
      var s := Run(events, actions[..|actions| - 1], stream, capacity);
      var action := actions[|actions| - 1];
      if Enabled(s, action) then Apply(s, action, stream, capacity) else s
  }

  /** The cursor test: everything passes when the snapshot was empty. */
  predicate Past(cursor: Option<Event>, event: Event) {
    cursor.None? || Less(cursor.value, event)
  }

  /** The live events that pass the filter of `metadata_sse`. */
  function LiveEvents(received: seq<Event>, stream: Text, cursor: Option<Event>): seq<Event> {
    if received == [] then []
    else
      var last := received[|received| - 1];
      LiveEvents(received[..|received| - 1], stream, cursor)
      + (if last.stream == stream && Past(cursor, last) then [last] else [])
  }

  function Cursor(snapshot: seq<Event>): Option<Event> {
    if snapshot == [] then None else Some(snapshot[|snapshot| - 1])
  }

  /** Everything the client has been given: the snapshot, then what was broadcast since it subscribed. */
  function Delivered(s: State, stream: Text): seq<Event>
    requires s.client.Live? && s.client.from <= s.sent <= |s.events|
  {
    s.client.snapshot + LiveEvents(s.events[s.client.from..s.sent], stream, Cursor(s.client.snapshot))
  }

  // ---- What every interleaving keeps ----

  ghost predicate Consistent(s: State, stream: Text, capacity: nat) {
    && s.sent <= s.pushed <= s.sent + 1 && s.pushed <= |s.events|
    && HistoryOf(s.histories, stream) == LastOf(OfStream(s.events[..s.pushed], stream), capacity)
    && (s.client.Subscribed? ==> s.client.from <= s.sent)
    && (s.client.Live? ==>
          && s.client.from <= s.sent && s.client.from <= s.client.pushedBefore <= s.pushed
          && s.client.snapshot == LastOf(OfStream(s.events[..s.client.pushedBefore], stream), capacity))
  }

  lemma OfStreamSnoc(events: seq<Event>, n: nat, stream: Text)
    requires n < |events|
    ensures OfStream(events[..n + 1], stream) ==
            OfStream(events[..n], stream) + (if events[n].stream == stream then [events[n]] else [])
  {
    assert events[..n + 1][..n] == events[..n];
  }

  lemma LastOfSnoc(events: seq<Event>, event: Event, capacity: nat)
    requires capacity > 0
    ensures LastOf(LastOf(events, capacity) + [event], capacity) == LastOf(events + [event], capacity)
  {
  }

  lemma PushConsistent(s: State, stream: Text, capacity: nat)
    requires capacity > 0 && Consistent(s, stream, capacity) && Enabled(s, Push)
    ensures Consistent(Apply(s, Push, stream, capacity), stream, capacity)
  {
    hide LastOf, OfStream;
    var event, before := s.events[s.pushed], OfStream(s.events[..s.pushed], stream);
    OfStreamSnoc(s.events, s.pushed, stream);
    if event.stream == stream {
      LastOfSnoc(before, event, capacity);
    } else {
      assert before + [] == before;
    }
  }

  lemma {:induction false} RunConsistent(events: seq<Event>, actions: seq<Action>, stream: Text, capacity: nat)
    requires capacity > 0
    ensures Run(events, actions, stream, capacity).events == events
    ensures Consistent(Run(events, actions, stream, capacity), stream, capacity)
  {
    if actions != [] {
      var earlier, action := actions[..|actions| - 1], actions[|actions| - 1];
      RunConsistent(events, earlier, stream, capacity);
      var s := Run(events, earlier, stream, capacity);
      if Enabled(s, action) && action.Push? {
        PushConsistent(s, stream, capacity);
      }
    }
  }

  // ---- What the filter lets through ----

  lemma {:induction false} LiveIsFiltered(received: seq<Event>, stream: Text, cursor: Option<Event>)
    ensures LiveEvents(received, stream, cursor) == Newer(OfStream(received, stream), cursor)
  {
    if received != [] {
      var front, last := received[..|received| - 1], received[|received| - 1];
      LiveIsFiltered(front, stream, cursor);
      if last.stream == stream {
        NewerSnoc(OfStream(front, stream), last, cursor);
      } else {
        assert OfStream(front, stream) + [] == OfStream(front, stream);
      }
    }
  }

  /** The events past the cursor. */
  function Newer(events: seq<Event>, cursor: Option<Event>): seq<Event> {
    if events == [] then []
    else
      var last := events[|events| - 1];
      Newer(events[..|events| - 1], cursor) + (if Past(cursor, last) then [last] else [])
  }

  lemma NewerSnoc(events: seq<Event>, last: Event, cursor: Option<Event>)
    ensures Newer(events + [last], cursor) ==
            Newer(events, cursor) + (if Past(cursor, last) then [last] else [])
  {
    assert (events + [last])[..|events|] == events;
  }

  lemma {:induction false} NewerAll(events: seq<Event>, cursor: Option<Event>, k: nat)
    requires k <= |events|
    requires forall i :: 0 <= i < k ==> !Past(cursor, events[i])
    requires forall i :: k <= i < |events| ==> Past(cursor, events[i])
    ensures Newer(events, cursor) == events[k..]
  {
    hide Past;
    if events != [] {
      var last := |events| - 1;
      var front := events[..last];
      assert events == front + [events[last]];
      NewerSnoc(front, events[last], cursor);
      hide Newer;
      if k == |events| {
        NewerAll(front, cursor, last);
        assert !Past(cursor, events[last]) && events[k..] == [] && front[last..] == [];
      } else {
        NewerAll(front, cursor, k);
        assert Past(cursor, events[last]) && front[k..] + [events[last]] == events[k..];
      }
    }
  }

  lemma {:induction false} OfStreamAppend(left: seq<Event>, right: seq<Event>, stream: Text)
    ensures OfStream(left + right, stream) == OfStream(left, stream) + OfStream(right, stream)
    decreases |right|
  {
    if right == [] {
      assert left + right == left;
    } else {
      var n := |right| - 1;
      assert (left + right)[..|left| + n] == left + right[..n];
      OfStreamAppend(left, right[..n], stream);
    }
  }

  lemma OfStreamSplit(events: seq<Event>, a: nat, b: nat, stream: Text)
    requires a <= b <= |events|
    ensures OfStream(events[..b], stream) == OfStream(events[..a], stream) + OfStream(events[a..b], stream)
  {
    assert events[..b] == events[..a] + events[a..b];
    OfStreamAppend(events[..a], events[a..b], stream);
  }

  lemma PrefixLength(events: seq<Event>, a: nat, b: nat, stream: Text)
    requires a <= b <= |events|
    ensures OfStream(events[..a], stream) <= OfStream(events[..b], stream)
  {
    OfStreamSplit(events, a, b, stream);
  }

  /** Of the events from `q` to `r`, those past the last of the first `p` are the ones from `p` on. */
  lemma NewerThanSeen(all: seq<Event>, p: nat, q: nat, r: nat, capacity: nat)
    requires capacity > 0 && Increasing(all) && q <= p <= |all| && q <= r <= |all|
    ensures Newer(all[q..r], Cursor(LastOf(all[..p], capacity))) == all[p..Max(p, r)]
  {
    hide Newer, Increasing;
    var received, seen, k := all[q..r], all[..p], Min(p - q, r - q);
    var cursor := Cursor(LastOf(seen, capacity));
    CursorIs(all, p, capacity);
    hide LastOf, Cursor;
    forall i | 0 <= i < |received|
      ensures Past(cursor, received[i]) <==> k <= i
    {
      PastFrom(all, p, q + i, cursor);
    }
    NewerAll(received, cursor, k);
    assert received[k..] == all[p..Max(p, r)];
  }

  /** The cursor is the last event seen. */
  lemma CursorIs(all: seq<Event>, p: nat, capacity: nat)
    requires capacity > 0 && p <= |all|
    ensures Cursor(LastOf(all[..p], capacity)) == if p == 0 then None else Some(all[p - 1])
  {
  }

  lemma PastFrom(all: seq<Event>, p: nat, i: nat, cursor: Option<Event>)
    requires Increasing(all) && p <= |all| && i < |all| && cursor == if p == 0 then None else Some(all[p - 1])
    ensures Past(cursor, all[i]) <==> p <= i
  {
  }

  /** Of what is broadcast after subscribing, the filter keeps exactly what the snapshot did not have. */
  lemma LivePart(events: seq<Event>, stream: Text, capacity: nat, from: nat, at: nat, sent: nat)
    requires capacity > 0 && from <= at <= |events| && from <= sent <= |events|
    requires Increasing(OfStream(events, stream))
    ensures var all, seen := OfStream(events[..Max(at, sent)], stream), OfStream(events[..at], stream);
            && |seen| <= |all|
            && LiveEvents(events[from..sent], stream, Cursor(LastOf(seen, capacity))) == all[|seen|..]
  {
    hide OfStream, LiveEvents, Newer, LastOf, Increasing, Cursor;
    var all := OfStream(events, stream);
    var seen, early, total :=
      OfStream(events[..at], stream), OfStream(events[..from], stream), OfStream(events[..sent], stream);
    assert events[..|events|] == events;
    PrefixLength(events, at, |events|, stream);
    PrefixLength(events, sent, |events|, stream);
    PrefixLength(events, from, at, stream);
    OfStreamSplit(events, from, sent, stream);
    PrefixLength(events, Min(at, sent), Max(at, sent), stream);
    LiveIsFiltered(events[from..sent], stream, Cursor(LastOf(seen, capacity)));
    assert seen == all[..|seen|] && OfStream(events[from..sent], stream) == all[|early|..|total|];
    NewerThanSeen(all, |seen|, |early|, |total|, capacity);
    assert OfStream(events[..Max(at, sent)], stream) == all[..Max(|seen|, |total|)];
  }

  /**
   * No gap and no duplicate: on every interleaving a live client has been given one
   * contiguous run of the stream's events, from the oldest one in its snapshot on,
   * each exactly once and in order.
   */
  lemma HandoverIsContiguous(events: seq<Event>, actions: seq<Action>, stream: Text, capacity: nat)
    requires capacity > 0 && Increasing(OfStream(events, stream))
    requires Run(events, actions, stream, capacity).client.Live?
    ensures var s := Run(events, actions, stream, capacity);
            && s.events == events && s.client.from <= s.sent <= |events| && s.client.pushedBefore <= |events|
            && var seen := OfStream(events[..s.client.pushedBefore], stream);
            && s.client.snapshot == LastOf(seen, capacity)
            && var all := OfStream(events[..Max(s.client.pushedBefore, s.sent)], stream);
            && |s.client.snapshot| <= |seen| <= |all|
            && Delivered(s, stream) == all[|seen| - |s.client.snapshot|..]
  {
    hide OfStream, LiveEvents, Run, Cursor;
    RunConsistent(events, actions, stream, capacity);
    var s := Run(events, actions, stream, capacity);
    var seen := OfStream(events[..s.client.pushedBefore], stream);
    LivePart(events, stream, capacity, s.client.from, s.client.pushedBefore, s.sent);
    var all := OfStream(events[..Max(s.client.pushedBefore, s.sent)], stream);
    PrefixLength(events, s.client.pushedBefore, Max(s.client.pushedBefore, s.sent), stream);
    assert all[|seen| - |s.client.snapshot|..] == s.client.snapshot + all[|seen|..];
  }

  // ---- When a client is live, and that everything reaches it ----

  lemma OneMoreAction(events: seq<Event>, actions: seq<Action>, action: Action, stream: Text, capacity: nat)
    ensures var s := Run(events, actions, stream, capacity);
            Run(events, actions + [action], stream, capacity) ==
            if Enabled(s, action) then Apply(s, action, stream, capacity) else s
  {
    assert (actions + [action])[..|actions|] == actions;
  }

  lemma {:induction false} IdleUntilSubscribe(events: seq<Event>, actions: seq<Action>, stream: Text, capacity: nat)
    requires Subscribe !in actions
    ensures Run(events, actions, stream, capacity).client == Idle
  {
    if actions != [] {
      IdleUntilSubscribe(events, actions[..|actions| - 1], stream, capacity);
    }
  }

  /** A subscribed client waits for its snapshot and a live one stays as it is. */
  lemma {:induction false} ClientWaits(
      events: seq<Event>, before: seq<Action>, later: seq<Action>, stream: Text, capacity: nat)
    requires var client := Run(events, before, stream, capacity).client;
             client.Live? || (client.Subscribed? && Snapshot !in later)
    ensures Run(events, before + later, stream, capacity).client == Run(events, before, stream, capacity).client
    decreases |later|
  {
    hide Run;
    if later == [] {
      assert before + later == before;
    } else {
      var n := |later| - 1;
      assert forall action :: action in later[..n] ==> action in later;
      ClientWaits(events, before, later[..n], stream, capacity);
      assert before + later == before + later[..n] + [later[n]];
      OneMoreAction(events, before + later[..n], later[n], stream, capacity);
    }
  }

  /**
   * A client is live from its first snapshot after its first subscription on: it receives
   * what is broadcast from the subscription on, and its snapshot is the history at that time.
   */
  lemma LiveFrom(
      events: seq<Event>, before: seq<Action>, between: seq<Action>, later: seq<Action>, stream: Text, capacity: nat)
    requires Subscribe !in before && Snapshot !in between
    ensures var at := Run(events, before + [Subscribe] + between, stream, capacity);
            Run(events, before + [Subscribe] + between + [Snapshot] + later, stream, capacity).client ==
            Live(Run(events, before, stream, capacity).sent, HistoryOf(at.histories, stream), at.pushed)
  {
    hide Run;
    IdleUntilSubscribe(events, before, stream, capacity);
    OneMoreAction(events, before, Subscribe, stream, capacity);
    ClientWaits(events, before + [Subscribe], between, stream, capacity);
    OneMoreAction(events, before + [Subscribe] + between, Snapshot, stream, capacity);
    ClientWaits(events, before + [Subscribe] + between + [Snapshot], later, stream, capacity);
  }

  function Rounds(n: nat): seq<Action> {
    if n == 0 then [] else Rounds(n - 1) + [Push, Send]
  }

  /** Each round of the producer broadcasts one more event while there is one. */
  lemma {:induction false} RoundsSend(events: seq<Event>, actions: seq<Action>, n: nat, stream: Text, capacity: nat)
    requires capacity > 0
    ensures Run(events, actions + Rounds(n), stream, capacity).sent ==
            Min(|events|, Run(events, actions, stream, capacity).sent + n)
  {
    hide Run;
    if n == 0 {
      InBounds(events, actions, stream, capacity);
      assert actions + [] == actions;
    } else {
      var earlier := actions + Rounds(n - 1);
      RoundsSend(events, actions, n - 1, stream, capacity);
      assert actions + Rounds(n) == earlier + [Push] + [Send];
      OneRound(events, earlier, stream, capacity);
    }
  }

  lemma InBounds(events: seq<Event>, actions: seq<Action>, stream: Text, capacity: nat)
    requires capacity > 0
    ensures var s := Run(events, actions, stream, capacity);
            s.events == events && s.sent <= s.pushed <= s.sent + 1 && s.pushed <= |events|
  {
    RunConsistent(events, actions, stream, capacity);
  }

  lemma OneRound(events: seq<Event>, actions: seq<Action>, stream: Text, capacity: nat)
    requires capacity > 0
    ensures Run(events, actions + [Push] + [Send], stream, capacity).sent ==
            Min(|events|, Run(events, actions, stream, capacity).sent + 1)
  {
    hide Run;
    InBounds(events, actions, stream, capacity);
    OneMoreAction(events, actions, Push, stream, capacity);
    OneMoreAction(events, actions + [Push], Send, stream, capacity);
  }

  /**
   * Everything reaches a live client: once the producer has gone on for as many rounds as
   * there are events, the client has been given every event of its stream from the oldest
   * one in its snapshot on.
   */
  lemma EverythingIsDelivered(events: seq<Event>, actions: seq<Action>, stream: Text, capacity: nat)
    requires capacity > 0 && Increasing(OfStream(events, stream))
    requires Run(events, actions, stream, capacity).client.Live?
    ensures var s := Run(events, actions + Rounds(|events|), stream, capacity);
            && s.client == Run(events, actions, stream, capacity).client
            && s.events == events && s.client.from <= s.sent == |events| && s.client.pushedBefore <= |events|
            && var seen, all := OfStream(events[..s.client.pushedBefore], stream), OfStream(events, stream);
            && |s.client.snapshot| <= |seen| <= |all|
            && Delivered(s, stream) == all[|seen| - |s.client.snapshot|..]
  {
    hide OfStream, Run, LastOf, Delivered, Increasing, Rounds;
    var rounds := Rounds(|events|);
    ClientWaits(events, actions, rounds, stream, capacity);
    RoundsSend(events, actions, |events|, stream, capacity);
    HandoverIsContiguous(events, actions + rounds, stream, capacity);
    assert events[..|events|] == events;
  }
}
