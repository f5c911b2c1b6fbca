/**
 * Exactly when the two injectors of `crates/metadata-codec` write an access unit, with
 * which error they refuse one, and what they do to its units.
 */
module Injection {
  import opened AccessUnit
  import opened AnnexB
  import opened Common
  import opened Sei

  /** A coded slice: NAL unit types 1 to 5 of ITU-T H.264. */
  predicate Coded(nal: Nal) { nal != [] && 1 <= nal[0] % 32 <= 5 }

  /** Where new units go: in front of the first slice, or of everything when there is none. */
  ghost predicate IsPlace(nals: seq<Nal>, k: nat) {
    if exists i :: 0 <= i < |nals| && Coded(nals[i]) then
      k < |nals| && Coded(nals[k]) && forall i :: 0 <= i < k ==> !Coded(nals[i])
    else k == 0
  }

  /** One SEI unit per message stands at that place, and every other unit is as it was. */
  ghost predicate PutIn(before: seq<Nal>, messages: seq<Message>, after: seq<Nal>) {
    exists k: nat :: IsPlace(before, k) && PutAt(before, k, messages, after)
  }

  ghost predicate PutAt(before: seq<Nal>, k: nat, messages: seq<Message>, after: seq<Nal>) {
    && k <= |before| && |after| == |before| + |messages|
    && after[..k] == before[..k] && after[k + |messages|..] == before[k..]
    && forall i :: 0 <= i < |messages| ==> after[k + i] == SeiNal(messages[i])
  }

  lemma InsertsAtPlace(nals: seq<Nal>)
    requires nals != []
    ensures IsPlace(nals, InsertAt(nals)) && InsertAt(nals) <= |nals|
  {
    forall i | 0 <= i < |nals|
      ensures IsSlice(nals[i]) <==> Coded(nals[i])
    {
    }
    hide IsSlice, Coded;
  }

  lemma SeisPutIn(nals: seq<Nal>, messages: seq<Message>)
    requires nals != [] && AllFramable(nals)
    ensures Split(Join(WithSeis(nals, InsertAt(nals), messages))) == Ok(WithSeis(nals, InsertAt(nals), messages))
    ensures PutIn(nals, messages, WithSeis(nals, InsertAt(nals), messages))
  {
    hide IsPlace, InsertAt, AllFramable, WithSeis, PutAt, Split, Join;
    InsertsAtPlace(nals);
    InjectionSplits(nals, InsertAt(nals), messages);
    SeisPutAt(nals, InsertAt(nals), messages);
  }

  lemma SeisPutAt(nals: seq<Nal>, k: nat, messages: seq<Message>)
    requires k <= |nals|
    ensures PutAt(nals, k, messages, WithSeis(nals, k, messages))
  {
    hide SeiNal;
  }

  /**
   * A timestamp is written exactly into an access unit that parses and has none, and only if
   * it is not zero; and it is then the only change.
   */
  lemma TimestampExactlyWhen(accessUnit: seq<Byte>, t: nat, decode: TimestampDecoder)
    ensures var answer, before := InjectTimestamp(accessUnit, t, decode), Inspect(accessUnit, false, decode);
            if before.Err? then answer == Err(before.error)
            else if before.value.Some? then answer == Err(TimestampCount(2))
            else if t == 0 then answer == Err(ZeroTimestamp)
            else
              && answer.Ok? && Split(accessUnit).Ok? && Split(answer.value).Ok?
              && PutIn(Split(accessUnit).value, [Message(SYNC_TIMESTAMP_UUID, TimestampBytes(t))], Split(answer.value).value)
  {
    hide Inspect, Split, PutIn, WithSeis, Join, InsertAt;
    if Inspect(accessUnit, false, decode).Ok? {
      SplitsIfInspected(accessUnit, decode);
      SplitIsFramable(accessUnit);
      SeisPutIn(Split(accessUnit).value, [Message(SYNC_TIMESTAMP_UUID, TimestampBytes(t))]);
    }
  }

  /**
   * Additions are written exactly into an access unit that parses and, if it has a timestamp,
   * shares no UUID with them, and only if each fits an SEI unit; and they are then the only
   * change. Without a timestamp a shared UUID is not noticed.
   */
  lemma UserDataExactlyWhen(accessUnit: seq<Byte>, additions: seq<Message>, decode: TimestampDecoder)
    ensures var answer, before := InjectUserData(accessUnit, additions, decode), Inspect(accessUnit, false, decode);
            if before.Err? then answer == Err(before.error)
            else if before.value.Some? && ShareOne(before.value.value.messages, additions) then answer == Err(TimestampCount(2))
            else if OneTooLarge(additions) then answer == Err(MalformedSei)
            else
              && answer.Ok? && Split(accessUnit).Ok? && Split(answer.value).Ok?
              && PutIn(Split(accessUnit).value, additions, Split(answer.value).value)
  {
    hide Inspect, Split, PutIn, WithSeis, Join, ShareOne, OneTooLarge, SharesUuid, AllEncodable, InsertAt;
    var before := Inspect(accessUnit, false, decode);
    if before.Ok? {
      SplitsIfInspected(accessUnit, decode);
      SplitIsFramable(accessUnit);
      SeisPutIn(Split(accessUnit).value, additions);
      Fitting(additions);
      if before.value.Some? {
        Sharing(before.value.value.messages, additions);
      }
    }
  }

  /** A message and an addition have one UUID. */
  ghost predicate ShareOne(messages: seq<Message>, additions: seq<Message>) {
    exists m, a :: m in messages && a in additions && m.uuid == a.uuid
  }

  /** An addition's size, with its UUID, is past the largest `usize`. */
  ghost predicate OneTooLarge(additions: seq<Message>) {
    exists a :: a in additions && 16 + |a.payload| > 0xFFFF_FFFF_FFFF_FFFF
  }

  lemma Sharing(messages: seq<Message>, additions: seq<Message>)
    ensures SharesUuid(messages, additions) <==> ShareOne(messages, additions)
  {
    if ShareOne(messages, additions) {
      var m, a :| m in messages && a in additions && m.uuid == a.uuid;
      var i, j :| 0 <= i < |messages| && 0 <= j < |additions| && messages[i] == m && additions[j] == a;
    }
  }

  lemma Fitting(additions: seq<Message>)
    ensures AllEncodable(additions) <==> !OneTooLarge(additions)
  {
  }

  lemma SplitsIfInspected(accessUnit: seq<Byte>, decode: TimestampDecoder)
    requires Inspect(accessUnit, false, decode).Ok?
    ensures Split(accessUnit).Ok?
  {
  }
}
