/**
 * The byte-stream framing of `crates/metadata-codec/src/lib.rs`, after Annex B
 * of ITU-T H.264: NAL units separated by 00 00 01 or 00 00 00 01.
 */
module AnnexB {
  import opened Common

  type Nal = seq<Byte>

  /** Offset of a start code and its length. */
  datatype Start = Start(at: nat, size: nat) {
    function Body(): nat { at + size }
  }

  datatype CodecError =
    | ZeroTimestamp
    | PayloadTooLarge(limit: nat, actual: nat)
    | MalformedAccessUnit
    | MalformedSei
    | TimestampCount(count: nat)
    | SecondarySemanticMetadata(uuid: Uuid)
    | Protobuf

  const START_CODE: seq<Byte> := [0, 0, 0, 1]

  predicate LongCodeAt(s: seq<Byte>, i: nat) {
    i + 4 <= |s| && s[i] == 0 && s[i + 1] == 0 && s[i + 2] == 0 && s[i + 3] == 1
  }

  predicate ShortCodeAt(s: seq<Byte>, i: nat) {
    i + 3 <= |s| && s[i] == 0 && s[i + 1] == 0 && s[i + 2] == 1
  }

  /** The start codes that a scan of `s` from `i` finds, left to right. */
  function Starts(s: seq<Byte>, i: nat): seq<Start>
    decreases |s| - i
  {
    if i + 3 > |s| then []
    else if LongCodeAt(s, i) then [Start(i, 4)] + Starts(s, i + 4)
    else if ShortCodeAt(s, i) then [Start(i, 3)] + Starts(s, i + 3)
    else Starts(s, i + 1)
  }

  /** Each start code ends before the next begins and before the buffer ends. */
  ghost predicate InOrder(s: seq<Byte>, starts: seq<Start>, from: nat) {
    && (forall k :: 0 <= k < |starts| ==> from <= starts[k].at && starts[k].Body() <= |s|)
    && (forall a, b :: 0 <= a < b < |starts| ==> starts[a].Body() <= starts[b].at)
  }

  lemma InOrderCons(s: seq<Byte>, head: Start, rest: seq<Start>)
    requires InOrder(s, rest, head.Body()) && head.Body() <= |s|
    ensures InOrder(s, [head] + rest, head.at)
  {
  }

  lemma {:induction false} StartsInOrder(s: seq<Byte>, i: nat)
    ensures InOrder(s, Starts(s, i), i)
    decreases |s| - i
  {
    if i + 3 <= |s| {
      var skip := if LongCodeAt(s, i) then 4 else if ShortCodeAt(s, i) then 3 else 1;
      StartsInOrder(s, i + skip);
      if skip > 1 {
        InOrderCons(s, Start(i, skip), Starts(s, i + skip));
      }
    }
  }

  /** Where the NAL unit behind start code `k` ends. */
  function EndOf(s: seq<Byte>, starts: seq<Start>, k: nat): nat
    requires k < |starts|
  {
    if k + 1 < |starts| then starts[k + 1].at else |s|
  }

  predicate NonEmptyUnits(s: seq<Byte>, starts: seq<Start>) {
    forall k :: 0 <= k < |starts| ==> starts[k].Body() < EndOf(s, starts, k)
  }

  function UnitAt(s: seq<Byte>, starts: seq<Start>, k: nat): Nal
    requires InOrder(s, starts, 0) && k < |starts|
  {
    s[starts[k].Body() .. EndOf(s, starts, k)]
  }

  function Split(s: seq<Byte>): Result<seq<Nal>, CodecError> {
    StartsInOrder(s, 0);
    var starts := Starts(s, 0);
    if starts == [] || !NonEmptyUnits(s, starts) then Err(MalformedAccessUnit)
    else Ok(Units(s, starts))
  }

  function Units(s: seq<Byte>, starts: seq<Start>): (nals: seq<Nal>)
    requires InOrder(s, starts, 0)
    ensures |nals| == |starts| && forall k :: 0 <= k < |nals| ==> nals[k] == UnitAt(s, starts, k)
  {
    seq(|starts|, k requires 0 <= k < |starts| => UnitAt(s, starts, k))
  }

  /** The writer's framing: a four-byte start code in front of every unit. */
  function Join(nals: seq<Nal>): seq<Byte> {
    if nals == [] then [] else START_CODE + nals[0] + Join(nals[1..])
  }

  ghost predicate FreeOfCode(s: seq<Byte>) {
    forall i: nat {:trigger ShortCodeAt(s, i)} :: !ShortCodeAt(s, i)
  }

  /** What a NAL unit must be for the framing to carry it. */
  ghost predicate Framable(nal: Nal) {
    nal != [] && FreeOfCode(nal)
  }

  ghost predicate AllFramable(nals: seq<Nal>) {
    forall k :: 0 <= k < |nals| ==> Framable(nals[k])
  }

  // ---- Splitting undoes joining ----

  lemma {:induction false} ScanSkips(s: seq<Byte>, i: nat, end: nat)
    requires i <= end <= |s|
    requires forall j :: i <= j < end ==> !LongCodeAt(s, j) && !ShortCodeAt(s, j)
    ensures Starts(s, i) == Starts(s, end)
    decreases end - i
  {
    if i < end {
      ScanSkips(s, i + 1, end);
    }
  }

  /** The start codes of a joined list that begins at `offset`. */
  function Offsets(offset: nat, nals: seq<Nal>): seq<Start>
    decreases |nals|
  {
    if nals == [] then [] else [Start(offset, 4)] + Offsets(offset + 4 + |nals[0]|, nals[1..])
  }

  lemma JoinHead(nals: seq<Nal>)
    requires nals != []
    ensures START_CODE <= Join(nals) && |Join(nals)| >= 4 + |nals[0]|
  {
  }

  /** Inside one unit, and across its seam with the next, the scan finds nothing. */
  lemma NoCodeInUnit(before: seq<Byte>, nal: Nal, after: seq<Byte>, j: nat)
    requires FreeOfCode(nal) && (after == [] || START_CODE <= after)
    requires |before| <= j < |before| + |nal|
    ensures !LongCodeAt(before + nal + after, j) && !ShortCodeAt(before + nal + after, j)
  {
    var s := before + nal + after;
    var i := j - |before|;
    assert !ShortCodeAt(nal, i) && !ShortCodeAt(nal, i + 1);
    assert forall k :: 0 <= k < |nal| ==> s[|before| + k] == nal[k];
    if after != [] {
      assert forall k :: 0 <= k < 3 ==> after[k] == START_CODE[k] == 0;
      assert forall k :: 0 <= k < |after| ==> s[|before| + |nal| + k] == after[k];
    }
  }

  lemma ScanSkipsUnit(before: seq<Byte>, nal: Nal, after: seq<Byte>)
    requires FreeOfCode(nal) && (after == [] || START_CODE <= after)
    ensures var s := before + nal + after; Starts(s, |before|) == Starts(s, |before| + |nal|)
  {
    var s := before + nal + after;
    forall j | |before| <= j < |before| + |nal|
      ensures !LongCodeAt(s, j) && !ShortCodeAt(s, j)
    {
      NoCodeInUnit(before, nal, after, j);
    }
    ScanSkips(s, |before|, |before| + |nal|);
  }

  lemma {:induction false} StartsOfJoin(before: seq<Byte>, nals: seq<Nal>)
    requires AllFramable(nals)
    ensures Starts(before + Join(nals), |before|) == Offsets(|before|, nals)
    decreases |nals|
  {
    hide Join, Framable, AllFramable, Starts;
    if nals == [] {
      NothingStarts(before);
    } else {
      var nal, after := nals[0], Join(nals[1..]);
      var head := before + START_CODE;
      JoinShape(before, nals);
      StartsHere(before, nal + after);
      ConcatAssociates(head, nal, after);
      ScanFramable(head, nal, after);
      StartsOfJoin(head + nal, nals[1..]);
    }
  }

  lemma JoinShape(before: seq<Byte>, nals: seq<Nal>)
    requires nals != [] && AllFramable(nals)
    ensures before + Join(nals) == before + START_CODE + nals[0] + Join(nals[1..])
    ensures Join(nals[1..]) == [] || START_CODE <= Join(nals[1..])
    ensures Framable(nals[0]) && AllFramable(nals[1..])
  {
    hide Framable;
    if nals[1..] == [] {
      assert Join(nals[1..]) == [];
    } else {
      JoinHead(nals[1..]);
    }
    FourParts(before, START_CODE, nals[0], Join(nals[1..]), Join(nals));
  }

  lemma FourParts(a: seq<Byte>, b: seq<Byte>, c: seq<Byte>, d: seq<Byte>, joined: seq<Byte>)
    requires joined == b + c + d
    ensures a + joined == a + b + c + d
  {
    ConcatAssociates(a, b + c, d);
    ConcatAssociates(a, b, c);
  }

  lemma NothingStarts(before: seq<Byte>)
    ensures Starts(before + Join([]), |before|) == []
  {
  }

  lemma StartsHere(before: seq<Byte>, rest: seq<Byte>)
    ensures var s := before + START_CODE + rest; Starts(s, |before|) == [Start(|before|, 4)] + Starts(s, |before| + 4)
  {
    hide Starts, LongCodeAt;
    CodeHere(before, rest);
    StartsAtCode(before + START_CODE + rest, |before|);
  }

  lemma CodeHere(before: seq<Byte>, rest: seq<Byte>)
    ensures LongCodeAt(before + START_CODE + rest, |before|)
  {
  }

  lemma StartsAtCode(s: seq<Byte>, i: nat)
    requires LongCodeAt(s, i)
    ensures i + 4 <= |s| && Starts(s, i) == [Start(i, 4)] + Starts(s, i + 4)
  {
    assert i + 4 <= |s|;
    hide LongCodeAt, ShortCodeAt;
  }

  lemma ScanFramable(before: seq<Byte>, nal: Nal, after: seq<Byte>)
    requires Framable(nal) && (after == [] || START_CODE <= after)
    ensures var s := before + nal + after; Starts(s, |before|) == Starts(s, |before| + |nal|)
  {
    ScanSkipsUnit(before, nal, after);
  }

  lemma {:induction false} OffsetsDelimit(before: seq<Byte>, nals: seq<Nal>, k: nat)
    requires k < |nals|
    ensures |Offsets(|before|, nals)| == |nals|
    ensures var o := Offsets(|before|, nals); var s := before + Join(nals);
            && |before| <= o[k].at && o[k].size == 4
            && o[k].at + 4 + |nals[k]| == EndOf(s, o, k) <= |s|
            && s[o[k].at + 4 .. EndOf(s, o, k)] == nals[k]
    decreases |nals|
  {
    var s := before + Join(nals);
    var head := before + START_CODE + nals[0];
    assert s == head + Join(nals[1..]);
    var o, rest := Offsets(|before|, nals), Offsets(|head|, nals[1..]);
    assert o == [Start(|before|, 4)] + rest;
    if nals[1..] == [] {
      assert Join(nals[1..]) == [];
    } else {
      assert rest[0].at == |head|;
      hide Join, Offsets;
      OffsetsDelimit(head, nals[1..], if k == 0 then 0 else k - 1);
    }
  }

  lemma UnitOfJoin(nals: seq<Nal>, k: nat)
    requires AllFramable(nals) && k < |nals|
    ensures var s := Join(nals); var starts := Starts(s, 0);
            && |starts| == |nals| && InOrder(s, starts, 0)
            && starts[k].Body() < EndOf(s, starts, k)
            && UnitAt(s, starts, k) == nals[k]
  {
    var s := Join(nals);
    assert [] + s == s;
    assert Starts(s, 0) == Offsets(0, nals) by { StartsOfJoin([], nals); }
    StartsInOrder(s, 0);
    OffsetsDelimit([], nals, k);
    assert Framable(nals[k]);
  }

  lemma SplitJoin(nals: seq<Nal>)
    requires nals != [] && AllFramable(nals)
    ensures Split(Join(nals)) == Ok(nals)
  {
    var s := Join(nals);
    var starts := Starts(s, 0);
    UnitOfJoin(nals, 0);
    forall k | 0 <= k < |nals|
      ensures starts[k].Body() < EndOf(s, starts, k) && UnitAt(s, starts, k) == nals[k]
    {
      UnitOfJoin(nals, k);
    }
    assert Units(s, starts) == nals;
  }

  // ---- Everything that splits can be joined again ----

  lemma {:induction false} NoCodeBetween(s: seq<Byte>, i: nat, j: nat)
    requires i <= j
    requires forall k :: 0 <= k < |Starts(s, i)| ==> !(Starts(s, i)[k].at <= j < Starts(s, i)[k].Body())
    ensures !ShortCodeAt(s, j)
    decreases |s| - i
  {
    if i + 3 <= |s| {
      var skip := if LongCodeAt(s, i) then 4 else if ShortCodeAt(s, i) then 3 else 1;
      if skip > 1 {
        assert Starts(s, i) == [Start(i, skip)] + Starts(s, i + skip);
        assert Starts(s, i)[0] == Start(i, skip);
        var rest := Starts(s, i + skip);
        forall k | 0 <= k < |rest|
          ensures rest[k] == Starts(s, i)[k + 1]
        {
        }
      }
      if j >= i + skip {
        NoCodeBetween(s, i + skip, j);
      }
    }
  }

  lemma SplitIsFramable(s: seq<Byte>)
    requires Split(s).Ok?
    ensures Split(s).value != [] && AllFramable(Split(s).value)
  {
    hide Framable, Starts, InOrder;
    StartsInOrder(s, 0);
    var starts, nals := Starts(s, 0), Split(s).value;
    forall k | 0 <= k < |nals|
      ensures Framable(nals[k])
    {
      UnitIsFramable(s, starts, k);
    }
  }

  lemma UnitIsFramable(s: seq<Byte>, starts: seq<Start>, k: nat)
    requires starts == Starts(s, 0) && InOrder(s, starts, 0) && k < |starts| && starts[k].Body() < EndOf(s, starts, k)
    ensures Framable(UnitAt(s, starts, k))
  {
    hide Starts, ShortCodeAt;
    var begin, end := starts[k].Body(), EndOf(s, starts, k);
    assert end <= |s|;
    forall i: nat
      ensures !ShortCodeAt(s[begin..end], i)
    {
      CodeInSlice(s, begin, end, i);
      if begin + i < end {
        BetweenCodes(s, starts, k, begin + i);
        NoCodeBetween(s, 0, begin + i);
      }
    }
  }

  /** A start code inside a slice is one of the whole. */
  lemma CodeInSlice(s: seq<Byte>, begin: nat, end: nat, i: nat)
    requires begin <= end <= |s|
    ensures ShortCodeAt(s[begin..end], i) ==> begin + i < end && ShortCodeAt(s, begin + i)
  {
  }

  /** A position inside a unit is inside no start code. */
  lemma BetweenCodes(s: seq<Byte>, starts: seq<Start>, k: nat, j: nat)
    requires InOrder(s, starts, 0) && k < |starts| && starts[k].Body() <= j < EndOf(s, starts, k)
    ensures forall m :: 0 <= m < |starts| ==> !(starts[m].at <= j < starts[m].Body())
  {
    forall m | 0 <= m < |starts|
      ensures !(starts[m].at <= j < starts[m].Body())
    {
      if m < k {
        assert starts[m].Body() <= starts[k].at;
      } else if k + 1 < m {
        assert starts[k + 1].Body() <= starts[m].at;
      }
    }
  }

  /** Rewriting every start code to four bytes loses no unit, whatever the input framing. */
  lemma ReframeIsLossless(s: seq<Byte>)
    requires Split(s).Ok?
    ensures Split(Join(Split(s).value)) == Split(s)
  {
    SplitIsFramable(s);
    SplitJoin(Split(s).value);
  }

  lemma JoinAppend(left: seq<Nal>, right: seq<Nal>)
    ensures Join(left + right) == Join(left) + Join(right)
  {
    if left == [] {
      assert left + right == right;
    } else {
      assert (left + right)[1..] == left[1..] + right;
      JoinAppend(left[1..], right);
    }
  }

  // ---- The source's loops ----

  method StartCodes(bytes: seq<Byte>) returns (result: seq<Start>)
    ensures result == Starts(bytes, 0)
  {
    result := [];
    var index: nat := 0;
    while index + 3 <= |bytes|
      invariant result + Starts(bytes, index) == Starts(bytes, 0)
      decreases |bytes| - index
    {
      if LongCodeAt(bytes, index) {
        result := result + [Start(index, 4)];
        index := index + 4;
      } else if ShortCodeAt(bytes, index) {
        result := result + [Start(index, 3)];
        index := index + 3;
      } else {
        index := index + 1;
      }
    }
  }

  method SplitAnnexB(accessUnit: seq<Byte>) returns (result: Result<seq<Nal>, CodecError>)
    ensures result == Split(accessUnit)
  {
    StartsInOrder(accessUnit, 0);
    var starts := StartCodes(accessUnit);
    if starts == [] {
      return Err(MalformedAccessUnit);
    }
    var nals: seq<Nal> := [];
    for index := 0 to |starts|
      invariant nals == Units(accessUnit, starts)[..index]
      invariant forall k :: 0 <= k < index ==> starts[k].Body() < EndOf(accessUnit, starts, k)
    {
      var begin := starts[index].Body();
      var end := EndOf(accessUnit, starts, index);
      if begin >= end {
        return Err(MalformedAccessUnit);
      }
      nals := nals + [accessUnit[begin..end]];
      assert nals[index] == Units(accessUnit, starts)[index];
    }
    assert nals == Units(accessUnit, starts);
    return Ok(nals);
  }
}
