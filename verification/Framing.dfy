/**
 * Exactly which byte strings split into which NAL units: the splitter of
 * `crates/metadata-codec/src/lib.rs` against a writer that is free to use the short or
 * the long start code for each unit, and to put bytes in front of the first.
 */
module Framing {
  import opened Common
  import opened AnnexB

  function Code(long: bool): seq<Byte> { if long then [0, 0, 0, 1] else [0, 0, 1] }

  /** Each unit behind the start code chosen for it. */
  function Mixed(longs: seq<bool>, nals: seq<Nal>): seq<Byte>
    requires |longs| == |nals|
  {
    if nals == [] then [] else Code(longs[0]) + nals[0] + Mixed(longs[1..], nals[1..])
  }

  predicate EndsInZero(s: seq<Byte>) { s != [] && s[|s| - 1] == 0 }

  /** A short code does not follow a zero byte, which would make it a long one. */
  ghost predicate Separated(before: seq<Byte>, longs: seq<bool>, nals: seq<Nal>)
    requires |longs| == |nals|
  {
    && (nals != [] && !longs[0] ==> !EndsInZero(before))
    && forall k :: 1 <= k < |nals| && !longs[k] ==> !EndsInZero(nals[k - 1])
  }

  ghost predicate IsFraming(s: seq<Byte>, before: seq<Byte>, longs: seq<bool>, nals: seq<Nal>) {
    && |longs| == |nals| > 0 && FreeOfCode(before) && AllFramable(nals) && Separated(before, longs, nals)
    && s == before + Mixed(longs, nals)
  }

  // ---- Every such string splits into its units ----

  /** What may follow a chunk: nothing, or a start code that the chunk does not lengthen. */
  ghost predicate Follows(chunk: seq<Byte>, after: seq<Byte>) {
    after == [] || Code(true) <= after || (Code(false) <= after && !EndsInZero(chunk))
  }

  lemma NoCodeInChunk(before: seq<Byte>, chunk: seq<Byte>, after: seq<Byte>, j: nat)
    requires FreeOfCode(chunk) && Follows(chunk, after) && |before| <= j < |before| + |chunk|
    ensures !LongCodeAt(before + chunk + after, j) && !ShortCodeAt(before + chunk + after, j)
  {
    if after == [] || Code(true) <= after {
      NoCodeInUnit(before, chunk, after, j);
    } else {
      var s := before + chunk + after;
      var i := j - |before|;
      assert !ShortCodeAt(chunk, i) && !ShortCodeAt(chunk, i + 1);
      assert forall k :: 0 <= k < |chunk| ==> s[|before| + k] == chunk[k];
      assert chunk[|chunk| - 1] != 0;
      assert s[|before| + |chunk|] == after[0] == 0;
    }
  }

  lemma ScanChunk(before: seq<Byte>, chunk: seq<Byte>, after: seq<Byte>)
    requires FreeOfCode(chunk) && Follows(chunk, after)
    ensures var s := before + chunk + after; Starts(s, |before|) == Starts(s, |before| + |chunk|)
  {
    var s := before + chunk + after;
    forall j | |before| <= j < |before| + |chunk|
      ensures !LongCodeAt(s, j) && !ShortCodeAt(s, j)
    {
      NoCodeInChunk(before, chunk, after, j);
    }
    ScanSkips(s, |before|, |before| + |chunk|);
  }

  lemma CodeIsFound(before: seq<Byte>, long: bool, rest: seq<Byte>)
    ensures var s := before + Code(long) + rest; var size := |Code(long)|;
            Starts(s, |before|) == [Start(|before|, size)] + Starts(s, |before| + size)
  {
    hide Starts, LongCodeAt, ShortCodeAt, Code;
    CodeSize(long);
    CodeStands(before, long, rest);
    StartsHereAt(before + Code(long) + rest, |before|);
  }

  lemma CodeSize(long: bool)
    ensures |Code(long)| == if long then 4 else 3
  {
  }

  lemma StartsHereAt(s: seq<Byte>, i: nat)
    requires i + 3 <= |s| && (LongCodeAt(s, i) || ShortCodeAt(s, i))
    ensures var size := if LongCodeAt(s, i) then 4 else 3; Starts(s, i) == [Start(i, size)] + Starts(s, i + size)
  {
    hide LongCodeAt, ShortCodeAt;
  }

  lemma CodeStands(before: seq<Byte>, long: bool, rest: seq<Byte>)
    ensures var s := before + Code(long) + rest;
            && |before| + 3 <= |s|
            && (LongCodeAt(s, |before|) <==> long) && (!long ==> ShortCodeAt(s, |before|))
  {
    var s := before + Code(long) + rest;
    assert forall k :: 0 <= k < |Code(long)| ==> s[|before| + k] == Code(long)[k];
  }

  /** The start codes of a mixed list that begins at `offset`. */
  function Marks(offset: nat, longs: seq<bool>, nals: seq<Nal>): (marks: seq<Start>)
    requires |longs| == |nals|
    ensures |marks| == |nals|
    decreases |nals|
  {
    if nals == [] then []
    else
      var size := |Code(longs[0])|;
      [Start(offset, size)] + Marks(offset + size + |nals[0]|, longs[1..], nals[1..])
  }

  /** The units are framable, and each is followed by a code it does not lengthen. */
  ghost predicate Chained(longs: seq<bool>, nals: seq<Nal>)
    requires |longs| == |nals|
  {
    AllFramable(nals) && forall k :: 1 <= k < |nals| && !longs[k] ==> !EndsInZero(nals[k - 1])
  }

  lemma ChainedTail(longs: seq<bool>, nals: seq<Nal>)
    requires |longs| == |nals| > 0 && Chained(longs, nals)
    ensures Chained(longs[1..], nals[1..]) && Framable(nals[0]) && Follows(nals[0], Mixed(longs[1..], nals[1..]))
  {
    var tail := nals[1..];
    assert forall k :: 0 <= k < |tail| ==> tail[k] == nals[k + 1] && longs[1..][k] == longs[k + 1];
    if tail != [] {
      CodeFirst(longs[1..], tail);
      assert !longs[1] ==> !EndsInZero(nals[1 - 1]);
    }
  }

  lemma CodeFirst(longs: seq<bool>, nals: seq<Nal>)
    requires |longs| == |nals| > 0
    ensures Code(longs[0]) <= Mixed(longs, nals)
  {
  }

  lemma MixedParts(before: seq<Byte>, longs: seq<bool>, nals: seq<Nal>)
    requires |longs| == |nals| > 0
    ensures var rest := Mixed(longs[1..], nals[1..]);
            && before + Mixed(longs, nals) == before + Code(longs[0]) + (nals[0] + rest)
            && before + Mixed(longs, nals) == before + Code(longs[0]) + nals[0] + rest
  {
    var rest := Mixed(longs[1..], nals[1..]);
    FourParts(before, Code(longs[0]), nals[0], rest, Mixed(longs, nals));
    ConcatAssociates(before + Code(longs[0]), nals[0], rest);
  }

  lemma {:induction false} StartsOfMixed(before: seq<Byte>, longs: seq<bool>, nals: seq<Nal>)
    requires |longs| == |nals| && Chained(longs, nals)
    ensures Starts(before + Mixed(longs, nals), |before|) == Marks(|before|, longs, nals)
    decreases |nals|
  {
    hide Starts, Mixed, Chained, Framable, Follows;
    if nals == [] {
      NothingMixed(before);
    } else {
      var nal, rest := nals[0], Mixed(longs[1..], nals[1..]);
      var head := before + Code(longs[0]);
      MixedParts(before, longs, nals);
      ChainedTail(longs, nals);
      CodeIsFound(before, longs[0], nal + rest);
      FramableIsFree(nal);
      ScanChunk(head, nal, rest);
      StartsOfMixed(head + nal, longs[1..], nals[1..]);
    }
  }

  lemma FramableIsFree(nal: Nal)
    requires Framable(nal)
    ensures nal != [] && FreeOfCode(nal)
  {
  }

  lemma NothingMixed(before: seq<Byte>)
    ensures Starts(before + Mixed([], []), |before|) == []
  {
  }

  lemma {:induction false} MarksDelimit(before: seq<Byte>, longs: seq<bool>, nals: seq<Nal>, k: nat)
    requires |longs| == |nals| && k < |nals|
    ensures var o := Marks(|before|, longs, nals); var s := before + Mixed(longs, nals);
            && |before| <= o[k].at && o[0].at == |before|
            && o[k].Body() + |nals[k]| == EndOf(s, o, k) <= |s|
            && s[o[k].Body()..EndOf(s, o, k)] == nals[k]
    decreases |nals|
  {
    var s := before + Mixed(longs, nals);
    var head := before + Code(longs[0]) + nals[0];
    MixedParts(before, longs, nals);
    var o, rest := Marks(|before|, longs, nals), Marks(|head|, longs[1..], nals[1..]);
    assert o == [Start(|before|, |Code(longs[0])|)] + rest;
    if |nals| == 1 {
      assert Mixed(longs[1..], nals[1..]) == [] && s == head;
    } else {
      hide Mixed, Marks;
      MarksDelimit(head, longs[1..], nals[1..], if k == 0 then 0 else k - 1);
    }
  }

  lemma FramingSplits(s: seq<Byte>, before: seq<Byte>, longs: seq<bool>, nals: seq<Nal>)
    requires IsFraming(s, before, longs, nals)
    ensures Split(s) == Ok(nals)
  {
    var mixed := Mixed(longs, nals);
    CodeFirst(longs, nals);
    assert [] + before + mixed == s;
    ScanChunk([], before, mixed);
    StartsOfMixed(before, longs, nals);
    var starts := Starts(s, 0);
    assert starts == Marks(|before|, longs, nals);
    hide Starts, Mixed, Marks;
    StartsInOrder(s, 0);
    forall k | 0 <= k < |nals|
      ensures starts[k].Body() < EndOf(s, starts, k) && UnitAt(s, starts, k) == nals[k]
    {
      MarksDelimit(before, longs, nals, k);
      assert Framable(nals[k]);
    }
    assert Units(s, starts) == nals;
  }

  // ---- Every string that splits is such a string ----

  /** Each start found is a code of its size. */
  ghost predicate AtCodes(s: seq<Byte>, starts: seq<Start>) {
    forall k :: 0 <= k < |starts| ==>
      if starts[k].size == 4 then LongCodeAt(s, starts[k].at) else starts[k].size == 3 && ShortCodeAt(s, starts[k].at)
  }

  lemma {:induction false} StartsAreCodes(s: seq<Byte>, i: nat)
    ensures AtCodes(s, Starts(s, i))
    decreases |s| - i
  {
    hide LongCodeAt, ShortCodeAt;
    if i + 3 <= |s| {
      StartsAreCodes(s, i + if LongCodeAt(s, i) then 4 else if ShortCodeAt(s, i) then 3 else 1);
    }
  }

  /** No long code begins between the codes found. */
  lemma {:induction false} NoLongBetween(s: seq<Byte>, i: nat, j: nat)
    requires i <= j && forall k :: 0 <= k < |Starts(s, i)| ==> !(Starts(s, i)[k].at <= j < Starts(s, i)[k].Body())
    ensures !LongCodeAt(s, j)
    decreases |s| - i
  {
    if i + 3 > |s| {
      assert !LongCodeAt(s, j);
    } else if LongCodeAt(s, i) || ShortCodeAt(s, i) {
      hide Starts;
      StartsHereAt(s, i);
      var size := if LongCodeAt(s, i) then 4 else 3;
      var all, rest := Starts(s, i), Starts(s, i + size);
      assert all[0] == Start(i, size);
      assert forall k :: 0 <= k < |rest| ==> rest[k] == all[k + 1];
      NoLongBetween(s, i + size, j);
    } else {
      assert Starts(s, i) == Starts(s, i + 1);
      hide Starts;
      if j > i {
        NoLongBetween(s, i + 1, j);
      }
    }
  }

  function LongsOf(starts: seq<Start>): (longs: seq<bool>)
    ensures |longs| == |starts| && forall k :: 0 <= k < |longs| ==> longs[k] == (starts[k].size == 4)
  {
    seq(|starts|, k requires 0 <= k < |starts| => starts[k].size == 4)
  }

  lemma CodeBytes(s: seq<Byte>, starts: seq<Start>, k: nat)
    requires AtCodes(s, starts) && k < |starts|
    ensures starts[k].Body() <= |s| && s[starts[k].at..starts[k].Body()] == Code(starts[k].size == 4)
  {
  }

  lemma {:induction false} Reassembles(s: seq<Byte>, starts: seq<Start>, nals: seq<Nal>, k: nat)
    requires InOrder(s, starts, 0) && AtCodes(s, starts) && nals == Units(s, starts) && k <= |starts|
    ensures k < |starts| ==> starts[k].at <= |s| && s[starts[k].at..] == Mixed(LongsOf(starts)[k..], nals[k..])
    decreases |starts| - k
  {
    hide AtCodes, Mixed, InOrder;
    if k < |starts| {
      Reassembles(s, starts, nals, k + 1);
      CodeBytes(s, starts, k);
      UnitBounds(s, starts, k);
      var at, body, end := starts[k].at, starts[k].Body(), EndOf(s, starts, k);
      var longs := LongsOf(starts);
      MixedAt(longs, nals, k);
      ThreeSlices(s, at, body, end);
      if k + 1 == |starts| {
        assert s[end..] == [];
      }
    }
  }

  lemma UnitBounds(s: seq<Byte>, starts: seq<Start>, k: nat)
    requires InOrder(s, starts, 0) && k < |starts|
    ensures starts[k].at <= starts[k].Body() <= EndOf(s, starts, k) <= |s|
    ensures UnitAt(s, starts, k) == s[starts[k].Body()..EndOf(s, starts, k)]
  {
  }

  lemma ThreeSlices(s: seq<Byte>, a: nat, b: nat, c: nat)
    requires a <= b <= c <= |s|
    ensures s[a..] == s[a..b] + s[b..c] + s[c..]
  {
  }

  lemma MixedAt(longs: seq<bool>, nals: seq<Nal>, k: nat)
    requires |longs| == |nals| && k < |nals|
    ensures Mixed(longs[k..], nals[k..]) == Code(longs[k]) + nals[k] + Mixed(longs[k + 1..], nals[k + 1..])
    ensures k + 1 == |nals| ==> Mixed(longs[k + 1..], nals[k + 1..]) == []
  {
    assert longs[k..][1..] == longs[k + 1..] && nals[k..][1..] == nals[k + 1..];
  }

  lemma SplitIsFraming(s: seq<Byte>)
    requires Split(s).Ok?
    ensures var starts := Starts(s, 0);
            && starts != [] && starts[0].at <= |s|
            && IsFraming(s, s[..starts[0].at], LongsOf(starts), Split(s).value)
  {
    hide Starts, AllFramable, Mixed, InOrder, AtCodes, FreeOfCode, Separated, Split;
    var starts, nals := Starts(s, 0), Split(s).value;
    SplitUnits(s);
    StartsAreCodes(s, 0);
    SplitIsFramable(s);
    Reassembles(s, starts, nals, 0);
    var longs, before := LongsOf(starts), s[..starts[0].at];
    WholeSlices(s, starts[0].at, longs, nals);
    PrefixIsFree(s);
    SplitIsSeparated(s, starts, nals, before, longs);
  }

  lemma SplitUnits(s: seq<Byte>)
    requires Split(s).Ok?
    ensures var starts := Starts(s, 0);
            && starts != [] && InOrder(s, starts, 0) && Split(s).value == Units(s, starts)
            && starts[0].at <= |s|
  {
    StartsInOrder(s, 0);
  }

  lemma WholeSlices(s: seq<Byte>, at: nat, longs: seq<bool>, nals: seq<Nal>)
    requires at <= |s|
    ensures longs[0..] == longs && nals[0..] == nals && s == s[..at] + s[at..]
  {
  }

  lemma SplitIsSeparated(s: seq<Byte>, starts: seq<Start>, nals: seq<Nal>, before: seq<Byte>, longs: seq<bool>)
    requires Split(s) == Ok(nals) && starts == Starts(s, 0) && AtCodes(s, starts) && |starts| == |nals| > 0
    requires starts[0].at <= |s| && before == s[..starts[0].at] && longs == LongsOf(starts)
    ensures Separated(before, longs, nals)
  {
    hide Starts, AtCodes, Split, EndsInZero;
    forall k | 0 <= k < |nals| && !longs[k]
      ensures !EndsInZero(if k == 0 then before else nals[k - 1])
    {
      ShortIsShort(s, k);
    }
  }

  lemma PrefixIsFree(s: seq<Byte>)
    requires Starts(s, 0) != [] && Starts(s, 0)[0].at <= |s|
    ensures FreeOfCode(s[..Starts(s, 0)[0].at])
  {
    StartsInOrder(s, 0);
    hide Starts;
    var starts := Starts(s, 0);
    var before := s[..starts[0].at];
    forall i: nat
      ensures !ShortCodeAt(before, i)
    {
      if i < starts[0].at {
        assert forall k :: 0 < k < |starts| ==> starts[0].Body() <= starts[k].at;
        NoCodeBetween(s, 0, i);
      }
    }
  }

  /** A short code found is not behind a zero byte, or the long one would have been found. */
  lemma ShortIsShort(s: seq<Byte>, k: nat)
    requires Split(s).Ok? && k < |Starts(s, 0)| && Starts(s, 0)[k].size != 4 && AtCodes(s, Starts(s, 0))
    ensures var starts := Starts(s, 0);
            && starts[k].at <= |s|
            && !EndsInZero(if k == 0 then s[..starts[0].at] else Split(s).value[k - 1])
  {
    hide Starts, Split, AtCodes, InOrder, LongCodeAt, ShortCodeAt;
    SplitUnits(s);
    var starts := Starts(s, 0);
    var at := starts[k].at;
    ShortAt(s, starts, k);
    if k > 0 {
      UnitBefore(s, k);
    }
    if at > 0 {
      OutsideCodes(s, starts, k);
      NoLongBetween(s, 0, at - 1);
      NotLengthened(s, at);
    }
  }

  lemma ShortAt(s: seq<Byte>, starts: seq<Start>, k: nat)
    requires AtCodes(s, starts) && k < |starts| && starts[k].size != 4
    ensures ShortCodeAt(s, starts[k].at) && starts[k].at + 3 <= |s|
  {
  }

  lemma UnitBefore(s: seq<Byte>, k: nat)
    requires Split(s).Ok? && 0 < k < |Starts(s, 0)|
    ensures var starts := Starts(s, 0);
            && starts[k - 1].Body() < starts[k].at <= |s| && |Split(s).value| == |starts|
            && Split(s).value[k - 1] == s[starts[k - 1].Body()..starts[k].at]
  {
    StartsInOrder(s, 0);
    hide Starts;
  }

  lemma NotLengthened(s: seq<Byte>, at: nat)
    requires at > 0 && ShortCodeAt(s, at) && !LongCodeAt(s, at - 1)
    ensures at <= |s| && s[at - 1] != 0
  {
  }

  /** The byte in front of a start code is inside no other, because no unit is empty. */
  lemma OutsideCodes(s: seq<Byte>, starts: seq<Start>, k: nat)
    requires InOrder(s, starts, 0) && k < |starts| && starts[k].at > 0 && (k > 0 ==> starts[k - 1].Body() < starts[k].at)
    ensures forall m :: 0 <= m < |starts| ==> !(starts[m].at <= starts[k].at - 1 < starts[m].Body())
  {
    forall m | 0 <= m < |starts|
      ensures !(starts[m].at <= starts[k].at - 1 < starts[m].Body())
    {
      if k < m {
        assert starts[k].Body() <= starts[m].at;
      } else if m + 1 < k {
        assert starts[m].Body() <= starts[k - 1].at;
      }
    }
  }

  /**
   * A byte string splits into a list of units if and only if it is a framing of them:
   * bytes without a start code, and then each unit behind a short or a long code.
   */
  lemma SplitExactly(s: seq<Byte>, nals: seq<Nal>)
    ensures Split(s) == Ok(nals) <==> exists before, longs :: IsFraming(s, before, longs, nals)
  {
    hide IsFraming, Split, Starts;
    if Split(s) == Ok(nals) {
      SplitIsFraming(s);
    }
    if before, longs :| IsFraming(s, before, longs, nals) {
      FramingSplits(s, before, longs, nals);
    }
  }
}
