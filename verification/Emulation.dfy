/**
 * Emulation prevention of `crates/metadata-codec/src/lib.rs`, after section
 * 7.4.1 of ITU-T H.264: a byte 3 goes in front of any byte of at most 3 that
 * follows two zeros, so that no start code can appear inside a NAL unit.
 */
module Emulation {
  import opened Common

  /** The source's `zero_count` after one more byte: a saturating `u8`. */
  function Bump(zeros: nat, b: Byte): nat {
    if b != 0 then 0 else if zeros < 255 then zeros + 1 else 255
  }

  /** The escaped form of `s` when `zeros` zero bytes were just written. */
  function Escape(zeros: nat, s: seq<Byte>): seq<Byte>
    decreases |s|
  {
    if s == [] then []
    else if zeros >= 2 && s[0] <= 3 then [3, s[0]] + Escape(Bump(0, s[0]), s[1..])
    else [s[0]] + Escape(Bump(zeros, s[0]), s[1..])
  }

  /** The bytes that `s` escapes, or `None` when an escape is cut short or not needed. */
  function Unescape(zeros: nat, s: seq<Byte>): Option<seq<Byte>>
    decreases |s|
  {
    if s == [] then Some([])
    else if zeros >= 2 && s[0] == 3 then
      if |s| < 2 || s[1] > 3 then None else Unescape(0, s[1..])
    else
      match Unescape(Bump(zeros, s[0]), s[1..])
      case None => None
      case Some(rest) => Some([s[0]] + rest)
  }

  /** One of 00 00 00, 00 00 01 and 00 00 02 at position `i`. */
  predicate EmulatesAt(s: seq<Byte>, i: nat) {
    i + 2 < |s| && s[i] == 0 && s[i + 1] == 0 && s[i + 2] <= 2
  }

  ghost predicate NoStartCodeEmulation(s: seq<Byte>) {
    forall i: nat {:trigger EmulatesAt(s, i)} :: !EmulatesAt(s, i)
  }

  lemma UnescapePlain(zeros: nat, b: Byte, rest: seq<Byte>)
    requires !(zeros >= 2 && b == 3)
    ensures Unescape(zeros, [b] + rest) == Prepend([b], Unescape(Bump(zeros, b), rest))
  {
    assert ([b] + rest)[1..] == rest;
  }

  lemma UnescapeGuard(zeros: nat, rest: seq<Byte>)
    requires zeros >= 2 && rest != [] && rest[0] <= 3
    ensures Unescape(zeros, [3] + rest) == Unescape(0, rest)
  {
    assert ([3] + rest)[1..] == rest;
  }

  lemma {:induction false} UnescapeEscape(zeros: nat, s: seq<Byte>)
    ensures Unescape(zeros, Escape(zeros, s)) == Some(s)
    decreases |s|
  {
    if s != [] {
      var b := s[0];
      assert s == [b] + s[1..];
      if zeros >= 2 && b <= 3 {
        var rest := Escape(Bump(0, b), s[1..]);
        assert Escape(zeros, s) == [3] + ([b] + rest);
        UnescapeGuard(zeros, [b] + rest);
        UnescapePlain(0, b, rest);
        UnescapeEscape(Bump(0, b), s[1..]);
      } else {
        UnescapePlain(zeros, b, Escape(Bump(zeros, b), s[1..]));
        UnescapeEscape(Bump(zeros, b), s[1..]);
      }
    }
  }

  // ---- What unescaping does, by position ----

  /** A byte 3 right behind two zero bytes. */
  predicate GuardAt(s: seq<Byte>, i: nat) {
    2 <= i < |s| && s[i - 2] == 0 && s[i - 1] == 0 && s[i] == 3
  }

  /** Every such byte guards one of 0, 1, 2 and 3. */
  ghost predicate GuardsGuard(s: seq<Byte>, from: nat) {
    forall i: nat :: from <= i && GuardAt(s, i) ==> i + 1 < |s| && s[i + 1] <= 3
  }

  /** The bytes from `i` on, without the guards. */
  function Unguarded(s: seq<Byte>, i: nat): seq<Byte>
    decreases |s| - i
  {
    if i >= |s| then [] else (if GuardAt(s, i) then [] else [s[i]]) + Unguarded(s, i + 1)
  }

  /** `zeros` says of the bytes before `i` whether the last one, or two, are zero. */
  ghost predicate Behind(s: seq<Byte>, i: nat, zeros: nat) {
    && i <= |s|
    && (zeros >= 1 <==> i >= 1 && s[i - 1] == 0)
    && (zeros >= 2 <==> i >= 2 && s[i - 1] == 0 && s[i - 2] == 0)
  }

  lemma GuardsStep(s: seq<Byte>, i: nat)
    ensures i >= |s| ==> GuardsGuard(s, i)
    ensures GuardsGuard(s, i) <==> GuardsGuard(s, i + 1) && (GuardAt(s, i) ==> i + 1 < |s| && s[i + 1] <= 3)
  {
  }

  lemma {:induction false} UnescapeFrom(s: seq<Byte>, i: nat, zeros: nat)
    requires Behind(s, i, zeros)
    ensures Unescape(zeros, s[i..]) == if GuardsGuard(s, i) then Some(Unguarded(s, i)) else None
    decreases |s| - i
  {
    hide GuardsGuard;
    GuardsStep(s, i);
    if i < |s| {
      assert s[i..][1..] == s[i + 1..] && s[i..][0] == s[i];
      if GuardAt(s, i) {
        UnescapeFrom(s, i + 1, 0);
        assert [] + Unguarded(s, i + 1) == Unguarded(s, i + 1);
      } else {
        UnescapeFrom(s, i + 1, Bump(zeros, s[i]));
      }
    }
  }

  /** Unescaping drops exactly the guards, and fails exactly when one of them guards nothing it should. */
  lemma UnescapeExactly(s: seq<Byte>)
    ensures Unescape(0, s) == if GuardsGuard(s, 0) then Some(Unguarded(s, 0)) else None
  {
    assert s[0..] == s;
    UnescapeFrom(s, 0, 0);
  }

  lemma CleanTail(zeros: nat, b: Byte, rest: seq<Byte>)
    requires zeros <= 2 && NoStartCodeEmulation(Zeros(zeros) + ([b] + rest))
    ensures zeros == 2 ==> b >= 3
    ensures Bump(zeros, b) <= 2 && NoStartCodeEmulation(Zeros(Bump(zeros, b)) + rest)
    ensures NoStartCodeEmulation(Zeros(0) + ([b] + rest))
  {
    var whole, tail := Zeros(zeros) + ([b] + rest), [b] + rest;
    if zeros == 2 {
      assert !EmulatesAt(whole, 0);
    }
    hide NoStartCodeEmulation, EmulatesAt;
    assert Zeros(0) + tail == tail;
    CleanSuffix(Zeros(zeros), tail);
    if b == 0 {
      assert whole == Zeros(zeros + 1) + rest;
    } else {
      assert Zeros(0) + rest == rest;
      CleanSuffix([b], rest);
    }
  }

  lemma CleanSuffix(front: seq<Byte>, rest: seq<Byte>)
    requires NoStartCodeEmulation(front + rest)
    ensures NoStartCodeEmulation(rest)
  {
    var whole := front + rest;
    forall i: nat
      ensures !EmulatesAt(rest, i)
    {
      assert !EmulatesAt(whole, |front| + i);
      assert forall j :: 0 <= j < |rest| ==> whole[|front| + j] == rest[j];
    }
  }

  lemma EscapeNothing(zeros: nat)
    ensures Unescape(zeros, []) == Some([]) && Escape(zeros, []) == []
  {
  }

  lemma EscapeCons(zeros: nat, b: Byte, rest: seq<Byte>)
    ensures Escape(zeros, [b] + rest) ==
            if zeros >= 2 && b <= 3 then [3] + ([b] + Escape(Bump(0, b), rest)) else [b] + Escape(Bump(zeros, b), rest)
  {
    assert ([b] + rest)[1..] == rest;
  }

  /** A string without start codes that unescapes is the escaped form of what it unescapes to. */
  lemma {:induction false} EscapeUnescape(zeros: nat, s: seq<Byte>)
    requires zeros <= 2 && NoStartCodeEmulation(Zeros(zeros) + s) && Unescape(zeros, s).Some?
    ensures Escape(zeros, Unescape(zeros, s).value) == s
    decreases |s|
  {
    hide NoStartCodeEmulation, Escape;
    if s == [] {
      EscapeNothing(zeros);
    } else {
      var b, rest := s[0], s[1..];
      assert s == [b] + rest;
      CleanTail(zeros, b, rest);
      if zeros == 2 && b == 3 {
        assert Bump(zeros, b) == 0 && rest != [] && rest[0] <= 3;
        hide Unescape, Bump;
        var c, tail := rest[0], rest[1..];
        assert rest == [c] + tail;
        UnescapeGuard(zeros, rest);
        UnescapePlain(0, c, tail);
        CleanTail(0, c, tail);
        EscapeUnescape(Bump(0, c), tail);
        EscapeCons(zeros, c, Unescape(Bump(0, c), tail).value);
      } else {
        hide Unescape, Bump;
        UnescapePlain(zeros, b, rest);
        EscapeUnescape(Bump(zeros, b), rest);
        EscapeCons(zeros, b, Unescape(Bump(zeros, b), rest).value);
      }
    }
  }

  /** A run of `n` zero bytes. */
  function Zeros(n: nat): (r: seq<Byte>)
    ensures |r| == n && forall i :: 0 <= i < n ==> r[i] == 0
  {
    seq(n, _ => 0)
  }

  /** A clean tail stays clean behind a byte that does not complete a start code. */
  lemma CleanCons(zeros: nat, b: Byte, rest: seq<Byte>)
    requires zeros < 2 || (zeros == 2 && b >= 3)
    requires NoStartCodeEmulation(Zeros(Bump(zeros, b)) + rest)
    ensures NoStartCodeEmulation(Zeros(zeros) + ([b] + rest))
  {
    var whole := Zeros(zeros) + ([b] + rest);
    if b == 0 {
      assert whole == Zeros(zeros + 1) + rest;
    } else {
      assert Zeros(0) + rest == rest;
      forall i: nat
        ensures !EmulatesAt(whole, i)
      {
        if zeros < i {
          assert EmulatesAt(whole, i) ==> EmulatesAt(rest, i - zeros - 1);
        } else {
          assert whole[zeros] == b;
        }
      }
    }
  }

  lemma {:induction false} EscapeIsClean(zeros: nat, s: seq<Byte>)
    requires zeros <= 2
    ensures NoStartCodeEmulation(Zeros(zeros) + Escape(zeros, s))
    decreases |s|
  {
    if s != [] {
      var b := s[0];
      if zeros >= 2 && b <= 3 {
        var rest := Escape(Bump(0, b), s[1..]);
        EscapeIsClean(Bump(0, b), s[1..]);
        CleanCons(0, b, rest);
        CleanCons(zeros, 3, [b] + rest);
        assert [3, b] + rest == [3] + ([b] + rest);
      } else {
        EscapeIsClean(Bump(zeros, b), s[1..]);
        CleanCons(zeros, b, Escape(Bump(zeros, b), s[1..]));
      }
    }
  }

  lemma {:induction false} EscapeSnoc(zeros: nat, s: seq<Byte>, b: Byte)
    ensures Escape(zeros, s + [b]) == Escape(zeros, s) + Escape(ZerosAfter(zeros, s), [b])
    ensures ZerosAfter(zeros, s + [b]) ==
            Bump(if ZerosAfter(zeros, s) >= 2 && b <= 3 then 0 else ZerosAfter(zeros, s), b)
    decreases |s|
  {
    if s == [] {
      assert s + [b] == [b];
      assert [b][1..] == [];
    } else {
      hide Bump;
      var next := if zeros >= 2 && s[0] <= 3 then Bump(0, s[0]) else Bump(zeros, s[0]);
      var head: seq<Byte> := if zeros >= 2 && s[0] <= 3 then [3, s[0]] else [s[0]];
      assert (s + [b])[1..] == s[1..] + [b] && (s + [b])[0] == s[0];
      EscapeSnoc(next, s[1..], b);
      assert Escape(zeros, s + [b]) == head + Escape(next, s[1..] + [b]) && Escape(zeros, s) == head + Escape(next, s[1..]);
      assert head + (Escape(next, s[1..]) + Escape(ZerosAfter(next, s[1..]), [b]))
          == head + Escape(next, s[1..]) + Escape(ZerosAfter(next, s[1..]), [b]);
    }
  }

  /** The writer's `zero_count` after it has escaped all of `s`. */
  function ZerosAfter(zeros: nat, s: seq<Byte>): nat
    decreases |s|
  {
    if s == [] then zeros
    else ZerosAfter(Bump(if zeros >= 2 && s[0] <= 3 then 0 else zeros, s[0]), s[1..])
  }

  method AddEmulationPrevention(rbsp: seq<Byte>) returns (out: seq<Byte>)
    ensures out == Escape(0, rbsp)
    ensures NoStartCodeEmulation(out)
    ensures Unescape(0, out) == Some(rbsp)
  {
    out := [];
    var zeroCount: nat := 0;
    for i := 0 to |rbsp|
      invariant zeroCount == ZerosAfter(0, rbsp[..i])
      invariant out == Escape(0, rbsp[..i])
    {
      var byte := rbsp[i];
      EscapeSnoc(0, rbsp[..i], byte);
      assert rbsp[..i + 1] == rbsp[..i] + [byte];
      if zeroCount >= 2 && byte <= 3 {
        out := out + [3];
        zeroCount := 0;
      }
      out := out + [byte];
      zeroCount := Bump(zeroCount, byte);
    }
    assert rbsp[..|rbsp|] == rbsp;
    UnescapeEscape(0, rbsp);
    EscapeIsClean(0, rbsp);
    assert Zeros(0) + out == out;
  }

  method RemoveEmulationPrevention(data: seq<Byte>) returns (result: Option<seq<Byte>>)
    ensures result == Unescape(0, data)
  {
    var out: seq<Byte> := [];
    var index := 0;
    var zeroCount: nat := 0;
    assert data[0..] == data;
    assert forall bytes: seq<Byte> :: [] + bytes == bytes;
    while index < |data|
      invariant 0 <= index <= |data|
      invariant Unescape(0, data) == Prepend(out, Unescape(zeroCount, data[index..]))
    {
      var byte := data[index];
      assert data[index..][1..] == data[index + 1..];
      if zeroCount >= 2 && byte == 3 {
        if index + 1 >= |data| || data[index + 1] > 3 {
          return None;
        }
        zeroCount := 0;
        index := index + 1;
        continue;
      }
      ghost var rest := Unescape(Bump(zeroCount, byte), data[index + 1..]);
      if rest.Some? {
        assert out + ([byte] + rest.value) == out + [byte] + rest.value;
      }
      out := out + [byte];
      zeroCount := Bump(zeroCount, byte);
      index := index + 1;
    }
    assert data[index..] == [] && out + [] == out;
    return Some(out);
  }

  function Prepend(head: seq<Byte>, tail: Option<seq<Byte>>): Option<seq<Byte>> {
    match tail
    case None => None
    case Some(bytes) => Some(head + bytes)
  }
}
