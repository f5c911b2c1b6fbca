/**
 * The octet tests behind the text fields of `crates/stream-identity/src/lib.rs`, against the
 * characters they stand for: well-formed UTF-8 and control characters.
 */
module Utf8 {
  import opened Common
  import opened StreamIdentity
  import opened Text

  /** A Unicode scalar value: any code point that is no surrogate. */
  predicate Scalar(c: nat) { c <= 0x10FFFF && !(0xD800 <= c <= 0xDFFF) }

  function Octet8(n: nat): Octet
    requires n < 256
  {
    n as char
  }

  /** The octets of a character, section 3 of RFC 3629. */
  function Octets(c: nat): (o: Text)
    requires Scalar(c)
    ensures 1 <= |o| <= 4
  {
    if c < 0x80 then [Octet8(c)]
    else if c < 0x800 then [Octet8(0xC0 + c / 64), Octet8(0x80 + c % 64)]
    else if c < 0x10000 then [Octet8(0xE0 + c / 4096), Octet8(0x80 + c / 64 % 64), Octet8(0x80 + c % 64)]
    else [Octet8(0xF0 + c / 262144), Octet8(0x80 + c / 4096 % 64), Octet8(0x80 + c / 64 % 64), Octet8(0x80 + c % 64)]
  }

  predicate AllScalar(characters: seq<nat>) { forall i :: 0 <= i < |characters| ==> Scalar(characters[i]) }

  function Encoded(characters: seq<nat>): Text
    requires AllScalar(characters)
  {
    if characters == [] then [] else Octets(characters[0]) + Encoded(characters[1..])
  }

  lemma OneMore(c: nat, rest: Text)
    requires Scalar(c) && IsUtf8(rest)
    ensures IsUtf8(Octets(c) + rest)
  {
    var o := Octets(c);
    var s := o + rest;
    assert s[|o|..] == rest && forall i :: 0 <= i < |o| ==> s[i] == o[i];
    if 0x800 <= c < 0x10000 {
      InThree(c);
    } else if c >= 0x10000 {
      InFour(c);
    }
    hide Octets;
  }

  lemma InThree(c: nat)
    requires Scalar(c) && 0x800 <= c < 0x10000
    ensures c / 4096 < 16 && (c / 4096 == 0 ==> c / 64 % 64 >= 32) && (c / 4096 == 13 ==> c / 64 % 64 < 32)
  {
  }

  lemma InFour(c: nat)
    requires Scalar(c) && 0x10000 <= c
    ensures c / 262144 <= 4 && (c / 262144 == 0 ==> c / 4096 % 64 >= 16) && (c / 262144 == 4 ==> c / 4096 % 64 < 16)
  {
  }

  lemma Digits64(a: nat, x: nat, y: nat, z: nat)
    requires x < 64 && y < 64 && z < 64
    ensures var c := a * 262144 + x * 4096 + y * 64 + z;
            c / 262144 == a && c / 4096 == a * 64 + x && c / 4096 % 64 == x && c / 64 % 64 == y && c % 64 == z
  {
    Digit64(a * 4096 + x * 64 + y, z);
    Digit64(a * 64 + x, y);
    Digit64(a, x);
    var c := a * 262144 + x * 4096 + y * 64 + z;
    assert c / 64 / 64 == c / 4096 && c / 64 / 64 / 64 == c / 262144;
  }

  lemma Digit64(front: nat, last: nat)
    requires last < 64
    ensures (front * 64 + last) / 64 == front && (front * 64 + last) % 64 == last
  {
  }

  lemma TwoOctets(s: Text) returns (c: nat)
    requires |s| >= 2 && 0xC2 <= s[0] as int <= 0xDF && Tail(s[1], 0x80, 0xBF)
    ensures Scalar(c) && Octets(c) == s[..2]
  {
    var a, x := s[0] as int - 0xC0, s[1] as int - 0x80;
    c := a * 64 + x;
    Digits64(0, 0, a, x);
    assert c / 64 == a;
  }

  lemma ThreeOctets(s: Text) returns (c: nat)
    requires |s| >= 3 && 0xE0 <= s[0] as int <= 0xEF && Tail(s[1], 0x80, 0xBF) && Tail(s[2], 0x80, 0xBF)
    requires s[0] as int == 0xE0 ==> s[1] as int >= 0xA0
    requires s[0] as int == 0xED ==> s[1] as int <= 0x9F
    ensures Scalar(c) && Octets(c) == s[..3]
  {
    var a, x, y := s[0] as int - 0xE0, s[1] as int - 0x80, s[2] as int - 0x80;
    c := a * 4096 + x * 64 + y;
    Digits64(0, a, x, y);
  }

  lemma FourOctets(s: Text) returns (c: nat)
    requires |s| >= 4 && 0xF0 <= s[0] as int <= 0xF4
    requires Tail(s[1], 0x80, 0xBF) && Tail(s[2], 0x80, 0xBF) && Tail(s[3], 0x80, 0xBF)
    requires s[0] as int == 0xF0 ==> s[1] as int >= 0x90
    requires s[0] as int == 0xF4 ==> s[1] as int <= 0x8F
    ensures Scalar(c) && Octets(c) == s[..4]
  {
    var a, x, y, z := s[0] as int - 0xF0, s[1] as int - 0x80, s[2] as int - 0x80, s[3] as int - 0x80;
    c := a * 262144 + x * 4096 + y * 64 + z;
    Digits64(a, x, y, z);
  }

  lemma FirstCharacter(s: Text) returns (c: nat)
    requires s != [] && IsUtf8(s)
    ensures Scalar(c) && |Octets(c)| <= |s| && s[..|Octets(c)|] == Octets(c) && IsUtf8(s[|Octets(c)|..])
  {
    var b := s[0] as int;
    if b < 0x80 {
      c := b;
    } else {
      hide Octets;
      if b <= 0xDF {
        c := TwoOctets(s);
      } else if b <= 0xEF {
        c := ThreeOctets(s);
      } else {
        c := FourOctets(s);
      }
    }
  }

  lemma {:induction false} Decodes(s: Text) returns (characters: seq<nat>)
    requires IsUtf8(s)
    ensures AllScalar(characters) && s == Encoded(characters)
    decreases |s|
  {
    hide IsUtf8, Octets;
    if s == [] {
      characters := [];
    } else {
      var c := FirstCharacter(s);
      var rest := Decodes(s[|Octets(c)|..]);
      characters := [c] + rest;
      assert characters[1..] == rest && s == s[..|Octets(c)|] + s[|Octets(c)|..];
    }
  }

  lemma {:induction false} Encodes(characters: seq<nat>)
    requires AllScalar(characters)
    ensures IsUtf8(Encoded(characters))
  {
    if characters != [] {
      Encodes(characters[1..]);
      OneMore(characters[0], Encoded(characters[1..]));
    }
  }

  /** A text is taken for UTF-8 exactly when it is the encoding of some characters. */
  lemma Utf8ExactlyWhen(s: Text)
    ensures IsUtf8(s) <==> exists characters :: AllScalar(characters) && s == Encoded(characters)
  {
    if IsUtf8(s) {
      var characters := Decodes(s);
    }
    if characters :| AllScalar(characters) && s == Encoded(characters) {
      Encodes(characters);
    }
  }

  // ---- Control characters ----

  /** Category Cc of the Unicode standard. */
  predicate Control(c: nat) { c < 0x20 || 0x7F <= c <= 0x9F }

  lemma ControlInFirst(c: nat, rest: Text, i: nat)
    requires Scalar(c) && i < |Octets(c)| && (rest != [] ==> IsUtf8(rest))
    ensures ControlAt(Octets(c) + rest, i) <==> i == 0 && Control(c)
  {
  }

  lemma ControlInRest(head: Text, rest: Text, i: nat)
    requires i < |rest|
    ensures ControlAt(head + rest, |head| + i) <==> ControlAt(rest, i)
  {
  }

  /** A text is refused for control characters exactly when it has one. */
  lemma {:induction false} ControlExactlyWhen(characters: seq<nat>)
    requires AllScalar(characters)
    ensures HasControl(Encoded(characters)) <==> exists k :: 0 <= k < |characters| && Control(characters[k])
  {
    if characters != [] {
      hide ControlAt, Octets, IsUtf8;
      var c, tail := characters[0], characters[1..];
      var head, rest := Octets(c), Encoded(tail);
      ControlExactlyWhen(tail);
      Encodes(tail);
      var s := head + rest;
      if HasControl(s) {
        var i :| 0 <= i < |s| && ControlAt(s, i);
        if i < |head| {
          ControlInFirst(c, rest, i);
        } else {
          ControlInRest(head, rest, i - |head|);
          assert HasControl(rest);
          var k :| 0 <= k < |tail| && Control(tail[k]);
          assert characters[k + 1] == tail[k];
        }
      }
      if k :| 0 <= k < |characters| && Control(characters[k]) {
        if k == 0 {
          ControlInFirst(c, rest, 0);
          assert ControlAt(s, 0);
        } else {
          assert tail[k - 1] == characters[k];
          var i :| 0 <= i < |rest| && ControlAt(rest, i);
          ControlInRest(head, rest, i);
          assert ControlAt(s, |head| + i);
        }
      }
    }
  }
}
