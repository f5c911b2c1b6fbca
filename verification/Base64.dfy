/** Base64url without padding (section 5 of RFC 4648), rejecting non-zero trailing bits. */
module Base64 {
  import opened Common
  import opened Text

  function SextetChar(n: nat): (c: Octet)
    requires n < 64
  {
    if n < 26 then ('A' as int + n) as char
    else if n < 52 then ('a' as int + n - 26) as char
    else if n < 62 then ('0' as int + n - 52) as char
    else if n == 62 then '-' else '_'
  }

  function CharSextet(c: char): (n: Option<nat>)
    ensures n.Some? ==> n.value < 64
  {
    if 'A' <= c <= 'Z' then Some(c as int - 'A' as int)
    else if 'a' <= c <= 'z' then Some(c as int - 'a' as int + 26)
    else if '0' <= c <= '9' then Some(c as int - '0' as int + 52)
    else if c == '-' then Some(62)
    else if c == '_' then Some(63) else None
  }

  lemma SextetRoundTrip(n: nat)
    requires n < 64
    ensures CharSextet(SextetChar(n)) == Some(n) && SextetChar(n) != ';'
  {
  }

  lemma CharRoundTrip(c: Octet)
    requires CharSextet(c).Some?
    ensures SextetChar(CharSextet(c).value) == c
  {
  }

  datatype Group = Group(s0: nat, s1: nat, s2: nat, s3: nat)
  datatype Triple = Triple(b0: Byte, b1: Byte, b2: Byte)

  predicate IsGroup(g: Group) { g.s0 < 64 && g.s1 < 64 && g.s2 < 64 && g.s3 < 64 }

  function Up(t: Triple): (g: Group)
    ensures IsGroup(g)
  {
    Group(t.b0 / 4, t.b0 % 4 * 16 + t.b1 / 16, t.b1 % 16 * 4 + t.b2 / 64, t.b2 % 64)
  }

  function Down(g: Group): Triple
    requires IsGroup(g)
  {
    Triple(g.s0 * 4 + g.s1 / 16, g.s1 % 16 * 16 + g.s2 / 4, g.s2 % 4 * 64 + g.s3)
  }

  lemma DownUp(t: Triple)
    ensures Down(Up(t)) == t
    ensures t.b1 == 0 ==> Up(t).s1 % 16 == 0
    ensures t.b2 == 0 ==> Up(t).s2 % 4 == 0 && Up(t).s3 == 0
    ensures t.b1 == t.b2 == 0 ==> Up(t).s2 == 0
  {
    By16(t.b0 % 4, t.b1 / 16);
    By4(t.b1 % 16, t.b2 / 64);
  }

  lemma UpDown(g: Group)
    requires IsGroup(g)
    ensures Up(Down(g)) == g
    ensures g.s1 % 16 == 0 && g.s2 == g.s3 == 0 ==> Down(g).b1 == Down(g).b2 == 0
    ensures g.s2 % 4 == 0 && g.s3 == 0 ==> Down(g).b2 == 0
  {
    By4(g.s0, g.s1 / 16);
    By16(g.s1 % 16, g.s2 / 4);
    By64(g.s2 % 4, g.s3);
  }

  lemma By4(a: nat, b: nat)
    requires b < 4
    ensures (a * 4 + b) / 4 == a && (a * 4 + b) % 4 == b
  {
  }

  lemma By16(a: nat, b: nat)
    requires b < 16
    ensures (a * 16 + b) / 16 == a && (a * 16 + b) % 16 == b
  {
  }

  lemma By64(a: nat, b: nat)
    requires b < 64
    ensures (a * 64 + b) / 64 == a && (a * 64 + b) % 64 == b
  {
  }

  /** Bytes as sextets: three bytes make four, a rest of one or two makes two or three. */
  function ToSextets(b: seq<Byte>): (s: seq<nat>)
    ensures forall i :: 0 <= i < |s| ==> s[i] < 64
  {
    if b == [] then []
    else if |b| == 1 then var g := Up(Triple(b[0], 0, 0)); [g.s0, g.s1]
    else if |b| == 2 then var g := Up(Triple(b[0], b[1], 0)); [g.s0, g.s1, g.s2]
    else var g := Up(Triple(b[0], b[1], b[2])); [g.s0, g.s1, g.s2, g.s3] + ToSextets(b[3..])
  }

  function FromSextets(s: seq<nat>): Option<seq<Byte>>
    requires forall i :: 0 <= i < |s| ==> s[i] < 64
  {
    if s == [] then Some([])
    else if |s| == 1 then None
    else if |s| == 2 then
      if s[1] % 16 == 0 then Some([Down(Group(s[0], s[1], 0, 0)).b0]) else None
    else if |s| == 3 then
      if s[2] % 4 == 0 then var t := Down(Group(s[0], s[1], s[2], 0)); Some([t.b0, t.b1]) else None
    else
      match FromSextets(s[4..])
      case None => None
      case Some(rest) => var t := Down(Group(s[0], s[1], s[2], s[3])); Some([t.b0, t.b1, t.b2] + rest)
  }

  lemma {:induction false} SextetsRoundTrip(b: seq<Byte>)
    ensures FromSextets(ToSextets(b)) == Some(b)
  {
    hide Up, Down;
    if |b| == 1 {
      DownUp(Triple(b[0], 0, 0));
      assert b == [b[0]];
    } else if |b| == 2 {
      DownUp(Triple(b[0], b[1], 0));
      assert b == [b[0], b[1]];
    } else if |b| >= 3 {
      DownUp(Triple(b[0], b[1], b[2]));
      SextetsRoundTrip(b[3..]);
      assert ToSextets(b)[4..] == ToSextets(b[3..]);
      assert b == [b[0], b[1], b[2]] + b[3..];
    }
  }

  /** Only the encoder's own output decodes. */
  lemma {:induction false} SextetsCanonical(s: seq<nat>)
    requires forall i :: 0 <= i < |s| ==> s[i] < 64
    requires FromSextets(s).Some?
    ensures ToSextets(FromSextets(s).value) == s
  {
    hide Up, Down;
    if |s| == 2 {
      UpDown(Group(s[0], s[1], 0, 0));
    } else if |s| == 3 {
      UpDown(Group(s[0], s[1], s[2], 0));
    } else if |s| >= 4 {
      UpDown(Group(s[0], s[1], s[2], s[3]));
      SextetsCanonical(s[4..]);
      assert FromSextets(s).value[3..] == FromSextets(s[4..]).value;
      assert s == [s[0], s[1], s[2], s[3]] + s[4..];
    }
  }

  function Encode(b: seq<Byte>): (t: Text)
    ensures |t| == |ToSextets(b)|
  {
    var s := ToSextets(b);
    seq(|s|, i requires 0 <= i < |s| => SextetChar(s[i]))
  }

  const UPPER := "ABCDEFGHIJKLMNOPQRSTUVWXYZ"
  const LOWER := "abcdefghijklmnopqrstuvwxyz"
  const DIGITS := "0123456789"

  /** The alphabet of Table 2 of RFC 4648. */
  function Alphabet(n: nat): char
    requires n < 64
  {
    if n < 26 then UPPER[n] else if n < 52 then LOWER[n - 26] else if n < 62 then DIGITS[n - 52] else "-_"[n - 62]
  }

  function At(b: seq<Byte>, k: nat): Byte { if k < |b| then b[k] else 0 }

  /** The six bits from bit `6 * i` on, the bytes read as one string of bits with zeros after it. */
  function Bits(b: seq<Byte>, i: nat): (n: nat)
    requires 6 * i < 8 * |b|
    ensures n < 64
  {
    var first, skip := 6 * i / 8, 6 * i % 8;
    var pair: nat := 256 * (b[first] as int) + At(b, first + 1);
    if skip == 0 then pair / 1024 % 64
    else if skip == 2 then pair / 256 % 64
    else if skip == 4 then pair / 64 % 64
    else pair / 16 % 64
  }

  lemma BitsOfRest(b: seq<Byte>, i: nat)
    requires 4 <= i && 6 * i < 8 * |b|
    ensures Bits(b, i) == Bits(b[3..], i - 4)
  {
  }

  lemma AlphabetIs(n: nat)
    requires n < 64
    ensures SextetChar(n) == Alphabet(n)
  {
  }

  lemma Heads(b: seq<Byte>)
    requires b != []
    ensures var g, s := Up(Triple(b[0], At(b, 1), At(b, 2))), ToSextets(b);
            && |s| >= 2 && s[0] == g.s0 && s[1] == g.s1
            && (|s| > 2 ==> |b| > 1 && s[2] == g.s2)
            && (|s| > 3 ==> |b| > 2 && s[3] == g.s3)
  {
    hide Up;
  }

  lemma FirstGroup(b: seq<Byte>, i: nat)
    requires b != [] && i < |ToSextets(b)| && i < 4
    ensures 6 * i < 8 * |b| && ToSextets(b)[i] == Bits(b, i)
  {
    hide Bits, ToSextets;
    Heads(b);
    if i == 0 {
      BitsFrom0(b);
    } else if i == 1 {
      BitsFrom6(b);
    } else if i == 2 {
      BitsFrom12(b);
    } else {
      BitsFrom18(b);
    }
  }

  lemma Over16(x: nat, y: nat)
    requires y < 256
    ensures (256 * x + y) / 16 % 64 == x % 4 * 16 + y / 16
  {
    assert (256 * x + y) / 16 == 16 * x + y / 16 == (x / 4) * 64 + (x % 4 * 16 + y / 16);
    By64(x / 4, x % 4 * 16 + y / 16);
  }

  lemma Over64(x: nat, y: nat)
    requires y < 256
    ensures (256 * x + y) / 64 % 64 == x % 16 * 4 + y / 64
  {
    assert (256 * x + y) / 64 == 4 * x + y / 64 == (x / 16) * 64 + (x % 16 * 4 + y / 64);
    By64(x / 16, x % 16 * 4 + y / 64);
  }

  lemma BitsFrom0(b: seq<Byte>)
    requires b != []
    ensures Bits(b, 0) == b[0] / 4
  {
  }

  lemma BitsFrom6(b: seq<Byte>)
    requires b != []
    ensures Bits(b, 1) == b[0] % 4 * 16 + At(b, 1) / 16
  {
    Over16(b[0], At(b, 1));
  }

  lemma BitsFrom12(b: seq<Byte>)
    requires |b| > 1
    ensures Bits(b, 2) == b[1] % 16 * 4 + At(b, 2) / 64
  {
    Over64(b[1], At(b, 2));
  }

  lemma BitsFrom18(b: seq<Byte>)
    requires |b| > 2
    ensures Bits(b, 3) == b[2] % 64
  {
  }

  lemma {:induction false} SextetAt(b: seq<Byte>, i: nat)
    requires i < |ToSextets(b)|
    ensures 6 * i < 8 * |b| && ToSextets(b)[i] == Bits(b, i)
    decreases |b|
  {
    hide Up, Bits;
    if i < 4 {
      FirstGroup(b, i);
    } else {
      SextetAt(b[3..], i - 4);
      BitsOfRest(b, i);
    }
  }

  /** Character `i` of the encoding stands for the six bits from bit `6 * i` on. */
  lemma EncodedAt(b: seq<Byte>, i: nat)
    requires i < |Encode(b)|
    ensures 6 * i < 8 * |b| && Encode(b)[i] == Alphabet(Bits(b, i))
  {
    SextetAt(b, i);
    AlphabetIs(ToSextets(b)[i]);
  }

  lemma {:induction false} EncodedLength(b: seq<Byte>)
    ensures |Encode(b)| == (4 * |b| + 2) / 3
  {
    if |b| >= 3 {
      EncodedLength(b[3..]);
    }
  }

  predicate InAlphabet(t: Text) {
    forall i :: 0 <= i < |t| ==> CharSextet(t[i]).Some?
  }

  function Sextets(t: Text): (s: seq<nat>)
    requires InAlphabet(t)
    ensures |s| == |t| && forall i :: 0 <= i < |s| ==> s[i] < 64 && s[i] == CharSextet(t[i]).value
  {
    seq(|t|, i requires 0 <= i < |t| => CharSextet(t[i]).value)
  }

  function Decode(t: Text): Option<seq<Byte>> {
    if InAlphabet(t) then FromSextets(Sextets(t)) else None
  }

  lemma DecodeEncode(b: seq<Byte>)
    ensures Decode(Encode(b)) == Some(b) && ';' !in Encode(b)
  {
    var t, s := Encode(b), ToSextets(b);
    forall i | 0 <= i < |t|
      ensures CharSextet(t[i]) == Some(s[i]) && t[i] != ';'
    {
      SextetRoundTrip(s[i]);
    }
    assert Sextets(t) == s;
    SextetsRoundTrip(b);
  }

  lemma EncodeDecode(t: Text)
    requires Decode(t).Some?
    ensures Encode(Decode(t).value) == t
  {
    SextetsCanonical(Sextets(t));
    forall i | 0 <= i < |t|
      ensures Encode(Decode(t).value)[i] == t[i]
    {
      CharRoundTrip(t[i]);
    }
  }
}
