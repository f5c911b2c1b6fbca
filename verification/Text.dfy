/** Octet strings: decimal numbers, hexadecimal, splitting and joining. */
module Text {
  import opened Common

  /** One byte of a Rust string. */
  type Octet = c: char | c < 256 as char witness 'a'
  type Text = seq<Octet>

  // ---- Decimal numbers, as `to_string` prints and `parse` reads them ----

  predicate IsDigit(c: char) { '0' <= c <= '9' }

  predicate AllDigits(s: Text) { forall i :: 0 <= i < |s| ==> IsDigit(s[i]) }

  function Digit(n: nat): (c: Octet)
    requires n < 10
    ensures IsDigit(c) && c as int - '0' as int == n
  {
    ('0' as int + n) as char
  }

  function Decimal(n: nat): Text {
    if n < 10 then [Digit(n)] else Decimal(n / 10) + [Digit(n % 10)]
  }

  function DigitsValue(s: Text): nat
    requires AllDigits(s)
  {
    if s == [] then 0 else 10 * DigitsValue(s[..|s| - 1]) + (s[|s| - 1] as int - '0' as int)
  }

  lemma {:induction false} DecimalDigits(n: nat)
    ensures Decimal(n) != [] && AllDigits(Decimal(n)) && DigitsValue(Decimal(n)) == n
  {
    if n >= 10 {
      DecimalDigits(n / 10);
      var s := Decimal(n);
      assert s[..|s| - 1] == Decimal(n / 10);
    } else {
      assert Decimal(n)[..0] == [];
    }
  }

  /** Only zero begins with a zero, so with `DecimalDigits` there is one spelling per number. */
  lemma {:induction false} NoLeadingZero(n: nat)
    ensures Decimal(n) != [] && (Decimal(n)[0] == '0' ==> n == 0)
  {
    if n >= 10 {
      NoLeadingZero(n / 10);
    }
  }

  lemma DecimalInjective(a: nat, b: nat)
    requires Decimal(a) == Decimal(b)
    ensures a == b
  {
    DecimalDigits(a);
    DecimalDigits(b);
  }

  function Pow10(k: nat): nat { if k == 0 then 1 else 10 * Pow10(k - 1) }

  lemma {:induction false} DecimalLength(n: nat, k: nat)
    requires k > 0 && n < Pow10(k)
    ensures |Decimal(n)| <= k
  {
    if n >= 10 {
      DecimalLength(n / 10, k - 1);
    }
  }

  /** `str::parse` for an unsigned type: an optional plus sign, digits, in range. */
  function ParseNumber(s: Text, max: nat): Option<nat> {
    var digits := if s != [] && s[0] == '+' then s[1..] else s;
    if digits == [] || !AllDigits(digits) || DigitsValue(digits) > max then None else Some(DigitsValue(digits))
  }

  // ---- Hexadecimal ----

  function HexDigit(n: nat, upper: bool): (c: Octet)
    requires n < 16
  {
    if n < 10 then ('0' as int + n) as char
    else if upper then ('A' as int + n - 10) as char
    else ('a' as int + n - 10) as char
  }

  function HexValue(c: char): (n: Option<nat>)
    ensures n.Some? ==> n.value < 16
  {
    if '0' <= c <= '9' then Some(c as int - '0' as int)
    else if 'a' <= c <= 'f' then Some(c as int - 'a' as int + 10)
    else if 'A' <= c <= 'F' then Some(c as int - 'A' as int + 10)
    else None
  }

  lemma HexRoundTrip(n: nat, upper: bool)
    requires n < 16
    ensures HexValue(HexDigit(n, upper)) == Some(n)
    ensures HexDigit(n, upper) != ';' && HexDigit(n, upper) != '-'
  {
  }

  const UPPER_HEX := "0123456789ABCDEF"
  const LOWER_HEX := "0123456789abcdef"

  lemma HexDigitIs(n: nat, upper: bool)
    requires n < 16
    ensures HexDigit(n, upper) == if upper then UPPER_HEX[n] else LOWER_HEX[n]
  {
  }

  // ---- Splitting and joining ----

  /** The first position of `c`, or the length when it does not occur. */
  function IndexOf(s: Text, c: char): (i: nat)
    ensures i <= |s| && c !in s[..i] && (i < |s| ==> s[i] == c)
  {
    if s == [] || s[0] == c then 0 else 1 + IndexOf(s[1..], c)
  }

  function SplitOn(s: Text, c: char): (parts: seq<Text>)
    ensures parts != []
    decreases |s|
  {
    var i := IndexOf(s, c);
    if i == |s| then [s] else [s[..i]] + SplitOn(s[i + 1..], c)
  }

  function JoinOn(parts: seq<Text>, c: Octet): Text
    requires parts != []
  {
    if |parts| == 1 then parts[0] else parts[0] + [c] + JoinOn(parts[1..], c)
  }

  lemma {:induction false} JoinSplit(s: Text, c: Octet)
    ensures JoinOn(SplitOn(s, c), c) == s
    ensures forall k :: 0 <= k < |SplitOn(s, c)| ==> c !in SplitOn(s, c)[k]
    decreases |s|
  {
    var i := IndexOf(s, c);
    if i < |s| {
      JoinSplit(s[i + 1..], c);
      assert s == s[..i] + [c] + s[i + 1..];
      assert SplitOn(s, c)[1..] == SplitOn(s[i + 1..], c);
    } else {
      assert s[..i] == s;
    }
  }

  lemma {:induction false} IndexOfSeam(head: Text, c: Octet, tail: Text)
    requires c !in head
    ensures IndexOf(head + [c] + tail, c) == |head|
  {
    if head != [] {
      assert (head + [c] + tail)[1..] == head[1..] + [c] + tail;
      assert head[0] in head;
      IndexOfSeam(head[1..], c, tail);
    }
  }

  lemma {:induction false} SplitJoin(parts: seq<Text>, c: Octet)
    requires parts != [] && forall k :: 0 <= k < |parts| ==> c !in parts[k]
    ensures SplitOn(JoinOn(parts, c), c) == parts
    decreases |parts|
  {
    hide SplitOn;
    assert c !in parts[0];
    if |parts| == 1 {
      SplitOnNone(parts[0], c);
      assert parts == [parts[0]];
    } else {
      SplitOnSeam(parts[0], c, JoinOn(parts[1..], c));
      SplitJoin(parts[1..], c);
      assert parts == [parts[0]] + parts[1..];
    }
  }

  lemma SplitOnNone(s: Text, c: Octet)
    requires c !in s
    ensures SplitOn(s, c) == [s]
  {
    assert IndexOf(s, c) == |s|;
  }

  lemma SplitOnSeam(head: Text, c: Octet, tail: Text)
    requires c !in head
    ensures SplitOn(head + [c] + tail, c) == [head] + SplitOn(tail, c)
  {
    var s := head + [c] + tail;
    IndexOfSeam(head, c, tail);
    assert s[..|head|] == head && s[|head| + 1..] == tail;
  }

  lemma {:induction false} JoinSnoc(parts: seq<Text>, last: Text, c: Octet)
    requires parts != []
    ensures JoinOn(parts + [last], c) == JoinOn(parts, c) + [c] + last
    decreases |parts|
  {
    if |parts| == 1 {
      assert (parts + [last])[1..] == [last];
    } else {
      assert (parts + [last])[1..] == parts[1..] + [last];
      JoinSnoc(parts[1..], last, c);
    }
  }

  function SplitOnce(s: Text, c: char): Option<(Text, Text)> {
    var i := IndexOf(s, c);
    if i == |s| then None else Some((s[..i], s[i + 1..]))
  }

  lemma SplitOnceJoins(s: Text, c: Octet)
    requires SplitOnce(s, c).Some?
    ensures s == SplitOnce(s, c).value.0 + [c] + SplitOnce(s, c).value.1
  {
  }

  predicate OccursAt(s: Text, pattern: Text, k: int) {
    0 <= k && k + |pattern| <= |s| && s[k..k + |pattern|] == pattern
  }

  /** The last position at which `pattern` occurs at or before `from`. */
  function RFindFrom(s: Text, pattern: Text, from: int): (r: Option<nat>)
    ensures r.Some? ==> OccursAt(s, pattern, r.value)
    decreases from + 1
  {
    if from < 0 then None
    else if OccursAt(s, pattern, from) then Some(from)
    else RFindFrom(s, pattern, from - 1)
  }

  /** `str::rfind`. */
  function RFind(s: Text, pattern: Text): Option<nat> {
    RFindFrom(s, pattern, |s| - |pattern|)
  }

  lemma {:induction false} RFindLast(s: Text, pattern: Text, at: nat, from: int)
    requires at <= from && OccursAt(s, pattern, at)
    requires forall k :: at < k <= from ==> !OccursAt(s, pattern, k)
    ensures RFindFrom(s, pattern, from) == Some(at)
    decreases from
  {
    if from > at {
      RFindLast(s, pattern, at, from - 1);
    }
  }
}
