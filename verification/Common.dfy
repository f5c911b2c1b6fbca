/** Failure-compatible results and the byte type shared by every component. */
module Common {

  datatype Option<+T> = None | Some(value: T)

  /** The source's `Result`: usable with `:-`. */
  datatype Result<+T, +E> = Ok(value: T) | Err(error: E) {
    predicate IsFailure() { Err? }

    function PropagateFailure<U>(): Result<U, E>
      requires Err?
    {
      Err(error)
    }

    function Extract(): T
      requires Ok?
    {
      value
    }
  }

  type Byte = b: int | 0 <= b < 256

  const U16_MAX := 0xFFFF
  const U32_MAX := 0xFFFF_FFFF
  const U64_MAX := 0xFFFF_FFFF_FFFF_FFFF
  /** `usize` on the 64-bit targets the programs are built for. */
  const USIZE_MAX := U64_MAX

  function Min(a: int, b: int): int { if a < b then a else b }

  function Max(a: int, b: int): int { if a < b then b else a }

  /** `u64::saturating_add(value, 1)`. */
  function SaturatingInc(n: nat): nat {
    if n < U64_MAX then n + 1 else U64_MAX
  }

  /** `saturating_sub` on an unsigned type. */
  function SaturatingSub(a: nat, b: nat): nat {
    if a < b then 0 else a - b
  }

  /** A UUID as its 16 octets in network order. */
  type Uuid = u: seq<Byte> | |u| == 16 witness seq(16, _ => 0)

  /** `abs_diff` on an unsigned type. */
  function AbsDiff(a: int, b: int): nat {
    if a < b then b - a else a - b
  }

  lemma ConcatAssociates<T>(a: seq<T>, b: seq<T>, c: seq<T>)
    ensures a + b + c == a + (b + c)
  {
  }

  lemma SubsetSize<T>(a: set<T>, b: set<T>)
    requires a <= b
    ensures |a| <= |b| && (|a| == |b| ==> a == b)
  {
    assert b == a + (b - a);
    if |b - a| == 0 {
      assert b - a == {};
    }
  }
}
