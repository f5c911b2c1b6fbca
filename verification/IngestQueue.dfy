/** The bounded pre-decode queue of `crates/receiver/src/lib.rs`. */
module IngestQueue {
  import opened Common
  import Sei
  import Text

  datatype StreamKey = StreamKey(sessionId: Uuid, cameraId: Text.Text, epoch: nat)

  datatype Frame = Frame(
    key: StreamKey, pts: nat, ordinal: nat, captureTime: nat, encoded: seq<Byte>, messages: seq<Sei.Message>)

  datatype Limits = Limits(maxFrames: nat, maxBytes: nat)

  datatype Queue = Queue(items: seq<Frame>, bytes: nat, dropped: nat)

  function TotalBytes(items: seq<Frame>): nat {
    if items == [] then 0 else |items[0].encoded| + TotalBytes(items[1..])
  }

  predicate Fits(items: seq<Frame>, limits: Limits) {
    |items| <= limits.maxFrames && TotalBytes(items) <= limits.maxBytes
  }

  /** The longest suffix within both limits; the declarative meaning of the queue. */
  function LongestFit(items: seq<Frame>, limits: Limits): seq<Frame> {
    if items == [] || Fits(items, limits) then items else LongestFit(items[1..], limits)
  }

  lemma LongestFitDrops(items: seq<Frame>, limits: Limits)
    requires !Fits(items, limits)
    ensures items != [] && LongestFit(items, limits) == LongestFit(items[1..], limits)
  {
  }

  lemma {:induction false} LongestFitIsSuffix(items: seq<Frame>, limits: Limits)
    ensures var r := LongestFit(items, limits);
            Fits(r, limits) && |r| <= |items| && r == items[|items| - |r|..]
  {
    if items != [] && !Fits(items, limits) {
      LongestFitIsSuffix(items[1..], limits);
    }
  }

  lemma {:induction false} TotalBytesAppend(left: seq<Frame>, right: seq<Frame>)
    ensures TotalBytes(left + right) == TotalBytes(left) + TotalBytes(right)
  {
    if left == [] {
      assert left + right == right;
    } else {
      assert (left + right)[1..] == left[1..] + right;
      TotalBytesAppend(left[1..], right);
    }
  }

  /** A fitting suffix is never longer than the one kept. */
  lemma {:induction false} LongestFitIsLongest(items: seq<Frame>, k: nat, limits: Limits)
    requires k <= |items| && Fits(items[k..], limits)
    ensures |items| - k <= |LongestFit(items, limits)|
  {
    if !Fits(items, limits) && items != [] {
      assert items[0..] == items && k > 0;
      assert items[1..][k - 1..] == items[k..];
      LongestFitIsLongest(items[1..], k - 1, limits);
    }
  }

  /** Forgetting early loses nothing: the next frame sees only the kept suffix. */
  lemma {:induction false} LongestFitSnoc(history: seq<Frame>, item: Frame, limits: Limits)
    ensures LongestFit(LongestFit(history, limits) + [item], limits) == LongestFit(history + [item], limits)
  {
    if !Fits(history, limits) {
      TotalBytesAppend(history, [item]);
      LongestFitDrops(history, limits);
      LongestFitDrops(history + [item], limits);
      assert (history + [item])[1..] == history[1..] + [item];
      LongestFitSnoc(history[1..], item, limits);
    }
  }

  // ---- Runs ----

  datatype IngestError = AccessUnitTooLarge

  /** One push: refused when too large, otherwise the queue is the longest fitting suffix. */
  function PushStep(q: Queue, item: Frame, limits: Limits): (Result<(), IngestError>, Queue) {
    if |item.encoded| > limits.maxBytes then (Err(AccessUnitTooLarge), q)
    else (Ok(()), AfterPush(q, item, limits))
  }

  function AfterPush(q: Queue, item: Frame, limits: Limits): Queue {
    var kept := Evict(q.items, |item.encoded|, limits);
    Queue(kept + [item], TotalBytes(kept) + |item.encoded|,
          Min(U64_MAX, q.dropped + |q.items| - |kept|))
  }

  /** What is left in front of a frame of `incoming` bytes; frames leave from the front. */
  function Evict(items: seq<Frame>, incoming: nat, limits: Limits): (r: seq<Frame>)
    ensures |r| <= |items|
  {
    if items == [] || (|items| < limits.maxFrames && TotalBytes(items) + incoming <= limits.maxBytes) then items
    else Evict(items[1..], incoming, limits)
  }

  /** Eviction before the push is the longest fit after it, when one frame is allowed at all. */
  lemma {:induction false} EvictIsLongestFit(items: seq<Frame>, item: Frame, limits: Limits)
    requires limits.maxFrames >= 1 && |item.encoded| <= limits.maxBytes
    ensures Evict(items, |item.encoded|, limits) + [item] == LongestFit(items + [item], limits)
  {
    TotalBytesAppend(items, [item]);
    assert TotalBytes([item]) == |item.encoded|;
    if items != [] && !Fits(items + [item], limits) {
      assert (items + [item])[1..] == items[1..] + [item];
      EvictIsLongestFit(items[1..], item, limits);
    }
  }

  function PushAll(q: Queue, pushes: seq<Frame>, limits: Limits): Queue {
    if pushes == [] then q
    else PushStep(PushAll(q, pushes[..|pushes| - 1], limits), pushes[|pushes| - 1], limits).1
  }

  /** The pushes that were not refused. */
  function Admitted(pushes: seq<Frame>, limits: Limits): seq<Frame> {
    if pushes == [] then []
    else
      Admitted(pushes[..|pushes| - 1], limits)
      + (if |pushes[|pushes| - 1].encoded| > limits.maxBytes then [] else [pushes[|pushes| - 1]])
  }

  function NewQueue(): Queue { Queue([], 0, 0) }

  /** The meaning of a queue after the frames `admitted`. */
  ghost predicate Means(q: Queue, admitted: seq<Frame>, limits: Limits) {
    && q.items == LongestFit(admitted, limits)
    && q.bytes == TotalBytes(q.items)
    && |q.items| <= |admitted|
    && q.dropped == Min(U64_MAX, |admitted| - |q.items|)
  }

  lemma PushKeepsMeaning(q: Queue, admitted: seq<Frame>, item: Frame, limits: Limits)
    requires limits.maxFrames >= 1 && |item.encoded| <= limits.maxBytes && Means(q, admitted, limits)
    ensures Means(AfterPush(q, item, limits), admitted + [item], limits)
  {
    EvictIsLongestFit(q.items, item, limits);
    LongestFitSnoc(admitted, item, limits);
    TotalBytesAppend(Evict(q.items, |item.encoded|, limits), [item]);
    assert TotalBytes([item]) == |item.encoded|;
  }

  /**
   * After any run of pushes the queue holds the longest suffix of the admitted
   * frames within both limits, with the exact byte total, and every admitted frame
   * is either held or counted as dropped.
   */
  lemma {:induction false} QueueIsLongestFit(pushes: seq<Frame>, limits: Limits)
    requires limits.maxFrames >= 1
    ensures var q := PushAll(NewQueue(), pushes, limits);
            Means(q, Admitted(pushes, limits), limits) && Fits(q.items, limits)
    decreases |pushes|
  {
    hide Means, Fits, LongestFit, AfterPush;
    if pushes == [] {
      NothingMeans(limits);
    } else {
      var earlier, item := pushes[..|pushes| - 1], pushes[|pushes| - 1];
      QueueIsLongestFit(earlier, limits);
      if |item.encoded| <= limits.maxBytes {
        PushKeepsMeaning(PushAll(NewQueue(), earlier, limits), Admitted(earlier, limits), item, limits);
      } else {
        assert Admitted(earlier, limits) + [] == Admitted(earlier, limits);
      }
    }
    MeansFits(PushAll(NewQueue(), pushes, limits), Admitted(pushes, limits), limits);
  }

  lemma NothingMeans(limits: Limits)
    ensures Means(NewQueue(), [], limits)
  {
  }

  lemma MeansFits(q: Queue, admitted: seq<Frame>, limits: Limits)
    requires Means(q, admitted, limits)
    ensures Fits(q.items, limits)
  {
    LongestFitIsSuffix(admitted, limits);
  }

  /** With no frame allowed the queue still keeps the newest one, so the limit is not met. */
  lemma ZeroFramesKeepsOne(q: Queue, item: Frame, limits: Limits)
    requires limits.maxFrames == 0 && |item.encoded| <= limits.maxBytes
    ensures PushStep(q, item, limits).1.items == [item]
  {
    EvictToNothing(q.items, |item.encoded|, limits);
  }

  lemma {:induction false} EvictToNothing(items: seq<Frame>, incoming: nat, limits: Limits)
    requires limits.maxFrames == 0
    ensures Evict(items, incoming, limits) == []
  {
    if items != [] {
      EvictToNothing(items[1..], incoming, limits);
    }
  }

  // ---- The source's loop ----

  class Buffer {
    const limits: Limits
    var items: seq<Frame>
    var bytes: nat
    var dropped: nat

    ghost function State(): Queue
      reads this
    {
      Queue(items, bytes, dropped)
    }

    ghost predicate Valid()
      reads this
    {
      bytes == TotalBytes(items) && dropped <= U64_MAX
    }

    constructor (limits: Limits)
      ensures Valid() && State() == NewQueue() && this.limits == limits
    {
      this.limits := limits;
      items, bytes, dropped := [], 0, 0;
    }

    method Push(item: Frame) returns (result: Result<(), IngestError>)
      requires Valid()
      modifies this
      ensures Valid()
      ensures (result, State()) == PushStep(old(State()), item, limits)
    {
      var itemBytes := |item.encoded|;
      if itemBytes > limits.maxBytes {
        return Err(AccessUnitTooLarge);
      }
      while |items| >= limits.maxFrames || bytes + itemBytes > limits.maxBytes
        invariant Valid()
        invariant |items| <= |old(items)| && dropped == Min(U64_MAX, old(dropped) + |old(items)| - |items|)
        invariant Evict(items, itemBytes, limits) == Evict(old(items), itemBytes, limits)
        decreases |items|
      {
        if items == [] {
          break;
        }
        assert TotalBytes(items) == |items[0].encoded| + TotalBytes(items[1..]);
        bytes := SaturatingSub(bytes, |items[0].encoded|);
        items := items[1..];
        dropped := SaturatingInc(dropped);
      }
      TotalBytesAppend(items, [item]);
      assert TotalBytes([item]) == itemBytes;
      bytes := bytes + itemBytes;
      items := items + [item];
      return Ok(());
    }
  }
}
