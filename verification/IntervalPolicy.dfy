/** Time buckets aligned at zero: the interval policy of a moving window.
    Timestamps are 64-bit unsigned microseconds and `count_windows` returns a
    32-bit int, so both widths are written out. */
module IntervalPolicy {
  import opened Arithmetic

  const U64: int := 0x1_0000_0000_0000_0000
  const TWO_32: int := 0x1_0000_0000
  const TWO_31: int := 0x8000_0000

  type Micros = t: int | 0 <= t < U64

  /** The value of `n` after conversion to a 32-bit signed int. */
  function ToInt32(n: int): (r: int)
    ensures -TWO_31 <= r < TWO_31
    ensures 0 <= n < TWO_31 ==> r == n
    ensures n >= TWO_31 ==> r < n
  {
    var m := n % TWO_32;
    if m < TWO_31 then m else m - TWO_32
  }

  /** The number of the bucket that holds `ts`. */
  function Bucket(ts: Micros, width: int): (b: int)
    requires width > 0
    ensures 0 <= b
  {
    ts / width
  }

  lemma BucketBounds(ts: Micros, width: int)
    requires width > 0
    ensures Bucket(ts, width) * width == ts - ts % width <= ts < (Bucket(ts, width) + 1) * width
  {
  }

  /** `align_at_zero::get_time`, in 64-bit unsigned arithmetic. */
  function GetTime(ts: Micros, offset: nat, width: int): Micros
    requires width > 0
  {
    (ts - ts % width - offset * width) % U64
  }

  /** `align_at_zero::count_windows`, with its conversion to int. */
  function CountWindows(lastTs: Micros, ts: Micros, width: int): int
    requires width > 0
  {
    if ts < lastTs then 0
    else ToInt32(((ts - ts % width) - (lastTs - lastTs % width)) / width)
  }

  lemma BucketMonotone(t1: Micros, t2: Micros, width: int)
    requires width > 0 && t1 <= t2
    ensures Bucket(t1, width) <= Bucket(t2, width)
  {
    var b1, b2 := Bucket(t1, width), Bucket(t2, width);
    BucketBounds(t1, width);
    BucketBounds(t2, width);
    if b2 + 1 <= b1 {
      MulMonotone(b2 + 1, b1, width);
    }
  }

  /** The count is the distance between the buckets exactly when that distance fits an int. */
  lemma CountIsBucketDistance(lastTs: Micros, ts: Micros, width: int)
    requires width > 0 && lastTs <= ts
    ensures Bucket(lastTs, width) <= Bucket(ts, width)
    ensures CountWindows(lastTs, ts, width) == ToInt32(Bucket(ts, width) - Bucket(lastTs, width))
    ensures CountWindows(lastTs, ts, width) == Bucket(ts, width) - Bucket(lastTs, width)
       <==> Bucket(ts, width) - Bucket(lastTs, width) < TWO_31
  {
    BucketMonotone(lastTs, ts, width);
    var b1, b2 := Bucket(lastTs, width), Bucket(ts, width);
    BucketBounds(ts, width);
    BucketBounds(lastTs, width);
    assert b2 * width - b1 * width == (b2 - b1) * width;
    assert (b2 - b1 + 1) * width == (b2 - b1) * width + width;
    QuotientIsUnique((b2 - b1) * width, b2 - b1, width);
  }

  /** The time at an offset is the start of the bucket that many buckets back,
      exactly when there are that many buckets since zero. */
  lemma GetTimeIsBucketStart(ts: Micros, offset: nat, width: int)
    requires width > 0
    ensures GetTime(ts, offset, width) == (Bucket(ts, width) - offset) * width % U64
    ensures GetTime(ts, offset, width) == (Bucket(ts, width) - offset) * width
       <==> offset <= Bucket(ts, width)
  {
    var b := Bucket(ts, width);
    BucketBounds(ts, width);
    assert b * width - offset * width == (b - offset) * width;
    var start := (b - offset) * width;
    MulMonotone(b - offset, b, width);
    if offset <= b {
      MulMonotone(0, b - offset, width);
      assert 0 <= start < U64;
    } else {
      MulMonotone(b - offset, -1, width);
      assert start < 0;
    }
  }
}
