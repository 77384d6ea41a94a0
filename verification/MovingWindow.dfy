/** The moving window itself: a ring buffer updated in place, proved against WindowSpec. */
module MovingWindow {
  import opened IntervalPolicy
  import opened WindowSpec

  /** From `slot` on, the first `n` elements are as wanted. */
  ghost predicate Filled<T>(a: array<T>, n: nat, slot: nat, want: seq<T>)
    requires n <= a.Length && |want| == n
    reads a
  {
    forall j :: slot <= j < n ==> a[j] == want[j]
  }

  /** Filling the slot before a filled tail. */
  method Fill<T>(a: array<T>, n: nat, slot: nat, x: T, ghost want: seq<T>)
    requires slot < n <= a.Length && |want| == n && x == want[slot] && Filled(a, n, slot + 1, want)
    modifies a
    ensures Filled(a, n, slot, want) && a[n..] == old(a[n..])
  {
    a[slot] := x;
  }

  lemma FilledIsAll<T>(a: array<T>, n: nat, want: seq<T>)
    requires n <= a.Length && |want| == n && Filled(a, n, 0, want)
    ensures a[..n] == want
  {
  }

  /** A block copy that fills `n` slots before a filled tail of the first `len`. */
  method MemCopy<T>(target: array<T>, to: nat, source: array<T>, from: nat, n: nat, len: nat, ghost want: seq<T>)
    requires source != target && from + n <= source.Length && to + n <= len <= target.Length && |want| == len
    requires Filled(target, len, to + n, want)
    requires forall j :: to <= j < to + n ==> source[from + (j - to)] == want[j]
    modifies target
    ensures Filled(target, len, to, want)
    ensures target[len..] == old(target[len..])
  {
    for i := 0 to n
      invariant Filled(target, len, to + n, want)
      invariant forall j :: to <= j < to + i ==> target[j] == want[j]
      invariant target[len..] == old(target[len..])
    {
      assert source[from + (to + i - to)] == want[to + i];
      target[to + i] := source[from + i];
    }
  }

  /** The history ring is full from construction on, so it is its storage and the
      position of the oldest element; `array_one` is `data[first..]` and
      `array_two` is `data[..first]`. */
  class MovingWindow<S, E> {
    const config: Config<S, E>
    const history: nat
    const data: array<E>
    var first: nat
    var currentValue: E
    var currentTs: Micros
    var collected: nat
    var samplerState: S

    ghost predicate Valid()
      reads this
    {
      && config.width > 0
      && data.Length == config.capacity
      && (if data.Length == 0 then first == 0 else first < data.Length)
    }

    /** The ring holds one bucket for each interval of the history kept. */
    ghost predicate HoldsHistory() {
      config.width > 0 && history / config.width == config.capacity
    }

    ghost function History(): seq<E>
      requires Valid()
      reads this, data
    {
      data[first..] + data[..first]
    }

    /** The abstract state. */
    ghost function State(): Window<S, E>
      requires Valid()
      reads this, data
    {
      Window(History(), currentValue, currentTs, collected, samplerState)
    }

    constructor (history: nat, interval: nat, init: E, samplerInit: S, sample: Sampler<S, E>)
      requires interval > 0
      ensures Valid() && fresh(data)
      ensures config == Config(interval, history / interval, init, samplerInit, sample) && this.history == history && HoldsHistory()
      ensures State() == Initial(config)
    {
      this.history := history;
      config := Config(interval, history / interval, init, samplerInit, sample);
      data := new E[history / interval](_ => init);
      first, currentValue, currentTs, collected, samplerState := 0, init, 0, 0, samplerInit;
    }

    method PushBack(v: E)
      requires Valid()
      modifies this`first, data
      ensures Valid()
      ensures History() == Push(old(History()), v)
    {
      if data.Length > 0 {
        ghost var was := History();
        data[first] := v;
        first := if first + 1 == data.Length then 0 else first + 1;
        assert History() == was[1..] + [v];
      }
    }

    /** Carry the current value into the buckets that have passed. */
    method FillForward(windows: int)
      requires Valid()
      modifies this`first, this`collected, data
      ensures Valid()
      ensures History() == PushMany(old(History()), currentValue, if windows > 0 then windows else 0)
      ensures collected == old(collected) + if windows > 0 then windows else 0
    {
      var i := 0;
      while i < windows
        invariant 0 <= i && (windows <= 0 ==> i == 0) && (windows > 0 ==> i <= windows)
        invariant Valid() && History() == PushMany(old(History()), currentValue, i)
        invariant collected == old(collected) + i
      {
        PushBack(currentValue);
        collected := collected + 1;
        i := i + 1;
      }
    }

    /** One event: fill the buckets that have passed, sample, advance the clock. */
    method On(ts: Micros, value: E) returns (pushed: nat)
      requires Valid()
      modifies this, data
      ensures Valid()
      ensures State() == Step(config, old(State()), Event(ts, value))
      ensures pushed == Returned(old(currentTs), ts, config.width)
    {
      var windows := CountWindows(currentTs, ts, config.width);
      if currentTs > 0 {
        FillForward(windows);
      } else {
        windows := 0;
      }
      var (s, v) := config.sample(samplerState, currentValue, value, windows > 0 || currentTs == 0);
      samplerState, currentValue := s, v;
      currentTs := ts;
      pushed := windows % U64;
    }

    /** The k-th newest element of the ring. */
    function Back(k: nat): E
      requires Valid() && 1 <= k <= data.Length
      reads this, data
    {
      if k <= first then data[first - k] else data[first + data.Length - k]
    }

    lemma BackIsHistory(k: nat)
      requires Valid() && 1 <= k <= data.Length
      ensures Back(k) == History()[data.Length - k]
    {
    }

    /** The samples are the current value and, before it, the newest of the ring. */
    ghost predicate AreNewest(values: seq<E>)
      requires Valid()
      reads this, data
    {
      && 1 <= |values| <= data.Length + 1 && values[|values| - 1] == currentValue
      && forall k :: 1 <= k < |values| ==> Back(k) == values[|values| - 1 - k]
    }

    lemma LastAreNewest(length: nat)
      requires Valid() && 1 <= length <= data.Length + 1
      ensures AreNewest(LastValues(State(), length))
    {
      forall k | 1 <= k < length ensures Back(k) == LastValues(State(), length)[length - 1 - k] {
        BackIsHistory(k);
      }
    }

    /** `operator[]`. */
    method Get(index: int) returns (v: E)
      requires Valid() && -data.Length <= index
      ensures v == At(config, State(), index)
      ensures v == if index == 0 then currentValue else if index < 0 then History()[data.Length + index] else config.init
    {
      if index == 0 {
        v := currentValue;
      } else if index < 0 {
        BackIsHistory(-index);
        v := Back(-index);
      } else {
        v := config.init;
      }
    }

    /** The ends of the ring's two blocks, which the fast copy takes, are the newest samples. */
    lemma BlocksAreNewest(n1: nat, n2: nat, values: seq<E>)
      requires Valid() && n2 <= first && n1 <= data.Length - first && (n1 > 0 ==> n2 == first)
      requires |values| == n1 + n2 + 1 && AreNewest(values)
      ensures BlocksHold(n1, n2, values)
    {
      forall j | 0 <= j < n1 + n2
        ensures values[j] == if j < n1 then data[data.Length - n1 + j] else data[first - n2 + (j - n1)]
      {
        assert Back(n1 + n2 - j) == values[j];
      }
    }

    ghost predicate BlocksHold(n1: nat, n2: nat, values: seq<E>)
      reads this, data
    {
      && n2 <= first <= data.Length && n1 <= data.Length
      && |values| == n1 + n2 + 1 && values[n1 + n2] == currentValue
      && (forall j :: n1 <= j < n1 + n2 ==> data[first - n2 + (j - n1)] == values[j])
      && (forall j :: 0 <= j < n1 ==> data[data.Length - n1 + j] == values[j])
    }

    /** The current value, then at most two blocks of the ring. */
    method CopyBlocks(array_: array<E>, length: nat, toCopy1: nat, toCopy2: nat, ghost values: seq<E>)
      requires BlocksHold(toCopy1, toCopy2, values)
      requires length == toCopy1 + toCopy2 + 1 <= array_.Length && array_ != data
      modifies array_
      ensures array_[..length] == values && array_[length..] == old(array_[length..])
    {
      array_[length - 1] := currentValue;
      if toCopy2 > 0 {
        MemCopy(array_, toCopy1, data, first - toCopy2, toCopy2, length, values);
      }
      if toCopy1 > 0 {
        MemCopy(array_, 0, data, data.Length - toCopy1, toCopy1, length, values);
      }
    }

    /** The fast copy. Length 0 is outside the source's contract (it writes before the array). */
    method CopyLastData(array_: array<E>, length: nat) returns (copied: nat)
      requires Valid() && 1 <= length <= array_.Length && array_ != data
      modifies array_
      ensures length > config.capacity + 1 ==> copied == 0 && array_[..] == old(array_[..])
      ensures length <= config.capacity + 1 ==>
                && copied == length
                && array_[..length] == LastValues(State(), length)
                && array_[length..] == old(array_[length..])
    {
      if length > data.Length + 1 {
        return 0;
      }
      var remain := length - 1;
      var toCopy2 := if first < remain then first else remain;
      var toCopy1 := remain - toCopy2;
      ghost var values := LastValues(State(), length);
      LastAreNewest(length);
      BlocksAreNewest(toCopy1, toCopy2, values);
      CopyBlocks(array_, length, toCopy1, toCopy2, values);
      return toCopy2 + toCopy1 + 1;
    }

    /** The time of the k-th bucket back, which is a slot of the times of `n` buckets. */
    method TimeBack(k: nat, n: nat, ghost times: seq<Micros>) returns (t: Micros)
      requires Valid() && k < n && times == LastTimes(currentTs, config.width, n)
      ensures t == times[n - 1 - k]
    {
      t := GetTime(currentTs, k, config.width);
    }

    /** The times of the copied buckets. */
    method GenerateTimeArray(timestamps: array<Micros>, length: nat) returns (generated: nat)
      requires Valid() && 1 <= length <= timestamps.Length
      modifies timestamps
      ensures length > config.capacity + 1 ==> generated == 0 && timestamps[..] == old(timestamps[..])
      ensures length <= config.capacity + 1 ==>
                && generated == length
                && timestamps[..length] == LastTimes(currentTs, config.width, length)
                && timestamps[length..] == old(timestamps[length..])
    {
      if length > data.Length + 1 {
        return 0;
      }
      ghost var times := LastTimes(currentTs, config.width, length);
      var t := TimeBack(0, length, times);
      Fill(timestamps, length, length - 1, t, times);
      for i := 0 to length - 1
        invariant Filled(timestamps, length, length - 1 - i, times)
        invariant timestamps[length..] == old(timestamps[length..])
      {
        t := TimeBack(i + 1, length, times);
        Fill(timestamps, length, length - i - 2, t, times);
      }
      FilledIsAll(timestamps, length, times);
      return length;
    }

    /** `copy_last`: values by block copy, times generated. */
    method CopyLast(timestamps: array<Micros>, array_: array<E>, length: nat) returns (copied: nat)
      requires Valid() && 1 <= length <= array_.Length && length <= timestamps.Length
      requires array_ != data && timestamps as object != data as object && timestamps as object != array_ as object
      modifies timestamps, array_
      ensures length > config.capacity + 1 ==>
                copied == 0 && timestamps[..] == old(timestamps[..]) && array_[..] == old(array_[..])
      ensures length <= config.capacity + 1 ==>
                && copied == length
                && array_[..length] == LastValues(State(), length)
                && timestamps[..length] == LastTimes(currentTs, config.width, length)
    {
      if length > data.Length + 1 {
        return 0;
      }
      copied := CopyLastData(array_, length);
      var copied2 := GenerateTimeArray(timestamps, length);
      assert copied == copied2;
    }

    /** The walk from the newest sample back. */
    method WalkBack(timestamps: array<Micros>, array_: array<E>, length: nat, ghost values: seq<E>, ghost times: seq<Micros>)
        returns (copied: nat)
      requires Valid() && 1 <= length <= array_.Length && length <= timestamps.Length
      requires array_ != data && timestamps as object != data as object && timestamps as object != array_ as object
      requires |values| == length && AreNewest(values) && times == LastTimes(currentTs, config.width, length)
      modifies timestamps, array_
      ensures copied == length && Filled(array_, length, 0, values) && Filled(timestamps, length, 0, times)
    {
      Fill(array_, length, length - 1, currentValue, values);
      var t := TimeBack(0, length, times);
      Fill(timestamps, length, length - 1, t, times);
      copied := 1;
      while copied < length
        invariant 1 <= copied <= length && AreNewest(values)
        invariant Filled(array_, length, length - copied, values) && Filled(timestamps, length, length - copied, times)
      {
        var v := Back(copied);
        t := TimeBack(copied, length, times);
        Fill(array_, length, length - 1 - copied, v, values);
        Fill(timestamps, length, length - 1 - copied, t, times);
        copied := copied + 1;
      }
    }

    /** The slow copy, walking the ring backwards: it promises exactly what `CopyLast` promises. */
    method CopyLastSlow(timestamps: array<Micros>, array_: array<E>, length: nat) returns (copied: nat)
      requires Valid() && 1 <= length <= array_.Length && length <= timestamps.Length
      requires array_ != data && timestamps as object != data as object && timestamps as object != array_ as object
      modifies timestamps, array_
      ensures length > config.capacity + 1 ==>
                copied == 0 && timestamps[..] == old(timestamps[..]) && array_[..] == old(array_[..])
      ensures length <= config.capacity + 1 ==>
                && copied == length
                && array_[..length] == LastValues(State(), length)
                && timestamps[..length] == LastTimes(currentTs, config.width, length)
    {
      if length > data.Length + 1 {
        return 0;
      }
      ghost var values, times := LastValues(State(), length), LastTimes(currentTs, config.width, length);
      LastAreNewest(length);
      copied := WalkBack(timestamps, array_, length, values, times);
      FilledIsAll(array_, length, values);
      FilledIsAll(timestamps, length, times);
    }
  }
}
