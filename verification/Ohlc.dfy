/** Open/high/low/close candles: four windows driven in lockstep, and the callback that
    emits the closed ones. */
module Ohlc {
  import opened IntervalPolicy
  import opened WindowSpec
  import opened Samplers
  import opened MovingWindow

  datatype Settings = Settings(width: int, capacity: nat, init: real)

  /** The states of the four windows. */
  datatype Candles = Candles(open: Window<OpenState, real>, high: Window<(), real>,
                             low: Window<(), real>, close: Window<(), real>)

  function OpenOf(p: Settings): Config<OpenState, real> { OpenConfig(p.width, p.capacity, p.init) }
  function HighOf(p: Settings): Config<(), real> { MaxConfig(p.width, p.capacity, p.init) }
  function LowOf(p: Settings): Config<(), real> { MinConfig(p.width, p.capacity, p.init) }
  function CloseOf(p: Settings): Config<(), real> { CloseConfig(p.width, p.capacity, p.init) }

  function CandlesStep(p: Settings, k: Candles, e: Event<real>): Candles
    requires p.width > 0
  {
    Candles(Step(OpenOf(p), k.open, e), Step(HighOf(p), k.high, e), Step(LowOf(p), k.low, e), Step(CloseOf(p), k.close, e))
  }

  function CandlesRun(p: Settings, es: seq<Event<real>>): Candles
    requires p.width > 0
  {
    Candles(Run(OpenOf(p), es), Run(HighOf(p), es), Run(LowOf(p), es), Run(CloseOf(p), es))
  }

  predicate InOrder(open: real, high: real, low: real, close: real) {
    low <= open <= high && low <= close <= high
  }

  /** Same clock, same number of pushes, same amount of history. */
  ghost predicate SameShape(k: Candles) {
    && k.open.ts == k.high.ts == k.low.ts == k.close.ts
    && k.open.collected == k.high.collected == k.low.collected == k.close.collected
    && |k.open.hist| == |k.high.hist| == |k.low.hist| == |k.close.hist|
  }

  ghost predicate CandleInOrder(p: Settings, k: Candles, i: int)
    requires SameShape(k) && -|k.open.hist| <= i <= 0
  {
    InOrder(At(OpenOf(p), k.open, i), At(HighOf(p), k.high, i), At(LowOf(p), k.low, i), At(CloseOf(p), k.close, i))
  }

  ghost predicate AllInOrder(p: Settings, k: Candles)
    requires SameShape(k)
  {
    forall i :: -|k.open.hist| <= i <= 0 ==> CandleInOrder(p, k, i)
  }

  lemma StepKeepsShape(p: Settings, k: Candles, e: Event<real>)
    requires p.width > 0 && SameShape(k)
    ensures SameShape(CandlesStep(p, k, e)) && |CandlesStep(p, k, e).open.hist| == |k.open.hist|
  {
    var n := Pushes(k.open.ts, e.ts, p.width);
    PushManyAt(k.open.hist, k.open.cur, n);
    PushManyAt(k.high.hist, k.high.cur, n);
    PushManyAt(k.low.hist, k.low.cur, n);
    PushManyAt(k.close.hist, k.close.cur, n);
  }

  lemma StepKeepsCandle(p: Settings, k: Candles, e: Event<real>, i: int)
    requires p.width > 0 && SameShape(k) && AllInOrder(p, k) && |k.open.hist| == p.capacity
    requires i < 0 <= p.capacity + i
    ensures SameShape(CandlesStep(p, k, e)) && |CandlesStep(p, k, e).open.hist| == p.capacity
    ensures CandleInOrder(p, CandlesStep(p, k, e), i)
  {
    var j := i + Pushes(k.open.ts, e.ts, p.width);
    StepKeepsShape(p, k, e);
    StepShiftsHistory(OpenOf(p), k.open, e, i);
    StepShiftsHistory(HighOf(p), k.high, e, i);
    StepShiftsHistory(LowOf(p), k.low, e, i);
    StepShiftsHistory(CloseOf(p), k.close, e, i);
    assert CandleInOrder(p, k, if j < 0 then j else 0);
  }

  lemma StepKeepsOrder(p: Settings, k: Candles, e: Event<real>)
    requires p.width > 0 && SameShape(k) && AllInOrder(p, k) && |k.open.hist| == p.capacity
    requires k.open.ts != 0 ==> k.open.sampler == OpenState(k.open.cur, true)
    ensures SameShape(CandlesStep(p, k, e)) && AllInOrder(p, CandlesStep(p, k, e))
  {
    StepKeepsShape(p, k, e);
    assert CandleInOrder(p, k, 0);
    forall i | i <= 0 <= p.capacity + i
      ensures CandleInOrder(p, CandlesStep(p, k, e), i)
    {
      if i < 0 {
        StepKeepsCandle(p, k, e, i);
      }
    }
  }

  /** For every event sequence, in any time order, the four windows keep the same bucket
      structure and every candle has low <= open, close <= high. */
  lemma {:induction false} CandlesStayInOrder(p: Settings, es: seq<Event<real>>)
    requires p.width > 0
    ensures SameShape(CandlesRun(p, es)) && AllInOrder(p, CandlesRun(p, es))
    ensures |CandlesRun(p, es).open.hist| == p.capacity
  {
    if es != [] {
      var before := es[..|es| - 1];
      CandlesStayInOrder(p, before);
      RunShape(OpenOf(p), before);
      RunShape(OpenOf(p), es);
      if before != [] {
        AllReset(p.width, p.capacity, p.init);
        CurrentIsFoldSinceOpen(OpenOf(p), before);
        OpenFold(p.width, p.capacity, p.init, SinceOpen(before, p.width));
      }
      StepKeepsOrder(p, CandlesRun(p, before), es[|es| - 1]);
      assert CandlesRun(p, es) == CandlesStep(p, CandlesRun(p, before), es[|es| - 1]);
    }
  }

  lemma CurrentParts(p: Settings, es: seq<Event<real>>)
    requires p.width > 0 && es != []
    ensures var vs, k := SinceOpen(es, p.width), CandlesRun(p, es);
            k.open.cur == vs[0] && k.close.cur == vs[|vs| - 1] && IsMax(k.high.cur, vs) && IsMin(k.low.cur, vs)
  {
    AllReset(p.width, p.capacity, p.init);
    var vs := SinceOpen(es, p.width);
    assert Run(OpenOf(p), es).cur == vs[0] by {
      CurrentIsFoldSinceOpen(OpenOf(p), es);
      OpenFold(p.width, p.capacity, p.init, vs);
    }
    assert Run(CloseOf(p), es).cur == vs[|vs| - 1] by {
      CurrentIsFoldSinceOpen(CloseOf(p), es);
      LatestFold(p.width, p.capacity, p.init, vs);
    }
    assert IsMax(Run(HighOf(p), es).cur, vs) by {
      CurrentIsFoldSinceOpen(HighOf(p), es);
      MaxFold(p.width, p.capacity, p.init, vs);
    }
    assert IsMin(Run(LowOf(p), es).cur, vs) by {
      CurrentIsFoldSinceOpen(LowOf(p), es);
      MinFold(p.width, p.capacity, p.init, vs);
    }
  }

  lemma CurrentMean(p: Settings, es: seq<Event<real>>)
    requires p.width > 0 && es != []
    ensures var vs := SinceOpen(es, p.width);
            Run(AvgConfig(p.width, p.capacity, p.init), es).cur == Sum(vs) / |vs| as real
  {
    AllReset(p.width, p.capacity, p.init);
    CurrentIsFoldSinceOpen(AvgConfig(p.width, p.capacity, p.init), es);
    AvgFold(p.width, p.capacity, p.init, SinceOpen(es, p.width));
  }

  /** The current candle is exact: first, maximum, minimum and last of the values since the
      period opened; `avg` on the same events is their mean and lies between low and high. */
  lemma CurrentCandleIsExact(p: Settings, es: seq<Event<real>>)
    requires p.width > 0 && es != []
    ensures var vs, k := SinceOpen(es, p.width), CandlesRun(p, es);
            && k.open.cur == vs[0]
            && k.close.cur == vs[|vs| - 1]
            && IsMax(k.high.cur, vs)
            && IsMin(k.low.cur, vs)
            && var avg := Run(AvgConfig(p.width, p.capacity, p.init), es).cur;
               avg == Sum(vs) / |vs| as real && k.low.cur <= avg <= k.high.cur
  {
    var vs, k := SinceOpen(es, p.width), CandlesRun(p, es);
    CurrentParts(p, es);
    CurrentMean(p, es);
    MeanIsBounded(vs, k.low.cur, k.high.cur);
  }

  // ---------------------------------------------------------------- emission

  datatype Row = Row(time: int, open: real, high: real, low: real, close: real)

  /** The row printed for index `i` of the four series. */
  function RowAt(p: Settings, k: Candles, i: int): Row
    requires p.width > 0 && i <= 0
    requires -i <= |k.open.hist| && -i <= |k.high.hist| && -i <= |k.low.hist| && -i <= |k.close.hist|
  {
    Row(GetTime(k.open.ts, -i, p.width), At(OpenOf(p), k.open, i), At(HighOf(p), k.high, i),
        At(LowOf(p), k.low, i), At(CloseOf(p), k.close, i))
  }

  ghost predicate HasShape(p: Settings, k: Candles) {
    |k.open.hist| == |k.high.hist| == |k.low.hist| == |k.close.hist| == p.capacity
  }

  /** The rows printed after an event that closed `count` buckets, for indices -count .. -1. */
  function Emitted(p: Settings, k: Candles, count: nat): (rows: seq<Row>)
    requires p.width > 0 && HasShape(p, k) && count <= p.capacity
    ensures |rows| == count
  {
    seq(count, (j: nat) requires j < count => RowAt(p, k, j - count))
  }

  /** No gap is longer than the ring. */
  ghost predicate GapsFitRing(es: seq<Event<real>>, p: Settings)
    requires p.width > 0
  {
    forall i {:trigger es[i + 1]} :: 0 <= i < |es| - 1 ==> Bucket(es[i + 1].ts, p.width) - Bucket(es[i].ts, p.width) <= p.capacity
  }

  ghost predicate Emittable(es: seq<Event<real>>, p: Settings)
    requires p.width > 0
  {
    Ordered(es) && GapsFitInt(es, p.width) && GapsFitRing(es, p)
  }

  /** The count the callback receives with the last event of a run. */
  function LastCount(es: seq<Event<real>>, width: int): nat
    requires width > 0 && es != []
  {
    if |es| == 1 then 0 else Returned(es[|es| - 2].ts, es[|es| - 1].ts, width)
  }

  lemma RingGapsPrefix(es: seq<Event<real>>, p: Settings)
    requires p.width > 0 && es != [] && GapsFitRing(es, p)
    ensures GapsFitRing(es[..|es| - 1], p)
    ensures |es| >= 2 ==> Bucket(es[|es| - 1].ts, p.width) - Bucket(es[|es| - 2].ts, p.width) <= p.capacity
  {
    var before := es[..|es| - 1];
    forall i {:trigger before[i + 1]} | 0 <= i < |before| - 1
      ensures Bucket(before[i + 1].ts, p.width) - Bucket(before[i].ts, p.width) <= p.capacity
    {
      assert before[i + 1] == es[i + 1];
    }
    if |es| >= 2 {
      var i := |es| - 2;
      assert es[i + 1] == es[|es| - 1];
    }
  }

  lemma EmittablePrefix(es: seq<Event<real>>, p: Settings)
    requires p.width > 0 && es != [] && Emittable(es, p)
    ensures Emittable(es[..|es| - 1], p)
    ensures LastCount(es, p.width) <= p.capacity
    ensures |es| >= 2 ==> LastCount(es, p.width) == Bucket(es[|es| - 1].ts, p.width) - Bucket(es[|es| - 2].ts, p.width)
    ensures HasShape(p, CandlesRun(p, es))
  {
    CandlesStayInOrder(p, es);
    OrderedPrefix(es, |es| - 1);
    GapsPrefix(es, p.width);
    RingGapsPrefix(es, p);
    if |es| >= 2 {
      CountIsBucketDistance(es[|es| - 2].ts, es[|es| - 1].ts, p.width);
    }
  }

  /** Everything the callback has printed after a run. */
  ghost function Output(p: Settings, es: seq<Event<real>>): seq<Row>
    requires p.width > 0 && Emittable(es, p)
  {
    if es == [] then [] else
      EmittablePrefix(es, p);
      Output(p, es[..|es| - 1]) + Emitted(p, CandlesRun(p, es), LastCount(es, p.width))
  }

  /** The final candle of bucket `b`. */
  ghost function CandleAt(p: Settings, es: seq<Event<real>>, b: int): Row
    requires p.width > 0
  {
    Row(b * p.width, SlotValue(OpenOf(p), es, b), SlotValue(HighOf(p), es, b),
        SlotValue(LowOf(p), es, b), SlotValue(CloseOf(p), es, b))
  }

  /** The final candles of `n` consecutive buckets from `b` on. */
  ghost function CandlesFrom(p: Settings, es: seq<Event<real>>, b: int, n: nat): (rows: seq<Row>)
    requires p.width > 0
    ensures |rows| == n
  {
    seq(n, (j: nat) requires j < n => CandleAt(p, es, b + j))
  }

  /** A window of an ordered run holds a bucket's final value at its index, under the bucket's start. */
  lemma TimedSlotIsFinal<S(!new)>(c: Config<S, real>, w: Window<S, real>, es: seq<Event<real>>, i: int, b: int)
    requires c.width > 0 && Resets(c) && es != [] && Ordered(es) && GapsFitInt(es, c.width) && w == Run(c, es)
    requires i < 0 <= c.capacity + i && b == Bucket(es[|es| - 1].ts, c.width) + i && b >= 0
    ensures |w.hist| == c.capacity && At(c, w, i) == SlotValue(c, es, b) && GetTime(w.ts, -i, c.width) == b * c.width
  {
    SlotIsFinal(c, w, es, i, b);
    GetTimeIsBucketStart(w.ts, -i, c.width);
  }

  /** The row at index `i` is the final candle of its bucket `b`. */
  lemma RowIsFinalCandle(p: Settings, es: seq<Event<real>>, i: int, b: int)
    requires p.width > 0 && Emittable(es, p) && es != []
    requires i < 0 <= p.capacity + i && b == Bucket(es[|es| - 1].ts, p.width) + i && b >= 0
    ensures HasShape(p, CandlesRun(p, es))
    ensures RowAt(p, CandlesRun(p, es), i) == CandleAt(p, es, b)
  {
    AllReset(p.width, p.capacity, p.init);
    var k := CandlesRun(p, es);
    TimedSlotIsFinal(OpenOf(p), k.open, es, i, b);
    TimedSlotIsFinal(HighOf(p), k.high, es, i, b);
    TimedSlotIsFinal(LowOf(p), k.low, es, i, b);
    TimedSlotIsFinal(CloseOf(p), k.close, es, i, b);
  }

  lemma ClosedCandleIsFinal(p: Settings, es: seq<Event<real>>, b: int)
    requires p.width > 0 && |es| >= 2 && b < Bucket(es[|es| - 1].ts, p.width)
    ensures CandleAt(p, es, b) == CandleAt(p, es[..|es| - 1], b)
  {
    ClosedSlotsAreFinal(OpenOf(p), es, b);
    ClosedSlotsAreFinal(HighOf(p), es, b);
    ClosedSlotsAreFinal(LowOf(p), es, b);
    ClosedSlotsAreFinal(CloseOf(p), es, b);
  }

  lemma ClosedCandlesAreFinal(p: Settings, es: seq<Event<real>>, b: int, n: nat)
    requires p.width > 0 && |es| >= 2 && b + n <= Bucket(es[|es| - 1].ts, p.width)
    ensures CandlesFrom(p, es, b, n) == CandlesFrom(p, es[..|es| - 1], b, n)
  {
    forall j | 0 <= j < n
      ensures CandlesFrom(p, es, b, n)[j] == CandlesFrom(p, es[..|es| - 1], b, n)[j]
    {
      ClosedCandleIsFinal(p, es, b + j);
    }
  }

  lemma RowsAreCandles(p: Settings, k: Candles, es: seq<Event<real>>, now: int, n: nat)
    requires p.width > 0 && HasShape(p, k) && n <= p.capacity
    requires forall i :: i < 0 <= n + i ==> RowAt(p, k, i) == CandleAt(p, es, now + i)
    ensures Emitted(p, k, n) == CandlesFrom(p, es, now - n, n)
  {
    forall j | 0 <= j < n
      ensures Emitted(p, k, n)[j] == CandlesFrom(p, es, now - n, n)[j]
    {
      assert RowAt(p, k, j - n) == CandleAt(p, es, now + (j - n));
    }
  }

  lemma EmittedAreFinal(p: Settings, es: seq<Event<real>>)
    requires p.width > 0 && |es| >= 2 && Emittable(es, p)
    ensures HasShape(p, CandlesRun(p, es)) && LastCount(es, p.width) <= p.capacity
    ensures Emitted(p, CandlesRun(p, es), LastCount(es, p.width))
         == CandlesFrom(p, es, Bucket(es[|es| - 2].ts, p.width), LastCount(es, p.width))
  {
    EmittablePrefix(es, p);
    var k, n, now := CandlesRun(p, es), LastCount(es, p.width), Bucket(es[|es| - 1].ts, p.width);
    forall i | i < 0 <= n + i
      ensures RowAt(p, k, i) == CandleAt(p, es, now + i)
    {
      RowIsFinalCandle(p, es, i, now + i);
    }
    RowsAreCandles(p, k, es, now, n);
  }

  lemma OutputGrows(p: Settings, es: seq<Event<real>>)
    requires p.width > 0 && |es| >= 2 && Emittable(es, p)
    ensures Emittable(es[..|es| - 1], p)
    ensures Output(p, es) == Output(p, es[..|es| - 1])
                             + CandlesFrom(p, es, Bucket(es[|es| - 2].ts, p.width), LastCount(es, p.width))
  {
    EmittablePrefix(es, p);
    EmittedAreFinal(p, es);
  }

  /** Every closed candle is printed exactly once: the output of a run is the final candle of each
      bucket from the first event's to the one before the current, in order. */
  lemma {:induction false} EachClosedCandleOnce(p: Settings, es: seq<Event<real>>)
    requires p.width > 0 && es != [] && Emittable(es, p)
    ensures Bucket(es[0].ts, p.width) <= Bucket(es[|es| - 1].ts, p.width)
    ensures Output(p, es) == CandlesFrom(p, es, Bucket(es[0].ts, p.width),
                                         Bucket(es[|es| - 1].ts, p.width) - Bucket(es[0].ts, p.width))
  {
    BucketMonotone(es[0].ts, es[|es| - 1].ts, p.width);
    EmittablePrefix(es, p);
    var before := es[..|es| - 1];
    if |es| == 1 {
      assert Output(p, before) == [];
    } else {
      EachClosedCandleOnce(p, before);
      OutputGrows(p, es);
      JoinCandles(p, es, Output(p, before), Bucket(es[0].ts, p.width), Bucket(es[|es| - 2].ts, p.width));
    }
  }

  /** The candles printed before and the ones just closed are consecutive. */
  lemma JoinCandles(p: Settings, es: seq<Event<real>>, printed: seq<Row>, first: int, last: int)
    requires p.width > 0 && |es| >= 2 && first <= last <= Bucket(es[|es| - 1].ts, p.width)
    requires printed == CandlesFrom(p, es[..|es| - 1], first, last - first)
    ensures printed + CandlesFrom(p, es, last, Bucket(es[|es| - 1].ts, p.width) - last)
         == CandlesFrom(p, es, first, Bucket(es[|es| - 1].ts, p.width) - first)
  {
    ClosedCandlesAreFinal(p, es, first, last - first);
    CandlesFromSplits(p, es, first, last - first, Bucket(es[|es| - 1].ts, p.width) - last);
  }

  lemma CandlesFromSplits(p: Settings, es: seq<Event<real>>, b: int, m: nat, n: nat)
    requires p.width > 0
    ensures CandlesFrom(p, es, b, m + n) == CandlesFrom(p, es, b, m) + CandlesFrom(p, es, b + m, n)
  {
  }

  // ---------------------------------------------------------------- the objects

  class Ohlc {
    const settings: Settings
    const open: MovingWindow<OpenState, real>
    const close: MovingWindow<(), real>
    const high: MovingWindow<(), real>
    const low: MovingWindow<(), real>
    const post: bool
    /** What the callback has printed. */
    var rows: seq<Row>

    ghost predicate Valid()
      reads this, open, close, high, low
    {
      && settings.width > 0
      && open.Valid() && close.Valid() && high.Valid() && low.Valid()
      && open.config == OpenOf(settings) && close.config == CloseOf(settings)
      && high.config == HighOf(settings) && low.config == LowOf(settings)
      && close != high && close != low && high != low
      && open.data != close.data && open.data != high.data && open.data != low.data
      && close.data != high.data && close.data != low.data && high.data != low.data
    }

    ghost function State(): Candles
      requires Valid()
      reads this, open, close, high, low, open.data, close.data, high.data, low.data
    {
      Candles(open.State(), high.State(), low.State(), close.State())
    }

    constructor (history: nat, interval: nat, init: real, callback: bool)
      requires interval > 0
      ensures Valid() && settings == Settings(interval, history / interval, init)
      ensures State() == CandlesRun(settings, []) && post == callback && rows == []
      ensures fresh(open) && fresh(close) && fresh(high) && fresh(low)
      ensures fresh(open.data) && fresh(close.data) && fresh(high.data) && fresh(low.data)
    {
      settings := Settings(interval, history / interval, init);
      open := new MovingWindow<OpenState, real>(history, interval, init, OpenState(0.0, false), Open);
      close := new MovingWindow<(), real>(history, interval, init, (), Close<real>);
      high := new MovingWindow<(), real>(history, interval, init, (), Max);
      low := new MovingWindow<(), real>(history, interval, init, (), Min);
      post, rows := callback, [];
    }

    method ReadRow(i: int) returns (r: Row)
      requires Valid() && i <= 0 <= settings.capacity + i
      ensures HasShape(settings, State()) && r == RowAt(settings, State(), i)
    {
      var o := open.Get(i);
      var h := high.Get(i);
      var l := low.Get(i);
      var c := close.Get(i);
      r := Row(GetTime(open.currentTs, -i, settings.width), o, h, l, c);
    }

    /** The emission loop over indices -count .. -1. */
    method Emit(count: nat)
      requires Valid() && count <= settings.capacity
      modifies this`rows
      ensures Valid() && HasShape(settings, State())
      ensures rows == old(rows) + Emitted(settings, State(), count)
    {
      var printed := PrintRows(count);
      rows := rows + printed;
    }

    method PrintRows(count: nat) returns (printed: seq<Row>)
      requires Valid() && count <= settings.capacity
      ensures HasShape(settings, State()) && printed == Emitted(settings, State(), count)
    {
      printed := [];
      ghost var k := State();
      ghost var rows := Emitted(settings, k, count);
      var i := 0 - count;
      while i < 0
        invariant 0 <= i + count && i <= 0
        invariant printed == rows[..i + count]
      {
        var r := ReadRow(i);
        assert r == rows[i + count];
        printed := printed + [r];
        i := i + 1;
      }
    }

    /** The same event for all four windows. */
    method StepAll(ts: Micros, value: real) returns (closed: nat)
      requires Valid()
      modifies open, close, high, low, open.data, close.data, high.data, low.data
      ensures Valid()
      ensures State() == CandlesStep(settings, old(State()), Event(ts, value))
      ensures closed == Returned(old(open.currentTs), ts, settings.width)
    {
      closed := open.On(ts, value);
      var _ := close.On(ts, value);
      var _ := high.On(ts, value);
      var _ := low.On(ts, value);
    }

    /** One event drives all four windows; then the callback is told how many buckets closed. */
    method On(ts: Micros, value: real) returns (closed: nat)
      requires Valid()
      requires post ==> Returned(open.currentTs, ts, settings.width) <= settings.capacity
      modifies this`rows, open, close, high, low, open.data, close.data, high.data, low.data
      ensures Valid() && HasShape(settings, State())
      ensures State() == CandlesStep(settings, old(State()), Event(ts, value))
      ensures closed == Returned(old(open.currentTs), ts, settings.width)
      ensures rows == old(rows) + if post && closed <= settings.capacity then Emitted(settings, State(), closed) else []
    {
      closed := StepAll(ts, value);
      if post {
        Emit(closed);
      }
    }
  }

  lemma EmittableUpTo(p: Settings, es: seq<Event<real>>, n: nat)
    requires p.width > 0 && Emittable(es, p) && n <= |es|
    ensures Emittable(es[..n], p)
    decreases |es| - n
  {
    if n < |es| {
      EmittableUpTo(p, es, n + 1);
      EmittablePrefix(es[..n + 1], p);
      assert es[..n + 1][..n] == es[..n];
    } else {
      assert es[..n] == es;
    }
  }

  /** What the next event of a run does to the windows and to the output. */
  lemma NextIsEmittable(p: Settings, es: seq<Event<real>>, i: nat)
    requires p.width > 0 && Emittable(es, p) && i < |es|
    ensures Emittable(es[..i], p) && Emittable(es[..i + 1], p)
    ensures CandlesRun(p, es[..i + 1]) == CandlesStep(p, CandlesRun(p, es[..i]), es[i])
    ensures HasShape(p, CandlesRun(p, es[..i + 1]))
    ensures var count := Returned(CandlesRun(p, es[..i]).open.ts, es[i].ts, p.width);
            count <= p.capacity && Output(p, es[..i + 1]) == Output(p, es[..i]) + Emitted(p, CandlesRun(p, es[..i + 1]), count)
  {
    EmittableUpTo(p, es, i);
    EmittableUpTo(p, es, i + 1);
    EmittablePrefix(es[..i + 1], p);
    assert es[..i + 1][..i] == es[..i];
    RunShape(OpenOf(p), es[..i]);
  }

  /** A new object with its callback set, driven through a whole run: what it has printed is the final
      candle of each closed bucket, once and in order. */
  method PrintCandles(history: nat, interval: nat, init: real, es: seq<Event<real>>) returns (rows: seq<Row>)
    requires interval > 0 && Emittable(es, Settings(interval, history / interval, init))
    ensures rows == Output(Settings(interval, history / interval, init), es)
    ensures es != [] ==>
              var first, last := Bucket(es[0].ts, interval), Bucket(es[|es| - 1].ts, interval);
              first <= last && rows == CandlesFrom(Settings(interval, history / interval, init), es, first, last - first)
  {
    var o := new Ohlc(history, interval, init, true);
    ghost var p := o.settings;
    for i := 0 to |es|
      invariant fresh(o) && fresh(o.open) && fresh(o.close) && fresh(o.high) && fresh(o.low)
      invariant fresh(o.open.data) && fresh(o.close.data) && fresh(o.high.data) && fresh(o.low.data)
      invariant o.Valid() && o.settings == p && o.post && Emittable(es[..i], p)
      invariant o.State() == CandlesRun(p, es[..i]) && o.rows == Output(p, es[..i])
    {
      NextIsEmittable(p, es, i);
      var _ := o.On(es[i].ts, es[i].value);
    }
    assert es[..|es|] == es;
    rows := o.rows;
    if es != [] {
      EachClosedCandleOnce(p, es);
    }
  }
}
