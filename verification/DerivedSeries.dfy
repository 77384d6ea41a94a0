/** Series derived from a window: `apply`, `apply2`, `apply3` and the sequential pipeline. */
module DerivedSeries {
  import opened IntervalPolicy
  import opened WindowSpec
  import opened Samplers
  import opened MovingWindow

  /** What a functor on the series itself can read: the clock, the period and all values. */
  datatype View<E> = View(ts: Micros, width: int, values: seq<E>)

  /** The three functor types: on the series, on (times, values), on (current time, values). */
  datatype Operation<!E> =
    | SeriesOp(onSeries: View<E> -> E)
    | SampleOp(onSamples: (seq<Micros>, seq<E>) -> E)
    | ValueOp(onValues: (Micros, seq<E>) -> E)

  function Compute<E>(op: Operation<E>, view: View<E>, times: seq<Micros>, values: seq<E>): E {
    match op
    case SeriesOp(f) => f(view)
    case SampleOp(f) => f(times, values)
    case ValueOp(f) => f(view.ts, values)
  }

  function ViewOf<S, E>(w: Window<S, E>, width: int): View<E> {
    View(w.ts, width, w.hist + [w.cur])
  }

  /** The functor's value on the last `n` samples of a window in state `w` (on all, if it has fewer). */
  function Observe<S, E>(op: Operation<E>, width: int, n: nat, w: Window<S, E>): E
    requires width > 0
  {
    var m := if n <= |w.hist| + 1 then n else |w.hist| + 1;
    Compute(op, ViewOf(w, width), LastTimes(w.ts, width, m), LastValues(w, m))
  }

  /** A way of looking at a window after each event: a functor on its last samples, for instance. */
  type Observer<!S, !E> = Window<S, E> -> E

  function Observing<S, E>(op: Operation<E>, width: int, n: nat): Observer<S, E>
    requires width > 0
  {
    (w: Window<S, E>) => Observe(op, width, n, w)
  }

  // ---------------------------------------------------------------- specification

  /** The events a series attached after the first `attached` events is fed with. */
  ghost function DerivedEvents<S, E>(c: Config<S, E>, es: seq<Event<E>>, attached: nat, f: Observer<S, E>): (ds: seq<Event<E>>)
    requires c.width > 0 && attached <= |es|
    ensures |ds| == |es| - attached
    ensures forall i :: 0 <= i < |ds| ==> ds[i].ts == es[attached + i].ts
    decreases |es|
  {
    if |es| == attached then []
    else DerivedEvents(c, es[..|es| - 1], attached, f) + [Event(es[|es| - 1].ts, f(Run(c, es)))]
  }

  /** Feeding a child once more, as `SeriesWindow.On` does, is one more event of its derived run. */
  lemma FeedingExtendsRun<S, E>(c: Config<S, E>, d: Config<(), E>, es: seq<Event<E>>, attached: nat, f: Observer<S, E>)
    requires c.width > 0 && d.width > 0 && attached < |es|
    ensures Run(d, DerivedEvents(c, es, attached, f))
         == Step(d, Run(d, DerivedEvents(c, es[..|es| - 1], attached, f)), Event(es[|es| - 1].ts, f(Run(c, es))))
  {
    var ds := DerivedEvents(c, es, attached, f);
    assert ds[..|ds| - 1] == DerivedEvents(c, es[..|es| - 1], attached, f);
  }

  /** Index of the last event at or before bucket `b`, or -1. */
  function LastAtOrBefore<E>(es: seq<Event<E>>, width: int, b: int): (j: int)
    requires width > 0
    ensures -1 <= j < |es|
    ensures j >= 0 ==> Bucket(es[j].ts, width) <= b
    ensures forall i :: j < i < |es| ==> b < Bucket(es[i].ts, width)
  {
    if es == [] then -1
    else if Bucket(es[|es| - 1].ts, width) <= b then |es| - 1
    else LastAtOrBefore(es[..|es| - 1], width, b)
  }

  /** The value of the last event at or before a bucket. */
  function LatestValue<E>(ds: seq<Event<E>>, d: Config<(), E>, b: int): E
    requires d.width > 0
  {
    var j := LastAtOrBefore(ds, d.width, b);
    if j < 0 then d.init else ds[j].value
  }

  /** With `latest` (or `close`), a bucket holds the value of the last event at or before it. */
  lemma {:induction false} LatestSlot<E>(c: Config<(), E>, ds: seq<Event<E>>, b: int)
    requires c.width > 0 && Ordered(ds)
    requires c == LatestConfig(c.width, c.capacity, c.init) || c == CloseConfig(c.width, c.capacity, c.init)
    ensures SlotValue(c, ds, b) == LatestValue(ds, c, b)
  {
    if ds != [] {
      var e, before := ds[|ds| - 1], ds[..|ds| - 1];
      var last := Bucket(e.ts, c.width);
      if last <= b {
        SlotCarriesForward(c, ds, b);
        BucketMonotone(ds[0].ts, e.ts, c.width);
        var vs := ValuesIn(ds, c.width, last);
        assert vs[|vs| - 1] == e.value;
        LatestFold(c.width, c.capacity, c.init, vs);
      } else if |ds| >= 2 {
        OrderedPrefix(ds, |ds| - 1);
        ClosedSlotsAreFinal(c, ds, b);
        LatestSlot(c, before, b);
      }
    }
  }

  lemma {:induction false} DerivedEventAt<S, E>(c: Config<S, E>, es: seq<Event<E>>, attached: nat, f: Observer<S, E>, i: nat)
    requires c.width > 0 && attached <= i < |es|
    ensures DerivedEvents(c, es, attached, f)[i - attached] == Event(es[i].ts, f(Run(c, es[..i + 1])))
    decreases |es|
  {
    if i == |es| - 1 {
      assert es[..i + 1] == es;
    } else {
      var before := es[..|es| - 1];
      DerivedEventAt(c, before, attached, f, i);
      assert before[..i + 1] == es[..i + 1];
    }
  }

  lemma {:induction false} SuffixShifts<E>(es: seq<Event<E>>, ds: seq<Event<E>>, attached: nat, width: int, b: int)
    requires width > 0 && attached <= |es| && |ds| == |es| - attached
    requires forall i :: 0 <= i < |ds| ==> ds[i].ts == es[attached + i].ts
    ensures LastAtOrBefore(ds, width, b) == if LastAtOrBefore(es, width, b) < attached then -1
                                            else LastAtOrBefore(es, width, b) - attached
  {
    var j, k := LastAtOrBefore(ds, width, b), LastAtOrBefore(es, width, b);
    if k >= attached {
      assert ds[k - attached].ts == es[k].ts;
    }
    if j >= 0 {
      assert es[attached + j].ts == ds[j].ts;
    }
  }

  /** The gaps of the derived run are gaps of the parent's. */
  lemma DerivedRunIsOrdered<S, E>(c: Config<S, E>, es: seq<Event<E>>, attached: nat, f: Observer<S, E>, width: int)
    requires c.width > 0 && width > 0 && attached <= |es|
    requires Ordered(es) && GapsFitInt(es, width)
    ensures Ordered(DerivedEvents(c, es, attached, f))
    ensures GapsFitInt(DerivedEvents(c, es, attached, f), width)
  {
    var ds := DerivedEvents(c, es, attached, f);
    forall i {:trigger ds[i + 1]} | 0 <= i < |ds| - 1
      ensures Bucket(ds[i + 1].ts, width) - Bucket(ds[i].ts, width) < TWO_31
    {
      var k := attached + i;
      assert es[k + 1].ts == ds[i + 1].ts && es[k].ts == ds[i].ts;
    }
  }

  /** What a derived series should hold for bucket `b`: the observation of the parent as of the last
      event at or before that bucket, or the initial value if that was before it was attached. */
  ghost function FollowedValue<S, E>(c: Config<S, E>, d: Config<(), E>, es: seq<Event<E>>, attached: nat,
                                     f: Observer<S, E>, b: int): E
    requires c.width > 0 && d.width > 0
  {
    var j := LastAtOrBefore(es, d.width, b);
    if j < attached then d.init else f(Run(c, es[..j + 1]))
  }

  /** The last derived event at or before a bucket is the parent's, as observed then. */
  lemma DerivedValueAt<S, E>(c: Config<S, E>, d: Config<(), E>, es: seq<Event<E>>, attached: nat, f: Observer<S, E>, b: int)
    requires c.width > 0 && d.width > 0 && attached < |es|
    ensures LatestValue(DerivedEvents(c, es, attached, f), d, b) == FollowedValue(c, d, es, attached, f, b)
  {
    var ds := DerivedEvents(c, es, attached, f);
    SuffixShifts(es, ds, attached, d.width, b);
    var k := LastAtOrBefore(es, d.width, b);
    if k >= attached {
      DerivedEventAt(c, es, attached, f, k);
    }
  }

  lemma DerivedSlots<E(!new)>(d: Config<(), E>, ds: seq<Event<E>>, w: Window<(), E>, i: int, b: int)
    requires d.width > 0 && ds != [] && Ordered(ds) && GapsFitInt(ds, d.width) && w == Run(d, ds)
    requires d == LatestConfig(d.width, d.capacity, d.init) || d == CloseConfig(d.width, d.capacity, d.init)
    requires i <= 0 <= d.capacity + i && b == Bucket(ds[|ds| - 1].ts, d.width) + i
    ensures w.ts == ds[|ds| - 1].ts && |w.hist| == d.capacity
    ensures At(d, w, i) == LatestValue(ds, d, b)
  {
    LatestResets(d.width, d.capacity, d.init);
    SlotIsFinal(d, w, ds, i, b);
    LatestSlot(d, ds, b);
  }

  /** A derived series attached at any point, for any functor, shares its parent's clock after every
      later event, and slot `i` holds the followed value of its bucket `b`. The derived window may
      have its own width and capacity, as a pipeline indicator does. */
  lemma DerivedSeriesFollowsParent<S, E(!new)>(c: Config<S, E>, d: Config<(), E>, es: seq<Event<E>>, attached: nat,
                                               f: Observer<S, E>, w: Window<(), E>, i: int, b: int)
    requires c.width > 0 && d.width > 0 && attached < |es|
    requires Ordered(es) && GapsFitInt(es, d.width)
    requires d == LatestConfig(d.width, d.capacity, d.init) || d == CloseConfig(d.width, d.capacity, d.init)
    requires w == Run(d, DerivedEvents(c, es, attached, f))
    requires i <= 0 <= d.capacity + i && b == Bucket(es[|es| - 1].ts, d.width) + i
    ensures w.ts == Run(c, es).ts == es[|es| - 1].ts
    ensures |w.hist| == d.capacity && At(d, w, i) == FollowedValue(c, d, es, attached, f, b)
  {
    RunShape(c, es);
    DerivedClock(c, es, attached, f);
    DerivedRunIsOrdered(c, es, attached, f, d.width);
    DerivedSlots(d, DerivedEvents(c, es, attached, f), w, i, b);
    DerivedValueAt(c, d, es, attached, f, b);
  }

  lemma DerivedClock<S, E>(c: Config<S, E>, es: seq<Event<E>>, attached: nat, f: Observer<S, E>)
    requires c.width > 0 && attached < |es|
    ensures var ds := DerivedEvents(c, es, attached, f); ds != [] && ds[|ds| - 1].ts == es[|es| - 1].ts
  {
  }

  // ---------------------------------------------------------------- what a functor is handed

  /** The starts of the last `n` buckets, oldest first, `now` being the current one. */
  ghost function BucketTimes(now: int, width: int, n: nat): (r: seq<int>)
    ensures |r| == n && forall j :: 0 <= j < n ==> r[j] == (now - (n - 1 - j)) * width % U64
  {
    seq(n, (j: nat) requires j < n => (now - (n - 1 - j)) * width % U64)
  }

  /** What those buckets closed with, the current one as far as it has come. */
  ghost function BucketValues<S, E>(c: Config<S, E>, es: seq<Event<E>>, now: int, n: nat): (r: seq<E>)
    requires c.width > 0
    ensures |r| == n && forall j :: 0 <= j < n ==> r[j] == SlotValue(c, es, now - (n - 1 - j))
  {
    seq(n, (j: nat) requires j < n => SlotValue(c, es, now - (n - 1 - j)))
  }

  /** The value `v` is the functor's on the last `n` buckets of the run `es`: on their times and values,
      or on the clock and the values, or on the series, whose values are all the buckets it keeps. */
  ghost predicate IsComputed<S, E>(op: Operation<E>, c: Config<S, E>, es: seq<Event<E>>, n: nat, v: E)
    requires c.width > 0 && es != []
  {
    var ts := es[|es| - 1].ts;
    var now := Bucket(ts, c.width);
    match op
    case SampleOp(f) => v == f(BucketTimes(now, c.width, n), BucketValues(c, es, now, n))
    case ValueOp(f) => v == f(ts, BucketValues(c, es, now, n))
    case SeriesOp(f) => v == f(View(ts, c.width, BucketValues(c, es, now, c.capacity + 1)))
  }

  lemma SamplesAreBuckets<S(!new), E(!new)>(c: Config<S, E>, es: seq<Event<E>>, w: Window<S, E>, now: int, n: nat)
    requires c.width > 0 && Resets(c) && es != [] && Ordered(es) && GapsFitInt(es, c.width)
    requires w == Run(c, es) && now == Bucket(es[|es| - 1].ts, c.width) && n <= c.capacity + 1
    ensures |w.hist| == c.capacity && w.ts == es[|es| - 1].ts
    ensures LastTimes(w.ts, c.width, n) == BucketTimes(now, c.width, n)
    ensures LastValues(w, n) == BucketValues(c, es, now, n)
  {
    RunShape(c, es);
    forall j | 0 <= j < n
      ensures LastTimes(w.ts, c.width, n)[j] == BucketTimes(now, c.width, n)[j]
      ensures LastValues(w, n)[j] == BucketValues(c, es, now, n)[j]
    {
      CopiedSlotsAreBuckets(c, es, n, j);
    }
  }

  /** Observing a window after an ordered run hands the functor the buckets of that run. */
  lemma ObservedIsComputed<S(!new), E(!new)>(op: Operation<E>, c: Config<S, E>, es: seq<Event<E>>, n: nat)
    requires c.width > 0 && Resets(c) && es != [] && Ordered(es) && GapsFitInt(es, c.width) && n <= c.capacity + 1
    ensures IsComputed(op, c, es, n, Observe(op, c.width, n, Run(c, es)))
  {
    var w, now := Run(c, es), Bucket(es[|es| - 1].ts, c.width);
    SamplesAreBuckets(c, es, w, now, n);
    SamplesAreBuckets(c, es, w, now, c.capacity + 1);
    assert LastValues(w, c.capacity + 1) == w.hist + [w.cur];
  }

  /** That as a property of a run and a value. */
  ghost function Computed<S, E>(op: Operation<E>, c: Config<S, E>, n: nat): (seq<Event<E>>, E) -> bool
    requires c.width > 0
  {
    (es: seq<Event<E>>, v: E) => es != [] && IsComputed(op, c, es, n, v)
  }

  /** What a slot of an attached series for bucket `b` holds: a value with the property `p` for the run up
      to the last event at or before the bucket, or the initial value if that was before it was attached. */
  ghost predicate SlotHas<E>(p: (seq<Event<E>>, E) -> bool, d: Config<(), E>, es: seq<Event<E>>, attached: nat, v: E, b: int)
    requires d.width > 0
  {
    var k := LastAtOrBefore(es, d.width, b);
    if k < attached then v == d.init else p(es[..k + 1], v)
  }

  lemma GapsUpTo<E>(es: seq<Event<E>>, width: int, n: nat)
    requires width > 0 && GapsFitInt(es, width) && n <= |es|
    ensures GapsFitInt(es[..n], width)
  {
    var upTo := es[..n];
    forall i {:trigger upTo[i + 1]} | 0 <= i < |upTo| - 1
      ensures Bucket(upTo[i + 1].ts, width) - Bucket(upTo[i].ts, width) < TWO_31
    {
      assert upTo[i + 1] == es[i + 1];
    }
  }

  /** An observer's values all have a property. */
  ghost predicate ObservedHave<S, E>(p: (seq<Event<E>>, E) -> bool, c: Config<S, E>, es: seq<Event<E>>, f: Observer<S, E>)
    requires c.width > 0
  {
    forall m :: 0 < m <= |es| ==> p(es[..m], f(Run(c, es[..m])))
  }

  lemma AllComputed<S(!new), E(!new)>(op: Operation<E>, c: Config<S, E>, es: seq<Event<E>>, n: nat)
    requires c.width > 0 && Resets(c) && Ordered(es) && GapsFitInt(es, c.width) && n <= c.capacity + 1
    ensures ObservedHave(Computed(op, c, n), c, es, Observing(op, c.width, n))
  {
    forall m | 0 < m <= |es|
      ensures Computed(op, c, n)(es[..m], Observing<S, E>(op, c.width, n)(Run(c, es[..m])))
    {
      OrderedPrefix(es, m);
      GapsUpTo(es, c.width, m);
      ObservedIsComputed(op, c, es[..m], n);
    }
  }

  /** So has then what a series that follows the observer holds. */
  lemma FollowedHas<S, E>(p: (seq<Event<E>>, E) -> bool, c: Config<S, E>, d: Config<(), E>, es: seq<Event<E>>, attached: nat,
                          f: Observer<S, E>, b: int)
    requires c.width > 0 && d.width > 0 && ObservedHave(p, c, es, f)
    ensures SlotHas(p, d, es, attached, FollowedValue(c, d, es, attached, f, b), b)
  {
  }

  // ---------------------------------------------------------------- the objects

  datatype Child<!E> = Child(op: Operation<E>, series: MovingWindow<(), E>)

  /** All children are valid, and no two share storage. */
  ghost predicate Separate<E>(children: seq<Child<E>>)
    reads set c | c in children :: c.series
  {
    && (forall i :: 0 <= i < |children| ==> children[i].series.Valid())
    && (forall i, j :: 0 <= i < j < |children| ==>
          children[i].series != children[j].series && children[i].series.data != children[j].series.data)
  }

  method FeedOne<E>(children: seq<Child<E>>, k: nat, ts: Micros, v: E)
    requires Separate(children) && k < |children|
    modifies children[k].series, children[k].series.data
    ensures Separate(children)
    ensures children[k].series.State() == Step(children[k].series.config, old(children[k].series.State()), Event(ts, v))
    ensures forall i :: 0 <= i < |children| && i != k ==> children[i].series.State() == old(children[i].series.State())
  {
    var _ := children[k].series.On(ts, v);
    forall i | 0 <= i < |children| && i != k
      ensures children[i].series.Valid() && children[i].series.State() == old(children[i].series.State())
    {
      assert children[i].series != children[k].series && children[i].series.data != children[k].series.data;
    }
  }

  /** Feeds each child its functor's value at time `ts`. */
  method Feed<E>(children: seq<Child<E>>, ts: Micros, view: View<E>, times: seq<Micros>, values: seq<E>)
    requires Separate(children)
    modifies set c | c in children :: c.series
    modifies set c | c in children :: c.series.data
    ensures Separate(children)
    ensures forall i :: 0 <= i < |children| ==>
              children[i].series.State() == Step(children[i].series.config, old(children[i].series.State()),
                                                 Event(ts, Compute(children[i].op, view, times, values)))
  {
    for k := 0 to |children|
      invariant Separate(children)
      invariant forall i :: 0 <= i < k ==>
                  children[i].series.State() == Step(children[i].series.config, old(children[i].series.State()),
                                                     Event(ts, Compute(children[i].op, view, times, values)))
      invariant forall i :: k <= i < |children| ==> children[i].series.State() == old(children[i].series.State())
    {
      FeedOne(children, k, ts, Compute(children[k].op, view, times, values));
    }
  }

  /** No child shares storage with the window that feeds it. */
  ghost predicate Apart<S, E>(window: MovingWindow<S, E>, children: seq<Child<E>>) {
    forall i :: 0 <= i < |children| ==>
      children[i].series as object != window as object && children[i].series.data != window.data
  }

  /** Steps the window; its children are not touched. */
  method StepWindow<S, E>(window: MovingWindow<S, E>, children: seq<Child<E>>, ts: Micros, value: E) returns (pushed: nat)
    requires window.Valid() && Separate(children) && Apart(window, children)
    modifies window, window.data
    ensures window.Valid() && Separate(children)
    ensures window.State() == Step(window.config, old(window.State()), Event(ts, value))
    ensures pushed == Returned(old(window.currentTs), ts, window.config.width)
    ensures forall i :: 0 <= i < |children| ==> children[i].series.State() == old(children[i].series.State())
  {
    pushed := window.On(ts, value);
    forall i | 0 <= i < |children|
      ensures children[i].series.Valid() && children[i].series.State() == old(children[i].series.State())
    {
      assert children[i].series as object != window as object && children[i].series.data != window.data;
    }
  }

  /** Copies the window's last `n` samples. */
  method Snapshot<S, E>(window: MovingWindow<S, E>, n: nat) returns (times: seq<Micros>, values: seq<E>)
    requires window.Valid() && 1 <= n <= window.config.capacity + 1
    ensures times == LastTimes(window.currentTs, window.config.width, n) && values == LastValues(window.State(), n)
  {
    var v, t := window.currentValue, window.currentTs;
    var vbuff := new E[n](_ => v);
    var tbuff := new Micros[n](_ => t);
    var copied := window.CopyLast(tbuff, vbuff, n);
    times, values := tbuff[..n], vbuff[..n];
  }

  /** Feeds the children from a copy of the window's last `n` samples. */
  method FeedFrom<S, E>(window: MovingWindow<S, E>, children: seq<Child<E>>, n: nat)
    requires window.Valid() && Separate(children) && Apart(window, children)
    requires 1 <= n <= window.config.capacity + 1
    requires n == window.config.capacity + 1 || forall i :: 0 <= i < |children| ==> children[i].op.SampleOp?
    modifies set c | c in children :: c.series
    modifies set c | c in children :: c.series.data
    ensures window.Valid() && window.State() == old(window.State()) && Separate(children)
    ensures forall i :: 0 <= i < |children| ==>
              children[i].series.State() == Step(children[i].series.config, old(children[i].series.State()),
                Event(window.currentTs, Observe(children[i].op, window.config.width, n, window.State())))
  {
    var times, values := Snapshot(window, n);
    var view := View(window.currentTs, window.config.width, values);
    CopyIsObserved(children, window.State(), window.config.width, n, view, times, values);
    Feed(children, window.currentTs, view, times, values);
  }

  /** Computing on a copy of the last `n` samples is observing the window. */
  lemma CopyIsObserved<S, E>(children: seq<Child<E>>, w: Window<S, E>, width: int, n: nat,
                             view: View<E>, times: seq<Micros>, values: seq<E>)
    requires width > 0 && n <= |w.hist| + 1
    requires n == |w.hist| + 1 || forall i :: 0 <= i < |children| ==> children[i].op.SampleOp?
    requires view == View(w.ts, width, values) && times == LastTimes(w.ts, width, n) && values == LastValues(w, n)
    ensures forall i :: 0 <= i < |children| ==>
              Compute(children[i].op, view, times, values) == Observe(children[i].op, width, n, w)
  {
  }

  /** A window together with the series attached to it. The source keeps one list for each
      functor type; the functors are functions here, so the order between lists is not seen. */
  class SeriesWindow<S, E> {
    const window: MovingWindow<S, E>
    var children: seq<Child<E>>

    ghost predicate Valid()
      reads this, window, set c | c in children :: c.series
    {
      window.Valid() && window.HoldsHistory() && Separate(children) && Apart(window, children)
    }

    constructor (source: MovingWindow<S, E>)
      requires source.Valid() && source.HoldsHistory()
      ensures Valid() && window == source && children == []
    {
      window := source;
      children := [];
    }

    /** After the events `past`, the window is their run and each child, attached after `attached[i]` of
        them, is its derived run. */
    ghost predicate Follows(past: seq<Event<E>>, attached: seq<nat>)
      requires Valid()
      reads this, window, window.data, set c | c in children :: c.series, set c | c in children :: c.series.data
    {
      && window.State() == Run(window.config, past)
      && |attached| == |children|
      && forall i :: 0 <= i < |children| ==> attached[i] <= |past| && children[i].series.State() == Derived(children[i], past, attached[i])
    }

    /** The derived run of a child. */
    ghost function Derived(child: Child<E>, past: seq<Event<E>>, attached: nat): Window<(), E>
      requires window.config.width > 0 && child.series.config.width > 0 && attached <= |past|
    {
      Run(child.series.config,
          DerivedEvents(window.config, past, attached, Observing(child.op, window.config.width, window.config.capacity + 1)))
    }

    /** `apply`, `apply2`, `apply3`: attaches a new series of the window's own shape. */
    method Apply(op: Operation<E>) returns (series: MovingWindow<(), E>)
      requires Valid()
      modifies this
      ensures Valid() && fresh(series) && fresh(series.data) && series.Valid()
      ensures series.config == LatestConfig(window.config.width, window.config.capacity, window.config.init)
      ensures series.State() == Initial(series.config)
      ensures children == old(children) + [Child(op, series)]
    {
      series := new MovingWindow<(), E>(window.history, window.config.width, window.config.init, (), Latest);
      children := children + [Child(op, series)];
    }

    /** One event: the window steps, then every attached series is fed its functor's value on
        the stepped window. */
    method On(ts: Micros, value: E) returns (pushed: nat)
      requires Valid()
      modifies window, window.data
      modifies set c | c in children :: c.series
      modifies set c | c in children :: c.series.data
      ensures Valid()
      ensures window.State() == Step(window.config, old(window.State()), Event(ts, value))
      ensures forall i :: 0 <= i < |children| ==>
                children[i].series.State() == Step(children[i].series.config, old(children[i].series.State()),
                  Event(ts, Observe(children[i].op, window.config.width, window.config.capacity + 1, window.State())))
      ensures pushed == Returned(old(window.currentTs), ts, window.config.width)
    {
      pushed := StepWindow(window, children, ts, value);
      FeedFrom(window, children, window.config.capacity + 1);
    }

    /** Attaching in the middle of a run. */
    method ApplyAfter(op: Operation<E>, ghost past: seq<Event<E>>, ghost attached: seq<nat>) returns (series: MovingWindow<(), E>)
      requires Valid() && Follows(past, attached)
      modifies this
      ensures Valid() && fresh(series) && fresh(series.data)
      ensures series.config == LatestConfig(window.config.width, window.config.capacity, window.config.init)
      ensures children == old(children) + [Child(op, series)] && Follows(past, attached + [|past|])
    {
      series := Apply(op);
      NothingDerivedYet(window.config, series.config, past, Observing(op, window.config.width, window.config.capacity + 1));
    }

    /** One more event of a run. */
    method OnNext(e: Event<E>, ghost past: seq<Event<E>>, ghost attached: seq<nat>)
      requires Valid() && Follows(past, attached)
      modifies window, window.data
      modifies set c | c in children :: c.series
      modifies set c | c in children :: c.series.data
      ensures Valid() && Follows(past + [e], attached)
    {
      ghost var after := past + [e];
      assert after[..|after| - 1] == past;
      var _ := On(e.ts, e.value);
      forall i | 0 <= i < |children|
        ensures children[i].series.State() == Derived(children[i], after, attached[i])
      {
        FeedingExtendsRun(window.config, children[i].series.config, after, attached[i],
                          Observing(children[i].op, window.config.width, window.config.capacity + 1));
      }
    }

    /** A whole run of events: window and children stay the runs they should be. */
    method OnAll(es: seq<Event<E>>, ghost past: seq<Event<E>>, ghost attached: seq<nat>)
      requires Valid() && Follows(past, attached)
      modifies window, window.data
      modifies set c | c in children :: c.series
      modifies set c | c in children :: c.series.data
      ensures Valid() && Follows(past + es, attached)
      decreases |es|
    {
      if es == [] {
        assert past + es == past;
      } else {
        assert past + es == past + [es[0]] + es[1..];
        OnNext(es[0], past, attached);
        OnAll(es[1..], past + [es[0]], attached);
      }
    }
  }

  /** A source window and indicators, each computed from the same copy of the source's last
      capacity() - 1 samples. The copy needs at least one sample. */
  class SequentialPipeline<S, E> {
    const source: MovingWindow<S, E>
    var list: seq<Child<E>>

    ghost predicate Valid()
      reads this, source, set c | c in list :: c.series
    {
      && source.Valid() && source.config.capacity >= 1
      && Separate(list) && Apart(source, list)
      && forall i :: 0 <= i < |list| ==> list[i].op.SampleOp?
    }

    constructor (window: MovingWindow<S, E>)
      requires window.Valid() && window.config.capacity >= 1
      ensures Valid() && source == window && list == []
    {
      source := window;
      list := [];
    }

    /** `operator>>`. */
    method Add(indicator: MovingWindow<(), E>, calculate: (seq<Micros>, seq<E>) -> E)
      requires Valid() && indicator.Valid()
      requires Separate(list + [Child(SampleOp(calculate), indicator)])
      requires Apart(source, list + [Child(SampleOp(calculate), indicator)])
      modifies this
      ensures Valid() && list == old(list) + [Child(SampleOp(calculate), indicator)]
    {
      list := list + [Child(SampleOp(calculate), indicator)];
    }

    method On(ts: Micros, value: E)
      requires Valid()
      modifies source, source.data
      modifies set c | c in list :: c.series
      modifies set c | c in list :: c.series.data
      ensures Valid()
      ensures source.State() == Step(source.config, old(source.State()), Event(ts, value))
      ensures forall i :: 0 <= i < |list| ==>
                list[i].series.State() == Step(list[i].series.config, old(list[i].series.State()),
                  Event(ts, Observe(list[i].op, source.config.width, source.config.capacity, source.State())))
    {
      var _ := StepWindow(source, list, ts, value);
      FeedFrom(source, list, source.config.capacity);
    }

    /** The derived run of an indicator. */
    ghost function Derived(indicator: Child<E>, past: seq<Event<E>>, attached: nat): Window<(), E>
      requires source.config.width > 0 && indicator.series.config.width > 0 && attached <= |past|
    {
      Run(indicator.series.config,
          DerivedEvents(source.config, past, attached, Observing(indicator.op, source.config.width, source.config.capacity)))
    }

    /** After the events `past`, the source is their run and each indicator, added after `attached[i]` of
        them, is its derived run. */
    ghost predicate Follows(past: seq<Event<E>>, attached: seq<nat>)
      requires Valid()
      reads this, source, source.data, set c | c in list :: c.series, set c | c in list :: c.series.data
    {
      && source.State() == Run(source.config, past)
      && |attached| == |list|
      && forall i :: 0 <= i < |list| ==> attached[i] <= |past| && list[i].series.State() == Derived(list[i], past, attached[i])
    }

    /** Adding an unused indicator in the middle of a run. */
    method AddAfter(indicator: MovingWindow<(), E>, calculate: (seq<Micros>, seq<E>) -> E, ghost past: seq<Event<E>>, ghost attached: seq<nat>)
      requires Valid() && indicator.Valid() && Follows(past, attached) && indicator.State() == Initial(indicator.config)
      requires Separate(list + [Child(SampleOp(calculate), indicator)])
      requires Apart(source, list + [Child(SampleOp(calculate), indicator)])
      modifies this
      ensures Valid() && list == old(list) + [Child(SampleOp(calculate), indicator)] && Follows(past, attached + [|past|])
    {
      Add(indicator, calculate);
      NothingDerivedYet(source.config, indicator.config, past, Observing(SampleOp(calculate), source.config.width, source.config.capacity));
    }

    /** One more event of a run. */
    method OnNext(e: Event<E>, ghost past: seq<Event<E>>, ghost attached: seq<nat>)
      requires Valid() && Follows(past, attached)
      modifies source, source.data
      modifies set c | c in list :: c.series
      modifies set c | c in list :: c.series.data
      ensures Valid() && Follows(past + [e], attached)
    {
      ghost var after := past + [e];
      assert after[..|after| - 1] == past;
      On(e.ts, e.value);
      forall i | 0 <= i < |list|
        ensures list[i].series.State() == Derived(list[i], after, attached[i])
      {
        FeedingExtendsRun(source.config, list[i].series.config, after, attached[i],
                          Observing(list[i].op, source.config.width, source.config.capacity));
      }
    }

    /** A whole run of events: source and indicators stay the runs they should be. */
    method OnAll(es: seq<Event<E>>, ghost past: seq<Event<E>>, ghost attached: seq<nat>)
      requires Valid() && Follows(past, attached)
      modifies source, source.data
      modifies set c | c in list :: c.series
      modifies set c | c in list :: c.series.data
      ensures Valid() && Follows(past + es, attached)
      decreases |es|
    {
      if es == [] {
        assert past + es == past;
      } else {
        assert past + es == past + [es[0]] + es[1..];
        OnNext(es[0], past, attached);
        OnAll(es[1..], past + [es[0]], attached);
      }
    }
  }

  /** Each slot of the state `w` holds the followed value of its bucket, the current one being `now`. */
  ghost predicate SlotsFollow<S, E>(c: Config<S, E>, d: Config<(), E>, es: seq<Event<E>>, attached: nat, f: Observer<S, E>,
                                    w: Window<(), E>, now: int)
    requires c.width > 0 && d.width > 0 && |w.hist| == d.capacity
  {
    forall i :: i <= 0 <= d.capacity + i ==> At(d, w, i) == FollowedValue(c, d, es, attached, f, now + i)
  }

  /** Each slot of the state `w` holds a value with a property. */
  ghost predicate SlotsHave<E>(p: (seq<Event<E>>, E) -> bool, d: Config<(), E>, es: seq<Event<E>>, attached: nat, w: Window<(), E>, now: int)
    requires d.width > 0 && |w.hist| == d.capacity
  {
    forall i :: i <= 0 <= d.capacity + i ==> SlotHas(p, d, es, attached, At(d, w, i), now + i)
  }

  lemma FollowingHave<S, E>(p: (seq<Event<E>>, E) -> bool, c: Config<S, E>, d: Config<(), E>, es: seq<Event<E>>, attached: nat,
                            f: Observer<S, E>, w: Window<(), E>, now: int)
    requires c.width > 0 && d.width > 0 && ObservedHave(p, c, es, f)
    requires |w.hist| == d.capacity && SlotsFollow(c, d, es, attached, f, w, now)
    ensures SlotsHave(p, d, es, attached, w, now)
  {
    forall i | i <= 0 <= d.capacity + i
      ensures SlotHas(p, d, es, attached, At(d, w, i), now + i)
    {
      FollowedHas(p, c, d, es, attached, f, now + i);
    }
  }

  /** Every slot of a run with `latest` or `close` holds the value of the last event at or before its bucket. */
  lemma LatestSlots<E(!new)>(d: Config<(), E>, ds: seq<Event<E>>, w: Window<(), E>, now: int)
    requires d.width > 0 && ds != [] && Ordered(ds) && GapsFitInt(ds, d.width) && w == Run(d, ds)
    requires d == LatestConfig(d.width, d.capacity, d.init) || d == CloseConfig(d.width, d.capacity, d.init)
    requires now == Bucket(ds[|ds| - 1].ts, d.width)
    ensures w.ts == ds[|ds| - 1].ts && |w.hist| == d.capacity
    ensures forall i :: i <= 0 <= d.capacity + i ==> At(d, w, i) == LatestValue(ds, d, now + i)
  {
    DerivedSlots(d, ds, w, 0, now);
    forall i | i <= 0 <= d.capacity + i
      ensures At(d, w, i) == LatestValue(ds, d, now + i)
    {
      DerivedSlots(d, ds, w, i, now + i);
    }
  }

  lemma DerivedValues<S, E>(c: Config<S, E>, d: Config<(), E>, es: seq<Event<E>>, attached: nat, f: Observer<S, E>, ds: seq<Event<E>>)
    requires c.width > 0 && d.width > 0 && attached < |es| && ds == DerivedEvents(c, es, attached, f)
    ensures forall b :: LatestValue(ds, d, b) == FollowedValue(c, d, es, attached, f, b)
  {
    forall b
      ensures LatestValue(ds, d, b) == FollowedValue(c, d, es, attached, f, b)
    {
      DerivedValueAt(c, d, es, attached, f, b);
    }
  }

  lemma EverySlotFollows<S, E>(c: Config<S, E>, d: Config<(), E>, es: seq<Event<E>>, attached: nat, f: Observer<S, E>,
                               ds: seq<Event<E>>, w: Window<(), E>, now: int)
    requires c.width > 0 && d.width > 0 && |w.hist| == d.capacity
    requires forall i :: i <= 0 <= d.capacity + i ==> At(d, w, i) == LatestValue(ds, d, now + i)
    requires forall b :: LatestValue(ds, d, b) == FollowedValue(c, d, es, attached, f, b)
    ensures SlotsFollow(c, d, es, attached, f, w, now)
  {
  }

  lemma NothingDerivedYet<S, E>(c: Config<S, E>, d: Config<(), E>, es: seq<Event<E>>, f: Observer<S, E>)
    requires c.width > 0 && d.width > 0
    ensures Run(d, DerivedEvents(c, es, |es|, f)) == Initial(d)
  {
  }

  /** A window takes some events, a series is attached, and more events follow: the attached object is
      its derived run. */
  method Attach<S, E>(w: SeriesWindow<S, E>, es: seq<Event<E>>, op: Operation<E>, later: seq<Event<E>>)
      returns (series: MovingWindow<(), E>)
    requires w.Valid() && w.children == [] && w.window.State() == Initial(w.window.config)
    modifies w, w.window, w.window.data
    ensures w.Valid() && w.children == [Child(op, series)] && fresh(series) && fresh(series.data)
    ensures series.config == LatestConfig(w.window.config.width, w.window.config.capacity, w.window.config.init)
    ensures w.Follows(es + later, [|es|])
  {
    w.OnAll(es, [], []);
    assert [] + es == es;
    series := w.ApplyAfter(op, es, []);
    assert [] + [|es|] == [|es|];
    w.OnAll(later, es, [|es|]);
  }

  /** The same, slot by slot: the attached object has the window's clock and the followed values. */
  method ObserveFrom<S(!new), E(!new)>(w: SeriesWindow<S, E>, es: seq<Event<E>>, op: Operation<E>, later: seq<Event<E>>)
      returns (series: MovingWindow<(), E>)
    requires w.Valid() && w.children == [] && w.window.State() == Initial(w.window.config) && later != []
    requires Ordered(es + later) && GapsFitInt(es + later, w.window.config.width)
    modifies w, w.window, w.window.data
    ensures w.Valid() && w.children == [Child(op, series)] && series.Valid() && w.window.State() == Run(w.window.config, es + later)
    ensures w.window.currentTs == later[|later| - 1].ts
    ensures Shows(op, w.window.config, series.config, es + later, |es|, w.window.config.capacity + 1, series.State(),
                  Bucket(later[|later| - 1].ts, series.config.width))
  {
    series := Attach(w, es, op, later);
    ChildShows(w, es + later, [|es|], 0);
    RunShape(w.window.config, es + later);
  }

  /** What a child of a window shows after a run. */
  lemma ChildShows<S(!new), E(!new)>(w: SeriesWindow<S, E>, es: seq<Event<E>>, attached: seq<nat>, i: nat)
    requires w.Valid() && w.Follows(es, attached) && i < |w.children| && attached[i] < |es|
    requires Ordered(es) && GapsFitInt(es, w.children[i].series.config.width)
    requires var d := w.children[i].series.config; d == LatestConfig(d.width, d.capacity, d.init) || d == CloseConfig(d.width, d.capacity, d.init)
    ensures var series := w.children[i].series;
            Shows(w.children[i].op, w.window.config, series.config, es, attached[i], w.window.config.capacity + 1, series.State(),
                  Bucket(es[|es| - 1].ts, series.config.width))
  {
    var Child(op, series) := w.children[i];
    var c, n := w.window.config, w.window.config.capacity + 1;
    DerivedStateShows(op, c, series.config, es, attached[i], n, DerivedEvents(c, es, attached[i], Observing(op, c.width, n)),
                      series.State(), Bucket(es[|es| - 1].ts, series.config.width));
  }

  /** The derived run `w` of a series: it has the clock of the run it follows, and the followed values. */
  lemma DerivedStateFollows<S, E(!new)>(c: Config<S, E>, d: Config<(), E>, es: seq<Event<E>>, attached: nat, f: Observer<S, E>,
                                        ds: seq<Event<E>>, w: Window<(), E>, now: int)
    requires c.width > 0 && d.width > 0 && attached < |es| && Ordered(es) && GapsFitInt(es, d.width)
    requires d == LatestConfig(d.width, d.capacity, d.init) || d == CloseConfig(d.width, d.capacity, d.init)
    requires ds == DerivedEvents(c, es, attached, f) && w == Run(d, ds) && now == Bucket(es[|es| - 1].ts, d.width)
    ensures |w.hist| == d.capacity && w.ts == es[|es| - 1].ts && SlotsFollow(c, d, es, attached, f, w, now)
  {
    DerivedClock(c, es, attached, f);
    DerivedRunIsOrdered(c, es, attached, f, d.width);
    LatestSlots(d, ds, w, now);
    DerivedValues(c, d, es, attached, f, ds);
    EverySlotFollows(c, d, es, attached, f, ds, w, now);
  }

  /** What an attached series shows: the clock, the followed values, and (for a sampler that resets and
      gaps that fit) the functor's values on the buckets. */
  ghost predicate Shows<S(!new), E(!new)>(op: Operation<E>, c: Config<S, E>, d: Config<(), E>, es: seq<Event<E>>, attached: nat,
                                          n: nat, w: Window<(), E>, now: int)
    requires c.width > 0 && d.width > 0 && es != []
  {
    && |w.hist| == d.capacity && w.ts == es[|es| - 1].ts
    && SlotsFollow(c, d, es, attached, Observing(op, c.width, n), w, now)
    && (Resets(c) && GapsFitInt(es, c.width) ==> SlotsHave(Computed(op, c, n), d, es, attached, w, now))
  }

  lemma DerivedStateShows<S(!new), E(!new)>(op: Operation<E>, c: Config<S, E>, d: Config<(), E>, es: seq<Event<E>>, attached: nat,
                                            n: nat, ds: seq<Event<E>>, w: Window<(), E>, now: int)
    requires c.width > 0 && d.width > 0 && attached < |es| && Ordered(es) && GapsFitInt(es, d.width) && n <= c.capacity + 1
    requires d == LatestConfig(d.width, d.capacity, d.init) || d == CloseConfig(d.width, d.capacity, d.init)
    requires ds == DerivedEvents(c, es, attached, Observing(op, c.width, n)) && w == Run(d, ds)
    requires now == Bucket(es[|es| - 1].ts, d.width)
    ensures Shows(op, c, d, es, attached, n, w, now)
  {
    DerivedStateFollows(c, d, es, attached, Observing(op, c.width, n), ds, w, now);
    if Resets(c) && GapsFitInt(es, c.width) {
      AllComputed(op, c, es, n);
      FollowingHave(Computed(op, c, n), c, d, es, attached, Observing(op, c.width, n), w, now);
    }
  }

  /** A pipeline takes some events, an indicator of its own width and capacity is added, and more events
      follow: source and indicator are the runs they should be. */
  method Indicate<S, E>(p: SequentialPipeline<S, E>, es: seq<Event<E>>, indicator: MovingWindow<(), E>,
                        calculate: (seq<Micros>, seq<E>) -> E, later: seq<Event<E>>)
    requires p.Valid() && p.list == [] && p.source.State() == Initial(p.source.config)
    requires indicator.Valid() && indicator.State() == Initial(indicator.config)
    requires indicator as object != p.source as object && indicator.data != p.source.data && indicator as object != p as object
    modifies p, p.source, p.source.data, indicator, indicator.data
    ensures p.Valid() && p.list == [Child(SampleOp(calculate), indicator)] && p.Follows(es + later, [|es|])
  {
    p.OnAll(es, [], []);
    assert [] + es == es;
    p.AddAfter(indicator, calculate, es, []);
    assert [] + [|es|] == [|es|];
    p.OnAll(later, es, [|es|]);
  }

  /** The same, slot by slot: the indicator has the source's clock, and each of its slots holds the value
      computed on the source's last capacity() - 1 samples as of the last event at or before its bucket. */
  method IndicateFrom<S(!new), E(!new)>(p: SequentialPipeline<S, E>, es: seq<Event<E>>, indicator: MovingWindow<(), E>,
                                  calculate: (seq<Micros>, seq<E>) -> E, later: seq<Event<E>>)
    requires p.Valid() && p.list == [] && p.source.State() == Initial(p.source.config) && later != []
    requires indicator.Valid() && indicator.State() == Initial(indicator.config)
    requires indicator as object != p.source as object && indicator.data != p.source.data && indicator as object != p as object
    requires var d := indicator.config; d == LatestConfig(d.width, d.capacity, d.init) || d == CloseConfig(d.width, d.capacity, d.init)
    requires Ordered(es + later) && GapsFitInt(es + later, indicator.config.width)
    modifies p, p.source, p.source.data, indicator, indicator.data
    ensures p.Valid() && indicator.Valid() && p.source.currentTs == later[|later| - 1].ts
    ensures Shows(SampleOp(calculate), p.source.config, indicator.config, es + later, |es|, p.source.config.capacity, indicator.State(),
                  Bucket(later[|later| - 1].ts, indicator.config.width))
  {
    Indicate(p, es, indicator, calculate, later);
    IndicatorShows(p, es + later, [|es|], 0);
    RunShape(p.source.config, es + later);
  }

  /** What an indicator of a pipeline shows after a run. */
  lemma IndicatorShows<S(!new), E(!new)>(p: SequentialPipeline<S, E>, es: seq<Event<E>>, attached: seq<nat>, i: nat)
    requires p.Valid() && p.Follows(es, attached) && i < |p.list| && attached[i] < |es|
    requires Ordered(es) && GapsFitInt(es, p.list[i].series.config.width)
    requires var d := p.list[i].series.config; d == LatestConfig(d.width, d.capacity, d.init) || d == CloseConfig(d.width, d.capacity, d.init)
    ensures var series := p.list[i].series;
            Shows(p.list[i].op, p.source.config, series.config, es, attached[i], p.source.config.capacity, series.State(),
                  Bucket(es[|es| - 1].ts, series.config.width))
  {
    var Child(op, series) := p.list[i];
    var c, n := p.source.config, p.source.config.capacity;
    DerivedStateShows(op, c, series.config, es, attached[i], n, DerivedEvents(c, es, attached[i], Observing(op, c.width, n)),
                      series.State(), Bucket(es[|es| - 1].ts, series.config.width));
  }
}
