/** What a moving window means: a state machine over single events, and beside it
    the bucket specification (bucket = ts / width, last value carried forward)
    that every run of the machine refines. */
module WindowSpec {
  import opened IntervalPolicy

  /** A sampler consumes its state, the value so far, the new observation and the
      "new sample period" flag; it yields its next state and the bucket's value. */
  type Sampler<!S, !E> = (S, E, E, bool) -> (S, E)

  datatype Event<E> = Event(ts: Micros, value: E)

  /** The fixed parameters of a window. */
  datatype Config<!S, !E> = Config(width: int, capacity: nat, init: E, samplerInit: S, sample: Sampler<S, E>)

  /** The mutable fields: history (oldest first), current bucket, clock, push counter, sampler. */
  datatype Window<S, E> = Window(hist: seq<E>, cur: E, ts: Micros, collected: nat, sampler: S)

  function Initial<S, E>(c: Config<S, E>): Window<S, E> {
    Window(seq(c.capacity, _ => c.init), c.init, 0, 0, c.samplerInit)
  }

  /** Pushing into a full ring drops the oldest element; a ring of capacity 0 ignores it. */
  function Push<E>(hist: seq<E>, v: E): seq<E> {
    if hist == [] then [] else hist[1..] + [v]
  }

  function PushMany<E>(hist: seq<E>, v: E, n: nat): seq<E> {
    if n == 0 then hist else Push(PushMany(hist, v, n - 1), v)
  }

  /** The `windows` local of `operator()`: zero at start-up, else the converted count. */
  function WindowsAdvanced(lastTs: Micros, ts: Micros, width: int): int
    requires width > 0
  {
    if lastTs > 0 then CountWindows(lastTs, ts, width) else 0
  }

  /** How many times the fill loop runs. */
  function Pushes(lastTs: Micros, ts: Micros, width: int): nat
    requires width > 0
  {
    var n := WindowsAdvanced(lastTs, ts, width);
    if n > 0 then n else 0
  }

  /** The flag handed to the sampler. */
  predicate OpensPeriod(lastTs: Micros, ts: Micros, width: int)
    requires width > 0
  {
    WindowsAdvanced(lastTs, ts, width) > 0 || lastTs == 0
  }

  /** The value returned by `operator()`: the count converted to size_t. */
  function Returned(lastTs: Micros, ts: Micros, width: int): nat
    requires width > 0
  {
    WindowsAdvanced(lastTs, ts, width) % U64
  }

  /** One event. */
  function Step<S, E>(c: Config<S, E>, w: Window<S, E>, e: Event<E>): Window<S, E>
    requires c.width > 0
  {
    var n := Pushes(w.ts, e.ts, c.width);
    var (s, v) := c.sample(w.sampler, w.cur, e.value, OpensPeriod(w.ts, e.ts, c.width));
    Window(PushMany(w.hist, w.cur, n), v, e.ts, w.collected + n, s)
  }

  function Run<S, E>(c: Config<S, E>, es: seq<Event<E>>): Window<S, E>
    requires c.width > 0
  {
    if es == [] then Initial(c) else Step(c, Run(c, es[..|es| - 1]), es[|es| - 1])
  }

  /** `operator[]`: 0 is the current value, -k the k-th last bucket, positive the initial value. */
  function At<S, E>(c: Config<S, E>, w: Window<S, E>, index: int): E
    requires -|w.hist| <= index
  {
    if index == 0 then w.cur else if index < 0 then w.hist[|w.hist| + index] else c.init
  }

  /** The last `n` values, the current one last. */
  function LastValues<S, E>(w: Window<S, E>, n: nat): (r: seq<E>)
    requires n <= |w.hist| + 1
    ensures |r| == n
  {
    (w.hist + [w.cur])[|w.hist| + 1 - n..]
  }

  /** The times of the last `n` buckets, the current one last. */
  function LastTimes(ts: Micros, width: int, n: nat): (r: seq<Micros>)
    requires width > 0
    ensures |r| == n
  {
    seq(n, (i: nat) requires i < n => GetTime(ts, n - 1 - i, width))
  }

  // ---------------------------------------------------------------- the bucket specification

  /** The run's timestamps are positive and never go back. */
  ghost predicate Ordered<E>(es: seq<Event<E>>) {
    && (forall i :: 0 <= i < |es| ==> es[i].ts > 0)
    && (forall i, j :: 0 <= i < j < |es| ==> es[i].ts <= es[j].ts)
  }

  /** No two consecutive events are 2^31 or more buckets apart. */
  ghost predicate GapsFitInt<E>(es: seq<Event<E>>, width: int)
    requires width > 0
  {
    forall i {:trigger es[i + 1]} :: 0 <= i < |es| - 1 ==> Bucket(es[i + 1].ts, width) - Bucket(es[i].ts, width) < TWO_31
  }

  /** Values of the events that fall in bucket `b`, in arrival order. */
  function ValuesIn<E>(es: seq<Event<E>>, width: int, b: int): seq<E>
    requires width > 0
  {
    if es == [] then [] else
      var e := es[|es| - 1];
      ValuesIn(es[..|es| - 1], width, b) + if Bucket(e.ts, width) == b then [e.value] else []
  }

  /** The sampler folded over one bucket's values: the first opens the period. */
  function Fold<S, E>(c: Config<S, E>, vs: seq<E>): (S, E)
    requires vs != []
  {
    if |vs| == 1 then c.sample(c.samplerInit, c.init, vs[0], true) else
      var (s, v) := Fold(c, vs[..|vs| - 1]);
      c.sample(s, v, vs[|vs| - 1], false)
  }

  /** The value bucket `b` closes with: its own fold if it has events, otherwise the
      previous bucket's value; the initial value before the first event. */
  ghost function SlotValue<S, E>(c: Config<S, E>, es: seq<Event<E>>, b: int): E
    requires c.width > 0
    decreases if es == [] then 0 else b - Bucket(es[0].ts, c.width) + 1
  {
    if es == [] || b < Bucket(es[0].ts, c.width) then c.init else
      var vs := ValuesIn(es, c.width, b);
      if vs != [] then Fold(c, vs).1 else SlotValue(c, es, b - 1)
  }

  /** Opening a period forgets everything before it. All the library's samplers do. */
  ghost predicate Resets<S(!new), E(!new)>(c: Config<S, E>) {
    forall s, s', l, l', v {:trigger c.sample(s, l, v, true), c.sample(s', l', v, true)} ::
      c.sample(s, l, v, true) == c.sample(s', l', v, true)
  }

  /** Event `i` opens a period: it is the first, or it comes at start-up, or it is later than the one
      before it by a number of buckets that is positive as a 32-bit int. */
  predicate OpensAt<E>(es: seq<Event<E>>, width: int, i: nat)
    requires width > 0 && i < |es|
  {
    || i == 0 || es[i - 1].ts == 0
    || (es[i - 1].ts <= es[i].ts && 1 <= (Bucket(es[i].ts, width) - Bucket(es[i - 1].ts, width)) % TWO_32 < TWO_31)
  }

  /** The last of the first `n` events that opens a period. */
  function LastOpening<E>(es: seq<Event<E>>, width: int, n: nat): (i: nat)
    requires width > 0 && 0 < n <= |es|
    ensures i < n && OpensAt(es, width, i)
    ensures forall j :: i < j < n ==> !OpensAt(es, width, j)
  {
    if OpensAt(es, width, n - 1) then n - 1 else LastOpening(es, width, n - 1)
  }

  function Values<E>(es: seq<Event<E>>): (vs: seq<E>)
    ensures |vs| == |es| && forall i :: 0 <= i < |es| ==> vs[i] == es[i].value
  {
    seq(|es|, i requires 0 <= i < |es| => es[i].value)
  }

  /** The values observed since the current period was opened, in any time order. */
  function SinceOpen<E>(es: seq<Event<E>>, width: int): (vs: seq<E>)
    requires width > 0
    ensures es != [] ==> vs != []
  {
    if es == [] then [] else Values(es[LastOpening(es, width, |es|)..])
  }

  // ---------------------------------------------------------------- ring lemmas

  lemma {:induction false} PushManyAt<E>(hist: seq<E>, v: E, n: nat)
    ensures |PushMany(hist, v, n)| == |hist|
    ensures forall i :: 0 <= i < |hist| ==>
              PushMany(hist, v, n)[i] == if i + n < |hist| then hist[i + n] else v
  {
    if n > 0 {
      PushManyAt(hist, v, n - 1);
    }
  }

  lemma {:induction false} RunShape<S, E>(c: Config<S, E>, es: seq<Event<E>>)
    requires c.width > 0
    ensures |Run(c, es).hist| == c.capacity
    ensures Run(c, es).ts == if es == [] then 0 else es[|es| - 1].ts
  {
    if es != [] {
      RunShape(c, es[..|es| - 1]);
      var w := Run(c, es[..|es| - 1]);
      PushManyAt(w.hist, w.cur, Pushes(w.ts, es[|es| - 1].ts, c.width));
    }
  }

  // ---------------------------------------------------------------- one event, spelled out

  /** By how many buckets an event moves the window on: none at start-up or if it is late, otherwise the
      distance of the buckets as a 32-bit int. */
  function Advance(lastTs: Micros, ts: Micros, width: int): int
    requires width > 0
  {
    if lastTs == 0 || ts < lastTs then 0 else
      var d := (Bucket(ts, width) - Bucket(lastTs, width)) % TWO_32;
      if d < TWO_31 then d else d - TWO_32
  }

  lemma AdvanceIsExact(lastTs: Micros, ts: Micros, width: int)
    requires width > 0
    ensures WindowsAdvanced(lastTs, ts, width) == Advance(lastTs, ts, width)
  {
    if lastTs <= ts {
      CountIsBucketDistance(lastTs, ts, width);
    }
  }

  /** Everything one event does, in any state and at any time, late or not. */
  lemma EveryStepIsExact<S, E>(c: Config<S, E>, w: Window<S, E>, e: Event<E>, a: int, n: nat)
    requires c.width > 0 && a == Advance(w.ts, e.ts, c.width) && n == if a > 0 then a else 0
    ensures var w' := Step(c, w, e);
            && w'.ts == e.ts && w'.collected == w.collected + n
            && |w'.hist| == |w.hist|
            && (forall i :: 0 <= i < |w.hist| ==> w'.hist[i] == if i + n < |w.hist| then w.hist[i + n] else w.cur)
            && (w'.sampler, w'.cur) == c.sample(w.sampler, w.cur, e.value, a > 0 || w.ts == 0)
    ensures Returned(w.ts, e.ts, c.width) == if a >= 0 then a else U64 + a
  {
    AdvanceIsExact(w.ts, e.ts, c.width);
    PushManyAt(w.hist, w.cur, n);
    WrapsNegative(a);
  }

  lemma WrapsNegative(a: int)
    requires -TWO_31 <= a < TWO_31
    ensures a % U64 == if a >= 0 then a else U64 + a
  {
  }

  /** After any run, an event that is not later than the clock, or falls in the clock's bucket, closes no
      bucket: history and counter stay, 0 is returned, and (but at start-up) it goes on with the period. */
  lemma LateEventClosesNothing<S, E>(c: Config<S, E>, es: seq<Event<E>>, e: Event<E>)
    requires c.width > 0 && es != []
    requires e.ts <= es[|es| - 1].ts || Bucket(e.ts, c.width) == Bucket(es[|es| - 1].ts, c.width)
    ensures var w, w' := Run(c, es), Run(c, es + [e]);
            && w'.hist == w.hist && w'.collected == w.collected && w'.ts == e.ts
            && (w'.sampler, w'.cur) == c.sample(w.sampler, w.cur, e.value, es[|es| - 1].ts == 0)
    ensures Returned(es[|es| - 1].ts, e.ts, c.width) == 0
  {
    var w := Run(c, es);
    RunShape(c, es);
    assert (es + [e])[..|es|] == es && Run(c, es + [e]) == Step(c, w, e);
    if e.ts == w.ts {
      assert Advance(w.ts, e.ts, c.width) == 0;
    }
    EveryStepIsExact(c, w, e, 0, 0);
  }

  // ---------------------------------------------------------------- the open period

  lemma SameOpening<E>(es: seq<Event<E>>, width: int)
    requires width > 0 && |es| >= 2
    ensures OpensAt(es, width, |es| - 1) <==> OpensPeriod(es[|es| - 2].ts, es[|es| - 1].ts, width)
  {
    AdvanceIsExact(es[|es| - 2].ts, es[|es| - 1].ts, width);
  }

  lemma {:induction false} PrefixOpening<E>(es: seq<Event<E>>, width: int, n: nat)
    requires width > 0 && 0 < n < |es|
    ensures LastOpening(es[..|es| - 1], width, n) == LastOpening(es, width, n)
  {
    assert OpensAt(es[..|es| - 1], width, n - 1) == OpensAt(es, width, n - 1);
    if !OpensAt(es, width, n - 1) {
      PrefixOpening(es, width, n - 1);
    }
  }

  lemma PeriodGoesOn<E>(es: seq<Event<E>>, before: seq<Event<E>>, width: int)
    requires width > 0 && |es| >= 2 && before == es[..|es| - 1] && !OpensAt(es, width, |es| - 1)
    ensures SinceOpen(es, width) == SinceOpen(before, width) + [es[|es| - 1].value]
  {
    PrefixOpening(es, width, |before|);
    var i := LastOpening(before, width, |before|);
    assert es[i..] == before[i..] + [es[|es| - 1]];
  }

  /** The period after one more event: opened anew by it, or gone on with. */
  lemma SinceOpenSnoc<E>(es: seq<Event<E>>, width: int)
    requires width > 0 && es != []
    ensures var before, e := es[..|es| - 1], es[|es| - 1];
            SinceOpen(es, width) == if before == [] || OpensPeriod(before[|before| - 1].ts, e.ts, width) then [e.value]
                                    else SinceOpen(before, width) + [e.value]
  {
    if |es| >= 2 {
      SameOpening(es, width);
      if !OpensAt(es, width, |es| - 1) {
        PeriodGoesOn(es, es[..|es| - 1], width);
      }
    }
  }

  /** In every order of timestamps, the current value and the sampler state are the
      fold over what was observed since the period opened. */
  lemma {:induction false} CurrentIsFoldSinceOpen<S(!new), E(!new)>(c: Config<S, E>, es: seq<Event<E>>)
    requires c.width > 0 && Resets(c) && es != []
    ensures (Run(c, es).sampler, Run(c, es).cur) == Fold(c, SinceOpen(es, c.width))
  {
    var before, e := es[..|es| - 1], es[|es| - 1];
    RunShape(c, before);
    var w := Run(c, before);
    SinceOpenSnoc(es, c.width);
    if OpensPeriod(w.ts, e.ts, c.width) {
      assert SinceOpen(es, c.width) == [e.value];
      assert c.sample(w.sampler, w.cur, e.value, true) == c.sample(c.samplerInit, c.init, e.value, true);
    } else {
      CurrentIsFoldSinceOpen(c, before);
      var vs := SinceOpen(es, c.width);
      assert vs[..|vs| - 1] == SinceOpen(before, c.width);
    }
  }

  // ---------------------------------------------------------------- bucket lemmas

  lemma OrderedPrefix<E>(es: seq<Event<E>>, n: nat)
    requires Ordered(es) && n <= |es|
    ensures Ordered(es[..n])
  {
  }

  /** Buckets after the last event's are empty. */
  lemma {:induction false} NothingAfterLast<E>(es: seq<Event<E>>, width: int, b: int)
    requires width > 0 && Ordered(es)
    requires es == [] || Bucket(es[|es| - 1].ts, width) < b
    ensures ValuesIn(es, width, b) == []
  {
    if es != [] {
      var before := es[..|es| - 1];
      if before != [] {
        BucketMonotone(before[|before| - 1].ts, es[|es| - 1].ts, width);
      }
      NothingAfterLast(before, width, b);
    }
  }

  /** In order, and with a gap that fits, an event opens a period exactly in a new bucket. */
  lemma OpensInNewBucket(lastTs: Micros, ts: Micros, width: int, b: int, b': int)
    requires width > 0 && 0 < lastTs <= ts && b == Bucket(lastTs, width) && b' == Bucket(ts, width) && b' - b < TWO_31
    ensures OpensPeriod(lastTs, ts, width) <==> b != b'
  {
    CountIsBucketDistance(lastTs, ts, width);
  }

  lemma ValuesSnoc<E>(es: seq<Event<E>>, width: int, b: int)
    requires width > 0 && es != [] && b == Bucket(es[|es| - 1].ts, width)
    ensures ValuesIn(es, width, b) == ValuesIn(es[..|es| - 1], width, b) + [es[|es| - 1].value]
  {
  }

  /** In an ordered run, the period goes on in the same bucket and opens anew in another. */
  lemma PeriodByBucket<E>(es: seq<Event<E>>, width: int, before: seq<Event<E>>, last: int, b: int)
    requires width > 0 && |es| >= 2 && before == es[..|es| - 1] && 0 < es[|es| - 2].ts <= es[|es| - 1].ts
    requires last == Bucket(es[|es| - 2].ts, width) && b == Bucket(es[|es| - 1].ts, width) && b - last < TWO_31
    ensures SinceOpen(es, width) == if last == b then SinceOpen(before, width) + [es[|es| - 1].value] else [es[|es| - 1].value]
  {
    SinceOpenSnoc(es, width);
    OpensInNewBucket(es[|es| - 2].ts, es[|es| - 1].ts, width, last, b);
  }

  /** In an ordered run, what was observed since the period opened is the last bucket. */
  lemma {:induction false} SinceOpenIsLastBucket<E>(es: seq<Event<E>>, width: int, b: int)
    requires width > 0 && Ordered(es) && GapsFitInt(es, width) && es != [] && b == Bucket(es[|es| - 1].ts, width)
    ensures SinceOpen(es, width) == ValuesIn(es, width, b)
  {
    var before := es[..|es| - 1];
    ValuesSnoc(es, width, b);
    if before == [] {
      SinceOpenSnoc(es, width);
      assert ValuesIn(before, width, b) == [];
    } else {
      var prev := es[|es| - 2];
      var last := Bucket(prev.ts, width);
      GapsPrefix(es, width);
      PeriodByBucket(es, width, before, last, b);
      if last == b {
        SinceOpenIsLastBucket(before, width, b);
      } else {
        BucketMonotone(prev.ts, es[|es| - 1].ts, width);
        NothingAfterLast(before, width, b);
      }
    }
  }

  lemma GapsPrefix<E>(es: seq<Event<E>>, width: int)
    requires width > 0 && es != [] && GapsFitInt(es, width)
    ensures GapsFitInt(es[..|es| - 1], width)
    ensures |es| >= 2 ==> Bucket(es[|es| - 1].ts, width) - Bucket(es[|es| - 2].ts, width) < TWO_31
  {
    var before := es[..|es| - 1];
    forall i {:trigger before[i + 1]} | 0 <= i < |before| - 1
      ensures Bucket(before[i + 1].ts, width) - Bucket(before[i].ts, width) < TWO_31
    {
      assert before[i + 1] == es[i + 1];
    }
    if |es| >= 2 {
      var i := |es| - 2;
      assert es[i + 1] == es[|es| - 1];
    }
  }

  /** A later event does not disturb the buckets before its own. */
  lemma {:induction false} ClosedSlotsAreFinal<S, E>(c: Config<S, E>, es: seq<Event<E>>, b: int)
    requires c.width > 0 && |es| >= 2 && b < Bucket(es[|es| - 1].ts, c.width)
    ensures SlotValue(c, es, b) == SlotValue(c, es[..|es| - 1], b)
    decreases b - Bucket(es[0].ts, c.width) + 1
  {
    var before := es[..|es| - 1];
    assert before[0] == es[0];
    assert ValuesIn(es, c.width, b) == ValuesIn(before, c.width, b);
    if b >= Bucket(es[0].ts, c.width) && ValuesIn(es, c.width, b) == [] {
      ClosedSlotsAreFinal(c, es, b - 1);
    }
  }

  /** The last event's bucket carries forward over the empty ones after it. */
  lemma {:induction false} SlotCarriesForward<S, E>(c: Config<S, E>, es: seq<Event<E>>, b: int)
    requires c.width > 0 && Ordered(es) && es != [] && Bucket(es[|es| - 1].ts, c.width) <= b
    ensures SlotValue(c, es, b) == SlotValue(c, es, Bucket(es[|es| - 1].ts, c.width))
    decreases b - Bucket(es[|es| - 1].ts, c.width)
  {
    var last := Bucket(es[|es| - 1].ts, c.width);
    if last < b {
      BucketMonotone(es[0].ts, es[|es| - 1].ts, c.width);
      NothingAfterLast(es, c.width, b);
      SlotCarriesForward(c, es, b - 1);
    }
  }

  // ---------------------------------------------------------------- refinement

  ghost predicate Refines<S, E>(c: Config<S, E>, w: Window<S, E>, es: seq<Event<E>>)
    requires c.width > 0 && es != []
  {
    var now := Bucket(es[|es| - 1].ts, c.width);
    && w.ts == es[|es| - 1].ts
    && |w.hist| == c.capacity
    && w.cur == SlotValue(c, es, now)
    && (forall i: int :: i < 0 <= c.capacity + i ==> At(c, w, i) == SlotValue(c, es, now + i))
  }

  lemma BucketStarts(ts: Micros, width: int, now: int)
    requires width > 0 && now == Bucket(ts, width)
    ensures forall k: nat :: k <= now ==> GetTime(ts, k, width) == (now - k) * width
  {
    forall k: nat | k <= now
      ensures GetTime(ts, k, width) == (now - k) * width
    {
      GetTimeIsBucketStart(ts, k, width);
    }
  }

  /** The current value is the sampler folded over the current bucket, which is what that holds. */
  lemma CurrentIsBucket<S(!new), E(!new)>(c: Config<S, E>, es: seq<Event<E>>, w: Window<S, E>, now: int)
    requires c.width > 0 && Resets(c) && es != [] && Ordered(es) && GapsFitInt(es, c.width)
    requires w == Run(c, es) && now == Bucket(es[|es| - 1].ts, c.width)
    ensures ValuesIn(es, c.width, now) != [] && w.cur == Fold(c, ValuesIn(es, c.width, now)).1 && w.cur == SlotValue(c, es, now)
  {
    CurrentIsFoldSinceOpen(c, es);
    SinceOpenIsLastBucket(es, c.width, now);
    BucketMonotone(es[0].ts, es[|es| - 1].ts, c.width);
  }

  lemma {:induction false} RunRefines<S(!new), E(!new)>(c: Config<S, E>, es: seq<Event<E>>, w: Window<S, E>, now: int)
    requires c.width > 0 && Resets(c) && es != [] && Ordered(es) && GapsFitInt(es, c.width)
    requires w == Run(c, es) && now == Bucket(es[|es| - 1].ts, c.width)
    ensures Refines(c, w, es)
    decreases |es|
  {
    RunShape(c, es);
    CurrentIsBucket(c, es, w, now);
    var before := es[..|es| - 1];
    if before == [] {
      FirstEventSlots(c, es);
    } else {
      OrderedPrefix(es, |es| - 1);
      GapsPrefix(es, c.width);
      RunRefines(c, before, Run(c, before), Bucket(before[|before| - 1].ts, c.width));
      HistoryShifts(c, es);
    }
  }

  /** Over every ordered run, index 0 is the sampler folded over the current bucket and
      index -k is the value bucket now-k closed with, for every k up to the ring size. */
  lemma WindowRefinesBuckets<S(!new), E(!new)>(c: Config<S, E>, es: seq<Event<E>>, w: Window<S, E>, now: int)
    requires c.width > 0 && Resets(c) && es != []
    requires Ordered(es) && GapsFitInt(es, c.width)
    requires w == Run(c, es) && now == Bucket(es[|es| - 1].ts, c.width)
    ensures Refines(c, w, es)
    ensures ValuesIn(es, c.width, now) != [] && w.cur == Fold(c, ValuesIn(es, c.width, now)).1
    ensures forall k: nat :: k <= now ==> GetTime(w.ts, k, c.width) == (now - k) * c.width
  {
    RunRefines(c, es, w, now);
    CurrentIsBucket(c, es, w, now);
    BucketStarts(w.ts, c.width, now);
  }

  /** The same for one slot: the state `w` of a run holds at index `i` what bucket `b` closed with. */
  lemma SlotIsFinal<S(!new), E(!new)>(c: Config<S, E>, w: Window<S, E>, es: seq<Event<E>>, i: int, b: int)
    requires c.width > 0 && Resets(c) && es != [] && Ordered(es) && GapsFitInt(es, c.width) && w == Run(c, es)
    requires i <= 0 <= c.capacity + i && b == Bucket(es[|es| - 1].ts, c.width) + i
    ensures w.ts == es[|es| - 1].ts && |w.hist| == c.capacity && At(c, w, i) == SlotValue(c, es, b)
  {
    RunRefines(c, es, w, Bucket(es[|es| - 1].ts, c.width));
  }

  /** What the copy routines deliver: slot `j` of the last `n` is a bucket's start paired with
      the value that bucket closed with. */
  lemma CopiedSlotsAreBuckets<S(!new), E(!new)>(c: Config<S, E>, es: seq<Event<E>>, n: nat, j: nat)
    requires c.width > 0 && Resets(c) && es != []
    requires Ordered(es) && GapsFitInt(es, c.width)
    requires j < n <= c.capacity + 1
    ensures |Run(c, es).hist| == c.capacity
    ensures var b := Bucket(es[|es| - 1].ts, c.width) - (n - 1 - j);
            && LastValues(Run(c, es), n)[j] == SlotValue(c, es, b)
            && LastTimes(Run(c, es).ts, c.width, n)[j] == b * c.width % U64
            && (b >= 0 ==> LastTimes(Run(c, es).ts, c.width, n)[j] == b * c.width)
  {
    RunRefines(c, es, Run(c, es), Bucket(es[|es| - 1].ts, c.width));
    CopiedSlots(c, Run(c, es), es, n, j);
  }

  lemma CopiedSlots<S, E>(c: Config<S, E>, w: Window<S, E>, es: seq<Event<E>>, n: nat, j: nat)
    requires c.width > 0 && es != [] && Refines(c, w, es) && j < n <= c.capacity + 1
    ensures var b := Bucket(es[|es| - 1].ts, c.width) - (n - 1 - j);
            && LastValues(w, n)[j] == SlotValue(c, es, b) && LastTimes(w.ts, c.width, n)[j] == b * c.width % U64
            && (b >= 0 ==> LastTimes(w.ts, c.width, n)[j] == b * c.width)
  {
    LastValueAt(c, w, n, j);
    GetTimeIsBucketStart(w.ts, n - 1 - j, c.width);
  }

  lemma LastValueAt<S, E>(c: Config<S, E>, w: Window<S, E>, n: nat, j: nat)
    requires j < n <= |w.hist| + 1
    ensures LastValues(w, n)[j] == At(c, w, j + 1 - n)
  {
  }

  lemma FirstEventSlots<S, E>(c: Config<S, E>, es: seq<Event<E>>)
    requires c.width > 0 && |es| == 1
    ensures forall i: int :: i < 0 <= c.capacity + i ==>
              At(c, Step(c, Initial(c), es[0]), i) == SlotValue(c, es, Bucket(es[0].ts, c.width) + i)
  {
  }

  /** The inductive step for the history: the pushes move every slot back by their number. */
  lemma HistoryShifts<S, E>(c: Config<S, E>, es: seq<Event<E>>)
    requires c.width > 0 && |es| >= 2 && Ordered(es) && GapsFitInt(es, c.width)
    requires Refines(c, Run(c, es[..|es| - 1]), es[..|es| - 1])
    ensures |Run(c, es).hist| == c.capacity
    ensures forall i: int :: i < 0 <= c.capacity + i ==>
              At(c, Run(c, es), i) == SlotValue(c, es, Bucket(es[|es| - 1].ts, c.width) + i)
  {
    RunShape(c, es);
    forall i: int | i < 0 <= c.capacity + i
      ensures At(c, Run(c, es), i) == SlotValue(c, es, Bucket(es[|es| - 1].ts, c.width) + i)
    {
      SlotShifts(c, es, Run(c, es[..|es| - 1]), i);
    }
  }

  lemma StepShiftsHistory<S, E>(c: Config<S, E>, w: Window<S, E>, e: Event<E>, i: int)
    requires c.width > 0 && |w.hist| == c.capacity && i < 0 <= c.capacity + i
    ensures |Step(c, w, e).hist| == c.capacity
    ensures var j := i + Pushes(w.ts, e.ts, c.width);
            At(c, Step(c, w, e), i) == if j >= 0 then w.cur else At(c, w, j)
  {
    PushManyAt(w.hist, w.cur, Pushes(w.ts, e.ts, c.width));
  }

  lemma SlotShifts<S, E>(c: Config<S, E>, es: seq<Event<E>>, w: Window<S, E>, i: int)
    requires c.width > 0 && |es| >= 2 && Ordered(es) && GapsFitInt(es, c.width)
    requires Refines(c, w, es[..|es| - 1])
    requires i < 0 <= c.capacity + i
    ensures |Step(c, w, es[|es| - 1]).hist| == c.capacity
    ensures At(c, Step(c, w, es[|es| - 1]), i) == SlotValue(c, es, Bucket(es[|es| - 1].ts, c.width) + i)
  {
    var before, e, prev := es[..|es| - 1], es[|es| - 1], es[|es| - 2];
    var now, last := Bucket(e.ts, c.width), Bucket(prev.ts, c.width);
    assert prev == before[|before| - 1];
    StepShiftsHistory(c, w, e, i);
    assert Pushes(w.ts, e.ts, c.width) == now - last by {
      GapsPrefix(es, c.width);
      CountIsBucketDistance(prev.ts, e.ts, c.width);
    }
    assert SlotValue(c, es, now + i) == SlotValue(c, before, now + i) by {
      ClosedSlotsAreFinal(c, es, now + i);
    }
    if now + i >= last {
      OrderedPrefix(es, |es| - 1);
      SlotCarriesForward(c, before, now + i);
    }
  }

  /** The push counter of an ordered run is the distance between the first and the last
      bucket, exactly when no gap overflows the int that counts windows. */
  lemma {:induction false} CollectedIsBucketSpan<S, E>(c: Config<S, E>, es: seq<Event<E>>)
    requires c.width > 0 && Ordered(es) && es != []
    ensures Run(c, es).collected <= Bucket(es[|es| - 1].ts, c.width) - Bucket(es[0].ts, c.width)
    ensures Run(c, es).collected == Bucket(es[|es| - 1].ts, c.width) - Bucket(es[0].ts, c.width)
       <==> GapsFitInt(es, c.width)
  {
    var before, e := es[..|es| - 1], es[|es| - 1];
    RunShape(c, before);
    if before != [] {
      OrderedPrefix(es, |es| - 1);
      CollectedIsBucketSpan(c, before);
      CountIsBucketDistance(before[|before| - 1].ts, e.ts, c.width);
      GapsSnoc(es, c.width);
    } else {
      assert Run(c, before) == Initial(c);
    }
  }

  lemma GapsSnoc<E>(es: seq<Event<E>>, width: int)
    requires width > 0 && |es| >= 2
    ensures GapsFitInt(es, width) <==>
            GapsFitInt(es[..|es| - 1], width) &&
            Bucket(es[|es| - 1].ts, width) - Bucket(es[|es| - 2].ts, width) < TWO_31
  {
    if GapsFitInt(es, width) {
      GapsPrefix(es, width);
    }
    var before := es[..|es| - 1];
    if GapsFitInt(before, width) && Bucket(es[|es| - 1].ts, width) - Bucket(es[|es| - 2].ts, width) < TWO_31 {
      forall i {:trigger es[i + 1]} | 0 <= i < |es| - 1
        ensures Bucket(es[i + 1].ts, width) - Bucket(es[i].ts, width) < TWO_31
      {
        if i < |es| - 2 {
          assert before[i + 1] == es[i + 1];
        }
      }
    }
  }

  /** The sum of the counts returned over a run. */
  function ReturnedTotal<E>(es: seq<Event<E>>, width: int): nat
    requires width > 0
  {
    if |es| < 2 then 0
    else ReturnedTotal(es[..|es| - 1], width) + Returned(es[|es| - 2].ts, es[|es| - 1].ts, width)
  }

  /** The counts returned over an ordered run add up to the distance between its first and last bucket. */
  lemma {:induction false} ReturnedCountsAddUp<E>(es: seq<Event<E>>, width: int)
    requires width > 0 && Ordered(es) && es != [] && GapsFitInt(es, width)
    ensures ReturnedTotal(es, width) == Bucket(es[|es| - 1].ts, width) - Bucket(es[0].ts, width)
  {
    if |es| >= 2 {
      OrderedPrefix(es, |es| - 1);
      GapsPrefix(es, width);
      var before, e := es[..|es| - 1], es[|es| - 1];
      assert before[0] == es[0] && before[|before| - 1] == es[|es| - 2];
      ReturnedCountsAddUp(before, width);
      CountIsBucketDistance(es[|es| - 2].ts, e.ts, width);
      assert Returned(es[|es| - 2].ts, e.ts, width) == Bucket(e.ts, width) - Bucket(es[|es| - 2].ts, width);
    }
  }

  /** With one-microsecond buckets, a gap of 2^31 microseconds (36 minutes) is lost: the second event of
      this run is 2^31 buckets after the first, yet nothing is pushed, its value is sampled into the
      period of the first, and 2^64 - 2^31 is returned. */
  lemma HugeGapIsLost<S, E>(c: Config<S, E>, t: Micros, v: E, v': E, es: seq<Event<E>>)
    requires c.width == 1 && 0 < t && t + TWO_31 < U64 && es == [Event(t, v), Event(t + TWO_31, v')]
    ensures Ordered(es) && Bucket(es[1].ts, 1) - Bucket(es[0].ts, 1) == TWO_31
    ensures var w, w' := Run(c, es[..1]), Run(c, es);
            && w'.hist == w.hist && w'.collected == 0
            && (w'.sampler, w'.cur) == c.sample(w.sampler, w.cur, v', false)
    ensures ReturnedTotal(es, 1) == U64 - TWO_31
  {
    var one := es[..1];
    CountIsBucketDistance(t, t + TWO_31, 1);
    assert es[..|es| - 1] == one && one[..0] == [] && ReturnedTotal(one, 1) == 0;
    assert Run(c, one) == Step(c, Initial(c), es[0]);
  }
}
