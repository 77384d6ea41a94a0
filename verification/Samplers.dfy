/** The library's samplers. `avg` and `open` keep state between calls; the window
    threads that state through its sampler field. */
module Samplers {
  import opened WindowSpec

  datatype AvgState = AvgState(count: nat, sum: real)
  datatype OpenState = OpenState(open: real, init: bool)

  function Latest<E>(s: (), last: E, now: E, newPeriod: bool): ((), E) {
    ((), now)
  }

  function Close<E>(s: (), last: E, now: E, newPeriod: bool): ((), E) {
    ((), now)
  }

  function Max(s: (), last: real, now: real, newPeriod: bool): ((), real) {
    ((), if newPeriod then now else if last < now then now else last)
  }

  function Min(s: (), last: real, now: real, newPeriod: bool): ((), real) {
    ((), if newPeriod then now else if now < last then now else last)
  }

  function Open(s: OpenState, last: real, now: real, newPeriod: bool): (OpenState, real) {
    var s1 := if newPeriod then OpenState(now, true) else s;
    var s2 := if !s1.init then OpenState(now, true) else s1;
    (s2, s2.open)
  }

  function Avg(s: AvgState, last: real, now: real, newPeriod: bool): (AvgState, real) {
    var count := if newPeriod then 0 else s.count;
    var sum := if count == 0 then now else s.sum + now;
    (AvgState(count + 1, sum), sum / (count + 1) as real)
  }

  function LatestConfig<E>(width: int, capacity: nat, init: E): Config<(), E> {
    Config(width, capacity, init, (), Latest<E>)
  }

  function CloseConfig<E>(width: int, capacity: nat, init: E): Config<(), E> {
    Config(width, capacity, init, (), Close<E>)
  }

  function MaxConfig(width: int, capacity: nat, init: real): Config<(), real> {
    Config(width, capacity, init, (), Max)
  }

  function MinConfig(width: int, capacity: nat, init: real): Config<(), real> {
    Config(width, capacity, init, (), Min)
  }

  /** The fields `open_` and `sum` are uninitialised until first written; any value will do. */
  function OpenConfig(width: int, capacity: nat, init: real): Config<OpenState, real> {
    Config(width, capacity, init, OpenState(0.0, false), Open)
  }

  function AvgConfig(width: int, capacity: nat, init: real): Config<AvgState, real> {
    Config(width, capacity, init, AvgState(0, 0.0), Avg)
  }

  lemma LatestResets<E(!new)>(width: int, capacity: nat, init: E)
    ensures Resets(LatestConfig(width, capacity, init)) && Resets(CloseConfig(width, capacity, init))
  {
  }

  lemma AllReset(width: int, capacity: nat, init: real)
    ensures Resets(LatestConfig(width, capacity, init))
    ensures Resets(CloseConfig(width, capacity, init))
    ensures Resets(MaxConfig(width, capacity, init))
    ensures Resets(MinConfig(width, capacity, init))
    ensures Resets(OpenConfig(width, capacity, init))
    ensures Resets(AvgConfig(width, capacity, init))
  {
  }

  ghost predicate IsMax(m: real, vs: seq<real>) {
    m in vs && forall i :: 0 <= i < |vs| ==> vs[i] <= m
  }

  ghost predicate IsMin(m: real, vs: seq<real>) {
    m in vs && forall i :: 0 <= i < |vs| ==> m <= vs[i]
  }

  function Sum(vs: seq<real>): real {
    if vs == [] then 0.0 else Sum(vs[..|vs| - 1]) + vs[|vs| - 1]
  }

  lemma {:induction false} MaxFold(width: int, capacity: nat, init: real, vs: seq<real>)
    requires vs != []
    ensures IsMax(Fold(MaxConfig(width, capacity, init), vs).1, vs)
  {
    if |vs| > 1 {
      MaxFold(width, capacity, init, vs[..|vs| - 1]);
    }
  }

  lemma {:induction false} MinFold(width: int, capacity: nat, init: real, vs: seq<real>)
    requires vs != []
    ensures IsMin(Fold(MinConfig(width, capacity, init), vs).1, vs)
  {
    if |vs| > 1 {
      MinFold(width, capacity, init, vs[..|vs| - 1]);
    }
  }

  lemma {:induction false} OpenFold(width: int, capacity: nat, init: real, vs: seq<real>)
    requires vs != []
    ensures Fold(OpenConfig(width, capacity, init), vs) == (OpenState(vs[0], true), vs[0])
  {
    if |vs| > 1 {
      OpenFold(width, capacity, init, vs[..|vs| - 1]);
    }
  }

  lemma {:induction false} LatestFold<E>(width: int, capacity: nat, init: E, vs: seq<E>)
    requires vs != []
    ensures Fold(LatestConfig(width, capacity, init), vs).1 == vs[|vs| - 1]
    ensures Fold(CloseConfig(width, capacity, init), vs).1 == vs[|vs| - 1]
  {
    if |vs| > 1 {
      LatestFold(width, capacity, init, vs[..|vs| - 1]);
    }
  }

  /** `avg` is the exact mean of the values since the period opened. */
  lemma {:induction false} AvgFold(width: int, capacity: nat, init: real, vs: seq<real>)
    requires vs != []
    ensures Fold(AvgConfig(width, capacity, init), vs) == (AvgState(|vs|, Sum(vs)), Sum(vs) / |vs| as real)
  {
    if |vs| == 1 {
      assert vs[..0] == [];
      assert Sum(vs) == vs[0];
    } else {
      AvgFold(width, capacity, init, vs[..|vs| - 1]);
    }
  }

  /** The mean lies between any lower and any upper bound of the values. */
  lemma {:induction false} SumIsBounded(vs: seq<real>, low: real, high: real)
    requires forall i :: 0 <= i < |vs| ==> low <= vs[i] <= high
    ensures low * |vs| as real <= Sum(vs) <= high * |vs| as real
  {
    if vs != [] {
      SumIsBounded(vs[..|vs| - 1], low, high);
      var n := (|vs| - 1) as real;
      assert low * (n + 1.0) == low * n + low;
      assert high * (n + 1.0) == high * n + high;
    }
  }

  lemma QuotientIsBounded(total: real, n: real, low: real, high: real)
    requires n > 0.0 && low * n <= total <= high * n
    ensures low <= total / n <= high
  {
    var q := total / n;
    assert q * n == total;
  }

  lemma MeanIsBounded(vs: seq<real>, low: real, high: real)
    requires vs != [] && IsMin(low, vs) && IsMax(high, vs)
    ensures low <= Sum(vs) / |vs| as real <= high
  {
    SumIsBounded(vs, low, high);
    QuotientIsBounded(Sum(vs), |vs| as real, low, high);
  }
}
