/** The textual keys of the historian, and what a lexicographic key range selects. */
module HistorianKeys {
  import opened Text
  import opened Store

  datatype Kind = IndexedValues | SessionLogs | MarketDatas | MarketDepths

  function KindText(k: Kind): (t: string)
    ensures ':' !in t
  {
    match k
    case IndexedValues => "x/event-value"
    case SessionLogs => "sessionlog"
    case MarketDatas => "mkt"
    case MarketDepths => "depth"
  }

  lemma KindTextInjective(a: Kind, b: Kind)
    requires KindText(a) == KindText(b)
    ensures a == b
  {
    assert |KindText(a)| == |KindText(b)|;
  }

  /** The part of a key before its time; `event` matters for index keys only. */
  function Header(k: Kind, symbol: string, event: string): string {
    KindText(k) + ":" + symbol + ":" + if k.IndexedValues? then event + ":" else ""
  }

  /** `KeyBuilder<...>(symbol, micros)` and `buildIndexKey(symbol, event, micros)`. */
  function TimeKey(k: Kind, symbol: string, event: string, micros: nat): string {
    Header(k, symbol, event) + Decimal(micros)
  }

  /** What a stored record was written from. */
  datatype Item =
    | DataItem(data: MarketData)
    | DepthItem(depth: MarketDepth)
    | LogItem(log: SessionLog)
    | IndexItem(symbol: string, event: string, timestamp: nat, value: Value)

  function KindOf(x: Item): Kind {
    match x
    case DataItem(_) => MarketDatas
    case DepthItem(_) => MarketDepths
    case LogItem(_) => SessionLogs
    case IndexItem(_, _, _, _) => IndexedValues
  }

  function SymbolOf(x: Item): string {
    match x
    case DataItem(d) => d.symbol
    case DepthItem(d) => d.symbol
    case LogItem(l) => l.symbol
    case IndexItem(s, _, _, _) => s
  }

  function EventOf(x: Item): string {
    if x.IndexItem? then x.event else ""
  }

  /** The time a query matches on: a session log's is its start. */
  function TimeOf(x: Item): nat {
    match x
    case DataItem(d) => d.timestamp
    case DepthItem(d) => d.timestamp
    case LogItem(l) => l.start
    case IndexItem(_, _, t, _) => t
  }

  function TimeText(x: Item): string {
    Decimal(TimeOf(x)) + if x.LogItem? then ":" + Decimal(x.log.stop) else ""
  }

  function KeyOf(x: Item): string {
    Header(KindOf(x), SymbolOf(x), EventOf(x)) + TimeText(x)
  }

  function PayloadOf(x: Item): Payload {
    match x
    case DataItem(d) => Data(d)
    case DepthItem(d) => Depth(d)
    case LogItem(l) => Session(l)
    case IndexItem(_, _, t, v) => Indexed(t, v)
  }

  ghost predicate ColonFree(x: Item) {
    ':' !in SymbolOf(x) && ':' !in EventOf(x)
  }

  // ---------------------------------------------------------------- headers

  /** A key read from its end: everything after the symbol. */
  function AfterSymbol(k: Kind, event: string, tail: string): string {
    if k.IndexedValues? then event + ":" + tail else tail
  }

  lemma HeaderFields(k: Kind, symbol: string, event: string, tail: string)
    ensures Header(k, symbol, event) + tail == KindText(k) + ":" + (symbol + ":" + AfterSymbol(k, event, tail))
  {
    var kt := KindText(k);
    if k.IndexedValues? {
      assert kt + ":" + symbol + ":" + (event + ":") + tail == kt + ":" + (symbol + ":" + (event + ":" + tail));
    } else {
      assert kt + ":" + symbol + ":" + "" + tail == kt + ":" + (symbol + ":" + tail);
    }
  }

  /** ':'-free fields can be read back from a key. */
  lemma HeaderInjective(k: Kind, symbol: string, event: string, tail: string,
                        k': Kind, symbol': string, event': string, tail': string)
    requires ':' !in symbol && ':' !in event && ':' !in symbol' && ':' !in event'
    requires Header(k, symbol, event) + tail == Header(k', symbol', event') + tail'
    ensures k == k' && symbol == symbol' && (k.IndexedValues? ==> event == event') && tail == tail'
  {
    HeaderFields(k, symbol, event, tail);
    HeaderFields(k', symbol', event', tail');
    KindsAreApart(k, symbol + ":" + AfterSymbol(k, event, tail), k', symbol' + ":" + AfterSymbol(k', event', tail'));
    FieldIsUnique(symbol, AfterSymbol(k, event, tail), symbol', AfterSymbol(k', event', tail'), ':');
    if k.IndexedValues? {
      FieldIsUnique(event, tail, event', tail', ':');
    }
  }

  /** With ':'-free fields, a key starts with a header exactly when kind, symbol and
      (for the index) event are that header's. */
  lemma HeaderIdentifies(k: Kind, symbol: string, event: string, tail: string, k': Kind, symbol': string, event': string)
    requires ':' !in symbol && ':' !in event && ':' !in symbol' && ':' !in event'
    ensures HasPrefix(Header(k, symbol, event) + tail, Header(k', symbol', event'))
       <==> k == k' && symbol == symbol' && (k.IndexedValues? ==> event == event')
  {
    var key, h' := Header(k, symbol, event) + tail, Header(k', symbol', event');
    if HasPrefix(key, h') {
      assert key == h' + key[|h'|..];
      HeaderInjective(k, symbol, event, tail, k', symbol', event', key[|h'|..]);
    }
  }

  // ---------------------------------------------------------------- ranges

  /** The half-open key range of `query`. */
  predicate InRange(key: string, start: string, stop: string) {
    !Less(key, start) && Less(key, stop)
  }

  /** Which items a symbol query is meant to select. */
  ghost predicate Selects(x: Item, k: Kind, symbol: string, event: string) {
    KindOf(x) == k && SymbolOf(x) == symbol && (k.IndexedValues? ==> EventOf(x) == event)
  }

  /** The range between two time keys selects the items of that kind, symbol and event whose
      time text lies between the two times' texts; timestamps of any length. */
  lemma RangeSelectsByText(x: Item, k: Kind, symbol: string, event: string, first: nat, last: nat)
    requires ColonFree(x) && ':' !in symbol && ':' !in event
    ensures InRange(KeyOf(x), TimeKey(k, symbol, event, first), TimeKey(k, symbol, event, last))
       <==> Selects(x, k, symbol, event) && InRange(TimeText(x), Decimal(first), Decimal(last))
  {
    var h, h' := Header(KindOf(x), SymbolOf(x), EventOf(x)), Header(k, symbol, event);
    HeaderIdentifies(KindOf(x), SymbolOf(x), EventOf(x), TimeText(x), k, symbol, event);
    if InRange(KeyOf(x), TimeKey(k, symbol, event, first), TimeKey(k, symbol, event, last)) {
      BetweenSharesPrefix(h', Decimal(first), Decimal(last), KeyOf(x));
    }
    if Selects(x, k, symbol, event) {
      assert h == h';
      LessAfterPrefix(h, TimeText(x), Decimal(first));
      LessAfterPrefix(h, TimeText(x), Decimal(last));
    }
  }

  /** The same in numbers: a time is compared with the shorter of the two scaled by a power of ten. */
  lemma RangeSelectsByNumber(x: Item, k: Kind, symbol: string, event: string, first: nat, last: nat)
    requires ColonFree(x) && ':' !in symbol && ':' !in event
    ensures InRange(KeyOf(x), TimeKey(k, symbol, event, first), TimeKey(k, symbol, event, last))
       <==> Selects(x, k, symbol, event) && !Before(TimeOf(x), first, x.LogItem?) && Before(TimeOf(x), last, x.LogItem?)
  {
    RangeSelectsByText(x, k, symbol, event, first, last);
    var tail := if x.LogItem? then ":" + Decimal(x.log.stop) else "";
    DecimalsCompareScaled(TimeOf(x), tail, first);
    DecimalsCompareScaled(TimeOf(x), tail, last);
  }

  /** With timestamps of equal decimal length the selection is by time: first <= time < last. */
  lemma RangeSelectsByTime(x: Item, k: Kind, symbol: string, event: string, first: nat, last: nat)
    requires ColonFree(x) && ':' !in symbol && ':' !in event
    requires |Decimal(TimeOf(x))| == |Decimal(first)| == |Decimal(last)|
    ensures InRange(KeyOf(x), TimeKey(k, symbol, event, first), TimeKey(k, symbol, event, last))
       <==> Selects(x, k, symbol, event) && first <= TimeOf(x) < last
  {
    RangeSelectsByText(x, k, symbol, event, first, last);
    var t, tail := Decimal(TimeOf(x)), if x.LogItem? then ":" + Decimal(x.log.stop) else "";
    LessIgnoresTail(t, tail, Decimal(first));
    LessIgnoresTail(t, tail, Decimal(last));
    DecimalOrder(TimeOf(x), first);
    DecimalOrder(TimeOf(x), last);
  }

  /** Equal length is needed: "9" is not below "10". */
  lemma ShorterTimesAreMissed(symbol: string, v: Value)
    ensures var x := DataItem(MarketData(9, symbol, "BID", v, 0));
            8 <= TimeOf(x) < 10 && !InRange(KeyOf(x), TimeKey(MarketDatas, symbol, "", 8), TimeKey(MarketDatas, symbol, "", 10))
  {
    var x := DataItem(MarketData(9, symbol, "BID", v, 0));
    assert Decimal(10) == "10" by {
      assert Decimal(1) == "1";
    }
    assert TimeText(x) == "9";
    LessAfterPrefix(Header(MarketDatas, symbol, ""), "9", "10");
  }

  /** Among the items of one query, key order is time order (ties only between session logs). */
  lemma KeyOrderIsTimeOrder(x: Item, y: Item)
    requires Less(KeyOf(x), KeyOf(y))
    requires KindOf(x) == KindOf(y) && SymbolOf(x) == SymbolOf(y) && EventOf(x) == EventOf(y)
    requires |Decimal(TimeOf(x))| == |Decimal(TimeOf(y))|
    ensures TimeOf(x) < TimeOf(y) || (x.LogItem? && TimeOf(x) == TimeOf(y))
  {
    LessAfterPrefix(Header(KindOf(x), SymbolOf(x), EventOf(x)), TimeText(x), TimeText(y));
    var tx, ty := Decimal(TimeOf(x)), Decimal(TimeOf(y));
    DecimalOrder(TimeOf(x), TimeOf(y));
    if !x.LogItem? {
      assert TimeText(x) == tx && TimeText(y) == ty;
    } else if TimeOf(y) < TimeOf(x) {
      DecimalOrder(TimeOf(y), TimeOf(x));
      LessKeepsUnderTails(ty, ":" + Decimal(y.log.stop), tx, ":" + Decimal(x.log.stop));
      LessIsTransitive(TimeText(x), TimeText(y), TimeText(x));
      LessIsIrreflexive(TimeText(x));
    }
  }

  lemma {:induction false} LessKeepsUnderTails(a: string, s: string, b: string, t: string)
    requires |a| == |b| && Less(a, b)
    ensures Less(a + s, b + t)
  {
    assert (a + s)[0] == a[0] && (b + t)[0] == b[0];
    if a[0] == b[0] {
      assert (a + s)[1..] == a[1..] + s && (b + t)[1..] == b[1..] + t;
      LessKeepsUnderTails(a[1..], s, b[1..], t);
    }
  }

  // ---------------------------------------------------------------- distinct keys

  /** What follows the last delimiter is determined by the whole. */
  lemma LastFieldIsUnique(a: string, x: string, b: string, y: string, d: char)
    requires a + [d] + x == b + [d] + y && d !in x && d !in y
    ensures a == b && x == y
  {
    var s := a + [d] + x;
    assert s[|a|] == d && s[|b|] == d;
    assert forall j :: |a| < j < |s| ==> s[j] == x[j - |a| - 1];
    assert forall j :: |b| < j < |s| ==> s[j] == y[j - |b| - 1];
    assert |a| == |b|;
    assert s[..|a|] == a && s[..|b|] == b && s[|a| + 1..] == x && s[|b| + 1..] == y;
  }

  lemma DecimalHasNoColon(n: nat)
    ensures ':' !in Decimal(n)
  {
    assert !IsDigit(':');
  }

  /** Two keys of different kinds differ. */
  lemma KindsAreApart(k: Kind, tail: string, k': Kind, tail': string)
    requires KindText(k) + ":" + tail == KindText(k') + ":" + tail'
    ensures k == k' && tail == tail'
  {
    FieldIsUnique(KindText(k), tail, KindText(k'), tail', ':');
    KindTextInjective(k, k');
  }

  /** Market data keys are injective in symbol and time, whatever the symbol. */
  lemma DataKeyInjective(s: string, t: nat, s': string, t': nat)
    ensures TimeKey(MarketDatas, s, "", t) == TimeKey(MarketDatas, s', "", t') <==> s == s' && t == t'
  {
    var k, k' := TimeKey(MarketDatas, s, "", t), TimeKey(MarketDatas, s', "", t');
    if k == k' {
      assert k == KindText(MarketDatas) + ":" + (s + ":" + Decimal(t));
      assert k' == KindText(MarketDatas) + ":" + (s' + ":" + Decimal(t'));
      KindsAreApart(MarketDatas, s + ":" + Decimal(t), MarketDatas, s' + ":" + Decimal(t'));
      DecimalHasNoColon(t);
      DecimalHasNoColon(t');
      LastFieldIsUnique(s, Decimal(t), s', Decimal(t'), ':');
      DecimalInjective(t, t');
    }
  }

  /** Index keys coincide exactly when the times are equal and symbol:event reads the same;
      a ':' in a symbol can therefore merge two indexes. */
  lemma IndexKeyCollisions(s: string, e: string, t: nat, s': string, e': string, t': nat)
    ensures TimeKey(IndexedValues, s, e, t) == TimeKey(IndexedValues, s', e', t')
       <==> s + ":" + e == s' + ":" + e' && t == t'
  {
    var k, k' := TimeKey(IndexedValues, s, e, t), TimeKey(IndexedValues, s', e', t');
    var x, x' := s + ":" + e, s' + ":" + e';
    assert k == KindText(IndexedValues) + ":" + (x + ":" + Decimal(t));
    assert k' == KindText(IndexedValues) + ":" + (x' + ":" + Decimal(t'));
    if k == k' {
      KindsAreApart(IndexedValues, x + ":" + Decimal(t), IndexedValues, x' + ":" + Decimal(t'));
      DecimalHasNoColon(t);
      DecimalHasNoColon(t');
      LastFieldIsUnique(x, Decimal(t), x', Decimal(t'), ':');
      DecimalInjective(t, t');
    }
  }
}
