/** Writing to and querying the historian database. */
module HistorianDb {
  import opened Text
  import opened Store
  import opened HistorianKeys

  // ---------------------------------------------------------------- writes

  datatype Write =
    | WriteData(data: MarketData, overwrite: bool)
    | WriteDepth(depth: MarketDepth, overwrite: bool)
    | WriteLog(log: SessionLog, overwrite: bool)

  /** What is written first, under the key that decides whether the write is accepted. */
  function Primary(w: Write): Item {
    match w
    case WriteData(d, _) => DataItem(d)
    case WriteDepth(d, _) => DepthItem(d)
    case WriteLog(l, _) => LogItem(l)
  }

  function IndexOf(d: MarketData): Item {
    IndexItem(d.symbol, d.event, d.timestamp, d.value)
  }

  function PutItem(s: seq<Entry>, x: Item): seq<Entry> {
    Put(s, KeyOf(x), Encoded(PayloadOf(x)))
  }

  predicate Accepts(s: seq<Entry>, w: Write) {
    w.overwrite || Get(s, KeyOf(Primary(w))) == None
  }

  /** One write: the primary record and, for market data, its index entry in the same batch. */
  function Apply(s: seq<Entry>, w: Write): seq<Entry> {
    if !Accepts(s, w) then s
    else if w.WriteData? then PutItem(PutItem(s, Primary(w)), IndexOf(w.data))
    else PutItem(s, Primary(w))
  }

  function ApplyAll(ws: seq<Write>): seq<Entry> {
    if ws == [] then [] else Apply(ApplyAll(ws[..|ws| - 1]), ws[|ws| - 1])
  }

  /** The entry was written from `x`. */
  ghost predicate Holds(e: Entry, x: Item) {
    ColonFree(x) && e.key == KeyOf(x) && e.blob == Encoded(PayloadOf(x))
  }

  ghost predicate Held(e: Entry) {
    exists x :: Holds(e, x)
  }

  /** Every entry was written from some item with ':'-free fields. */
  ghost predicate FromItems(s: seq<Entry>) {
    Sorted(s) && forall i :: 0 <= i < |s| ==> Held(s[i])
  }

  ghost predicate ColonFreeWrite(w: Write) {
    ColonFree(Primary(w)) && (w.WriteData? ==> ':' !in w.data.event)
  }

  lemma PutItemKeeps(s: seq<Entry>, x: Item)
    requires FromItems(s) && ColonFree(x)
    ensures FromItems(PutItem(s, x))
  {
    var blob := Encoded(PayloadOf(x));
    var s' := Put(s, KeyOf(x), blob);
    PutKeepsSorted(s, KeyOf(x), blob);
    PutEntries(s, KeyOf(x), blob);
    forall i | 0 <= i < |s'|
      ensures Held(s'[i])
    {
      assert s'[i] in s';
      if s'[i] == Entry(KeyOf(x), blob) {
        assert Holds(s'[i], x);
      } else {
        var k :| 0 <= k < |s| && s[k] == s'[i];
        assert Held(s[k]);
      }
    }
  }

  /** Stores reached by writes of every kind satisfy the query theorem's hypothesis. */
  lemma {:induction false} WritesKeepItems(ws: seq<Write>)
    requires forall i :: 0 <= i < |ws| ==> ColonFreeWrite(ws[i])
    ensures FromItems(ApplyAll(ws))
  {
    if ws != [] {
      var w, s := ws[|ws| - 1], ApplyAll(ws[..|ws| - 1]);
      WritesKeepItems(ws[..|ws| - 1]);
      if Accepts(s, w) {
        PutItemKeeps(s, Primary(w));
        if w.WriteData? {
          PutItemKeeps(PutItem(s, Primary(w)), IndexOf(w.data));
        }
      }
    }
  }

  // ---------------------------------------------------------------- the scan

  /** The entries from index `k` on whose keys lie in the range, in order. */
  function RangeFrom(s: seq<Entry>, start: string, stop: string, k: nat): seq<Entry>
    requires k <= |s|
    decreases |s| - k
  {
    if k == |s| then [] else (if InRange(s[k].key, start, stop) then [s[k]] else []) + RangeFrom(s, start, stop, k + 1)
  }

  /** The entries whose keys lie in the range, in key order. */
  function RangeOf(s: seq<Entry>, start: string, stop: string): seq<Entry> {
    RangeFrom(s, start, stop, 0)
  }

  /** The records a visitor that never stops is shown. */
  function Records(es: seq<Entry>): seq<Record> {
    if es == [] then [] else
      Records(es[..|es| - 1]) +
      match es[|es| - 1].blob
      case Encoded(p) => [Record(es[|es| - 1].key, p)]
      case Unparsable => []
  }

  /** A visitor, stateful or not: what it answers after being shown these records. */
  type Visitor = seq<Record> -> bool

  /** The visitor was shown the record of each of the first `count` entries that has one, and said to go on. */
  ghost predicate AllowedFirst(es: seq<Entry>, visit: Visitor, count: nat)
    requires count <= |es|
  {
    count > 0 ==> AllowedFirst(es, visit, count - 1) && (es[count - 1].blob.Encoded? ==> visit(Records(es[..count])))
  }

  /** How a scan of `es` that passed `count` keys and showed `visited` came to its end: either it
      passed every key, or the visitor stopped it on the record of the next key. */
  ghost predicate IsScan(es: seq<Entry>, visit: Visitor, count: nat, visited: seq<Record>) {
    && count <= |es|
    && AllowedFirst(es, visit, count)
    && if count == |es| then visited == Records(es)
       else visited == Records(es[..count + 1]) && es[count].blob.Encoded? && !visit(visited)
  }

  lemma RecordsSnoc(es: seq<Entry>, m: nat)
    requires m < |es|
    ensures Records(es[..m + 1]) == Records(es[..m]) +
            match es[m].blob case Encoded(p) => [Record(es[m].key, p)] case Unparsable => []
  {
    assert es[..m + 1][..m] == es[..m];
  }

  lemma {:induction false} MembersFrom(s: seq<Entry>, start: string, stop: string, k: nat, e: Entry)
    requires k <= |s|
    ensures e in RangeFrom(s, start, stop, k) <==> e in s[k..] && InRange(e.key, start, stop)
    decreases |s| - k
  {
    if k < |s| {
      MembersFrom(s, start, stop, k + 1, e);
      assert s[k..] == [s[k]] + s[k + 1..];
    }
  }

  lemma RangeMembers(s: seq<Entry>, start: string, stop: string, e: Entry)
    ensures e in RangeOf(s, start, stop) <==> e in s && InRange(e.key, start, stop)
  {
    MembersFrom(s, start, stop, 0, e);
    assert s[0..] == s;
  }

  lemma {:induction false} RangeIsSorted(s: seq<Entry>, start: string, stop: string, k: nat)
    requires Sorted(s) && k <= |s|
    ensures Sorted(RangeFrom(s, start, stop, k))
    decreases |s| - k
  {
    if k < |s| {
      RangeIsSorted(s, start, stop, k + 1);
      var rest := RangeFrom(s, start, stop, k + 1);
      forall j | 0 <= j < |rest| ensures Less(s[k].key, rest[j].key) {
        MembersFrom(s, start, stop, k + 1, rest[j]);
      }
    }
  }

  lemma {:induction false} NoneUntil(s: seq<Entry>, start: string, stop: string, k: nat, i: nat)
    requires k <= i <= |s| && forall m :: k <= m < i ==> !InRange(s[m].key, start, stop)
    ensures RangeFrom(s, start, stop, k) == RangeFrom(s, start, stop, i)
    decreases i - k
  {
    if k < i {
      NoneUntil(s, start, stop, k + 1, i);
    }
  }

  lemma {:induction false} AllUntil(s: seq<Entry>, start: string, stop: string, k: nat, j: nat)
    requires k <= j <= |s| && forall m :: k <= m < j ==> InRange(s[m].key, start, stop)
    requires RangeFrom(s, start, stop, j) == []
    ensures RangeFrom(s, start, stop, k) == s[k..j]
    decreases j - k
  {
    if k < j {
      AllUntil(s, start, stop, k + 1, j);
      assert s[k..j] == [s[k]] + s[k + 1..j];
    }
  }

  lemma BeyondStop(s: seq<Entry>, stop: string, j: nat)
    requires Sorted(s) && j <= |s| && (j < |s| ==> !Less(s[j].key, stop))
    ensures forall k :: j <= k < |s| ==> !Less(s[k].key, stop)
  {
    forall k | j <= k < |s| ensures !Less(s[k].key, stop) {
      if k > j && Less(s[k].key, stop) {
        LessIsTransitive(s[j].key, s[k].key, stop);
      }
    }
  }

  /** Seeking to the first key not below `start`, then reading while below `stop`, reads the range. */
  lemma RangeIsContiguous(s: seq<Entry>, start: string, stop: string, i: nat, j: nat)
    requires Sorted(s) && i <= j <= |s|
    requires forall k :: 0 <= k < i ==> Less(s[k].key, start)
    requires forall k :: i <= k < j ==> InRange(s[k].key, start, stop)
    requires j < |s| ==> !Less(s[j].key, stop)
    ensures RangeOf(s, start, stop) == s[i..j]
  {
    BeyondStop(s, stop, j);
    NoneUntil(s, start, stop, 0, i);
    NoneUntil(s, start, stop, j, |s|);
    AllUntil(s, start, stop, i, j);
  }

  /** The first `i` records of a scan end with some entry. */
  lemma {:induction false} RecordHasEntry(es: seq<Entry>, i: nat) returns (j: nat)
    requires 0 < i <= |Records(es)|
    ensures j < |es| && es[j].blob.Encoded? && Records(es[..j + 1]) == Records(es)[..i]
    decreases |es|
  {
    var n := |es| - 1;
    RecordsSnoc(es, n);
    assert es[..n + 1] == es;
    if i == |Records(es)| && es[n].blob.Encoded? {
      j := n;
    } else {
      j := RecordHasEntry(es[..n], i);
      assert es[..n][..j + 1] == es[..j + 1];
    }
  }

  lemma {:induction false} RecordsGrow(es: seq<Entry>, m: nat)
    requires m <= |es|
    ensures Records(es[..m]) <= Records(es)
    decreases |es| - m
  {
    if m < |es| {
      RecordsSnoc(es, m);
      RecordsGrow(es, m + 1);
    } else {
      assert es[..m] == es;
    }
  }

  lemma {:induction false} AllowedAt(es: seq<Entry>, visit: Visitor, count: nat, j: nat)
    requires j < count <= |es| && AllowedFirst(es, visit, count) && es[j].blob.Encoded?
    ensures visit(Records(es[..j + 1]))
  {
    if j < count - 1 {
      AllowedAt(es, visit, count - 1, j);
    }
  }

  /** A visitor that stops sees a prefix; it sees everything exactly when it refuses no record before
      the last. */
  lemma ScanIsPrefix(es: seq<Entry>, visit: Visitor, count: nat, visited: seq<Record>)
    requires IsScan(es, visit, count, visited)
    ensures visited <= Records(es)
    ensures visited == Records(es) <==> forall i :: 0 < i < |Records(es)| ==> visit(Records(es)[..i])
  {
    var all := Records(es);
    assert es[..|es|] == es;
    RecordsGrow(es, if count == |es| then count else count + 1);
    if visited == all {
      forall i | 0 < i < |all|
        ensures visit(all[..i])
      {
        var j := RecordHasEntry(es, i);
        if count < |es| {
          RecordsInOrder(es, count + 1, j + 1);
        }
        AllowedAt(es, visit, count, j);
      }
    } else {
      RecordsSnoc(es, count);
      assert visited == all[..|visited|] && 0 < |visited| < |all| && !visit(all[..|visited|]);
    }
  }

  lemma RecordsInOrder(es: seq<Entry>, a: nat, b: nat)
    requires a <= |es| && b <= |es|
    ensures a <= b ==> |Records(es[..a])| <= |Records(es[..b])|
  {
    if a <= b {
      RecordsGrow(es[..b], a);
      assert es[..b][..a] == es[..a];
    }
  }

  // ---------------------------------------------------------------- the query theorem

  datatype SymbolQuery = SymbolQuery(kind: Kind, symbol: string, first: nat, last: nat, index: Option<string>)

  /** The key range `Db::Query(QueryBySymbol)` scans, or None when it returns 0 at once. */
  function RangeFor(q: SymbolQuery): Option<(string, string)> {
    match q.index
    case Some(event) => Some((TimeKey(q.kind, q.symbol, event, q.first), TimeKey(q.kind, q.symbol, event, q.last)))
    case None =>
      if q.kind.IndexedValues? then None
      else Some((TimeKey(q.kind, q.symbol, "", q.first), TimeKey(q.kind, q.symbol, "", q.last)))
  }

  ghost predicate Answers(x: Item, q: SymbolQuery) {
    && KindOf(x) == q.kind && SymbolOf(x) == q.symbol
    && (q.kind.IndexedValues? ==> q.index == Some(EventOf(x)))
    && q.first <= TimeOf(x) < q.last
  }

  ghost predicate ColonFreeQuery(q: SymbolQuery) {
    ':' !in q.symbol && (q.index.Some? ==> ':' !in q.index.value)
  }

  /** The entries a symbol query scans. */
  function Scanned(s: seq<Entry>, q: SymbolQuery): seq<Entry> {
    match RangeFor(q)
    case None => []
    case Some((start, stop)) => RangeOf(s, start, stop)
  }

  /** What a symbol query selects, for times of any decimal length. */
  ghost predicate AnswersScaled(x: Item, q: SymbolQuery) {
    && KindOf(x) == q.kind && SymbolOf(x) == q.symbol
    && (q.kind.IndexedValues? ==> q.index == Some(EventOf(x)))
    && !Before(TimeOf(x), q.first, x.LogItem?) && Before(TimeOf(x), q.last, x.LogItem?)
  }

  /** A symbol query over a store of mixed kinds scans exactly the entries of its kind, symbol (and
      event, for the index) whose scaled times lie in the range. */
  lemma SymbolQueryScans(s: seq<Entry>, q: SymbolQuery, e: Entry, x: Item)
    requires FromItems(s) && ColonFreeQuery(q) && Holds(e, x)
    ensures e in Scanned(s, q) <==> e in s && AnswersScaled(x, q)
  {
    var event := if q.index.Some? then q.index.value else "";
    RangeSelectsByNumber(x, q.kind, q.symbol, event, q.first, q.last);
    if RangeFor(q).Some? {
      var (start, stop) := RangeFor(q).value;
      assert start == TimeKey(q.kind, q.symbol, event, q.first) by {
        HeaderIgnoresEvent(q.kind, q.symbol, event);
      }
      assert stop == TimeKey(q.kind, q.symbol, event, q.last) by {
        HeaderIgnoresEvent(q.kind, q.symbol, event);
      }
      RangeMembers(s, start, stop, e);
    }
  }

  /** With times of equal decimal length, those are the entries with first <= time < last. */
  lemma SymbolQueryIsExact(s: seq<Entry>, q: SymbolQuery, e: Entry, x: Item)
    requires FromItems(s) && ColonFreeQuery(q) && Holds(e, x)
    requires |Decimal(TimeOf(x))| == |Decimal(q.first)| == |Decimal(q.last)|
    ensures e in Scanned(s, q) <==> e in s && Answers(x, q)
  {
    SymbolQueryScans(s, q, e, x);
  }

  lemma HeaderIgnoresEvent(k: Kind, symbol: string, event: string)
    ensures !k.IndexedValues? ==> Header(k, symbol, event) == Header(k, symbol, "")
  {
  }

  /** The scan is in time order; only session logs may share a time. */
  lemma SymbolQueryIsInTimeOrder(s: seq<Entry>, q: SymbolQuery, i: nat, j: nat, x: Item, y: Item)
    requires FromItems(s) && ColonFreeQuery(q) && i < j < |Scanned(s, q)|
    requires Holds(Scanned(s, q)[i], x) && Holds(Scanned(s, q)[j], y)
    requires |Decimal(TimeOf(x))| == |Decimal(TimeOf(y))| == |Decimal(q.first)| == |Decimal(q.last)|
    ensures TimeOf(x) < TimeOf(y) || (q.kind.SessionLogs? && TimeOf(x) == TimeOf(y))
  {
    var es := Scanned(s, q);
    SymbolQueryIsExact(s, q, es[i], x);
    SymbolQueryIsExact(s, q, es[j], y);
    RangeIsSorted(s, RangeFor(q).value.0, RangeFor(q).value.1, 0);
    KeyOrderIsTimeOrder(x, y);
  }

  lemma {:induction false} RecordsAreEntries(es: seq<Entry>)
    requires forall i :: 0 <= i < |es| ==> es[i].blob.Encoded?
    ensures |Records(es)| == |es|
    ensures forall i :: 0 <= i < |es| ==> Records(es)[i] == Record(es[i].key, es[i].blob.payload)
  {
    if es != [] {
      RecordsAreEntries(es[..|es| - 1]);
    }
  }

  /** Over a store reached by any writes of any kinds, the records a symbol query shows are
      exactly those of its kind, symbol (and event) in its time range; it shows one for each key it
      passes. */
  lemma SymbolQueryVisits(ws: seq<Write>, q: SymbolQuery, x: Item)
    requires forall i :: 0 <= i < |ws| ==> ColonFreeWrite(ws[i])
    requires ColonFreeQuery(q) && ColonFree(x)
    requires |Decimal(TimeOf(x))| == |Decimal(q.first)| == |Decimal(q.last)|
    ensures var s := ApplyAll(ws);
            && |Records(Scanned(s, q))| == |Scanned(s, q)|
            && (Record(KeyOf(x), PayloadOf(x)) in Records(Scanned(s, q)) <==>
                Get(s, KeyOf(x)) == Some(Encoded(PayloadOf(x))) && Answers(x, q))
  {
    var s := ApplyAll(ws);
    var es, e := Scanned(s, q), Entry(KeyOf(x), Encoded(PayloadOf(x)));
    WritesKeepItems(ws);
    forall i | 0 <= i < |es|
      ensures es[i].blob.Encoded?
    {
      RangeMembers(s, RangeFor(q).value.0, RangeFor(q).value.1, es[i]);
      assert Held(es[i]);
    }
    RecordsAreEntries(es);
    SymbolQueryIsExact(s, q, e, x);
    GetFindsEntry(s, e);
    var rs, r := Records(es), Record(KeyOf(x), PayloadOf(x));
    if r in rs {
      var i :| 0 <= i < |rs| && rs[i] == r;
      assert es[i] == e;
    }
    if e in es {
      var i :| 0 <= i < |es| && es[i] == e;
      assert rs[i] == r;
    }
  }

  // ---------------------------------------------------------------- the index

  /** Some earlier write of market data has this symbol and time. */
  ghost predicate Taken(ws: seq<Write>, symbol: string, t: nat) {
    exists i :: 0 <= i < |ws| && ws[i].WriteData? && ws[i].data.symbol == symbol && ws[i].data.timestamp == t
  }

  /** The last write of `ws` is accepted: it may overwrite, or nothing is there yet. */
  ghost predicate LastAccepted(ws: seq<Write>)
    requires ws != [] && ws[|ws| - 1].WriteData?
  {
    var w := ws[|ws| - 1];
    w.overwrite || !Taken(ws[..|ws| - 1], w.data.symbol, w.data.timestamp)
  }

  /** Last-write-wins over the accepted writes, per symbol and time. */
  ghost function LastData(ws: seq<Write>, symbol: string, t: nat): Option<MarketData> {
    if ws == [] then None else
      var w := ws[|ws| - 1];
      if w.WriteData? && w.data.symbol == symbol && w.data.timestamp == t && LastAccepted(ws) then Some(w.data)
      else LastData(ws[..|ws| - 1], symbol, t)
  }

  /** An index key's symbol and event as it spells them. */
  function EventText(symbol: string, event: string): string {
    symbol + ":" + event
  }

  function TextOf(d: MarketData): string {
    EventText(d.symbol, d.event)
  }

  /** Last-write-wins over the accepted writes, per spelled symbol and event, and time. */
  ghost function LastIndexed(ws: seq<Write>, text: string, t: nat): Option<Value> {
    if ws == [] then None else
      var w := ws[|ws| - 1];
      if w.WriteData? && TextOf(w.data) == text && w.data.timestamp == t && LastAccepted(ws)
      then Some(w.data.value)
      else LastIndexed(ws[..|ws| - 1], text, t)
  }

  /** No two symbols spell an index key alike. */
  ghost predicate NoMerge(ws: seq<Write>) {
    forall i, j :: 0 <= i < |ws| && 0 <= j < |ws| && ws[i].WriteData? && ws[j].WriteData?
      && TextOf(ws[i].data) == TextOf(ws[j].data) && ws[i].data.timestamp == ws[j].data.timestamp
      ==> ws[i].data.symbol == ws[j].data.symbol
  }

  /** Symbols without ':' never merge, whatever the events. */
  lemma ColonFreeSymbolsDoNotMerge(ws: seq<Write>)
    requires forall i :: 0 <= i < |ws| && ws[i].WriteData? ==> ':' !in ws[i].data.symbol
    ensures NoMerge(ws)
  {
    forall i, j | 0 <= i < |ws| && 0 <= j < |ws| && ws[i].WriteData? && ws[j].WriteData?
                  && TextOf(ws[i].data) == TextOf(ws[j].data)
      ensures ws[i].data.symbol == ws[j].data.symbol
    {
      var d, d' := ws[i].data, ws[j].data;
      FieldIsUnique(d.symbol, d.event, d'.symbol, d'.event, ':');
    }
  }

  function DataKey(symbol: string, t: nat): string { TimeKey(MarketDatas, symbol, "", t) }
  function IndexKey(symbol: string, event: string, t: nat): string { TimeKey(IndexedValues, symbol, event, t) }

  lemma {:induction false} WritesAreSorted(ws: seq<Write>)
    ensures Sorted(ApplyAll(ws))
  {
    if ws != [] {
      var w, s := ws[|ws| - 1], ApplyAll(ws[..|ws| - 1]);
      WritesAreSorted(ws[..|ws| - 1]);
      PutKeepsSorted(s, KeyOf(Primary(w)), Encoded(PayloadOf(Primary(w))));
      if w.WriteData? {
        PutKeepsSorted(PutItem(s, Primary(w)), KeyOf(IndexOf(w.data)), Encoded(PayloadOf(IndexOf(w.data))));
      }
    }
  }

  /** Keys of different kinds never coincide. */
  lemma ItemKeysApart(x: Item, k: Kind, symbol: string, event: string, t: nat)
    requires KindOf(x) != k
    ensures KeyOf(x) != TimeKey(k, symbol, event, t)
  {
    HeaderFields(KindOf(x), SymbolOf(x), EventOf(x), TimeText(x));
    HeaderFields(k, symbol, event, Decimal(t));
    if KeyOf(x) == TimeKey(k, symbol, event, t) {
      KindsAreApart(KindOf(x), SymbolOf(x) + ":" + AfterSymbol(KindOf(x), EventOf(x), TimeText(x)),
                    k, symbol + ":" + AfterSymbol(k, event, Decimal(t)));
    }
  }

  /** What one write changes under a key. */
  lemma GetAfterApply(s: seq<Entry>, w: Write, k: string)
    requires Sorted(s)
    ensures Get(Apply(s, w), k) ==
            if Accepts(s, w) && w.WriteData? && k == KeyOf(IndexOf(w.data)) then Some(Encoded(PayloadOf(IndexOf(w.data))))
            else if Accepts(s, w) && k == KeyOf(Primary(w)) then Some(Encoded(PayloadOf(Primary(w))))
            else Get(s, k)
  {
    var x := Primary(w);
    GetAfterPut(s, KeyOf(x), Encoded(PayloadOf(x)), k);
    PutKeepsSorted(s, KeyOf(x), Encoded(PayloadOf(x)));
    if w.WriteData? {
      var y := IndexOf(w.data);
      GetAfterPut(PutItem(s, x), KeyOf(y), Encoded(PayloadOf(y)), k);
    }
  }

  lemma DataItemKey(d: MarketData)
    ensures KeyOf(DataItem(d)) == DataKey(d.symbol, d.timestamp)
    ensures KeyOf(IndexOf(d)) == IndexKey(d.symbol, d.event, d.timestamp)
  {
    assert Decimal(d.timestamp) + "" == Decimal(d.timestamp);
  }

  /** The primary record of a symbol and time is the last accepted write's, and a write that may
      not overwrite is accepted exactly when there is none. */
  lemma {:induction false} PrimaryIsLastWrite(ws: seq<Write>, symbol: string, t: nat)
    ensures Get(ApplyAll(ws), DataKey(symbol, t)) ==
            match LastData(ws, symbol, t) case None => None case Some(d) => Some(Encoded(Data(d)))
    ensures LastData(ws, symbol, t) == None <==> !Taken(ws, symbol, t)
  {
    if ws != [] {
      var before, w := ws[..|ws| - 1], ws[|ws| - 1];
      var s := ApplyAll(before);
      PrimaryIsLastWrite(before, symbol, t);
      WritesAreSorted(before);
      GetAfterApply(s, w, DataKey(symbol, t));
      TakenSnoc(ws, symbol, t);
      if w.WriteData? {
        var d := w.data;
        DataItemKey(d);
        DataKeyInjective(d.symbol, d.timestamp, symbol, t);
        ItemKeysApart(IndexOf(d), MarketDatas, symbol, "", t);
        PrimaryIsLastWrite(before, d.symbol, d.timestamp);
      } else {
        ItemKeysApart(Primary(w), MarketDatas, symbol, "", t);
      }
    }
  }

  lemma TakenSnoc(ws: seq<Write>, symbol: string, t: nat)
    requires ws != []
    ensures var w := ws[|ws| - 1];
            Taken(ws, symbol, t) <==>
            Taken(ws[..|ws| - 1], symbol, t) || (w.WriteData? && w.data.symbol == symbol && w.data.timestamp == t)
  {
    var before := ws[..|ws| - 1];
    if Taken(before, symbol, t) {
      var i :| 0 <= i < |before| && before[i].WriteData? && before[i].data.symbol == symbol && before[i].data.timestamp == t;
      assert ws[i] == before[i];
    }
    if Taken(ws, symbol, t) {
      var i :| 0 <= i < |ws| && ws[i].WriteData? && ws[i].data.symbol == symbol && ws[i].data.timestamp == t;
      if i < |before| {
        assert before[i] == ws[i];
      }
    }
  }

  // ---------------------------------------------------------------- all kinds of records

  /** What tells one record of the store from another. */
  datatype Ident =
    | DataId(symbol: string, t: nat)
    | DepthId(symbol: string, t: nat)
    | LogId(symbol: string, start: nat, stop: nat)

  function IdOf(w: Write): Ident {
    match w
    case WriteData(d, _) => DataId(d.symbol, d.timestamp)
    case WriteDepth(d, _) => DepthId(d.symbol, d.timestamp)
    case WriteLog(l, _) => LogId(l.symbol, l.start, l.stop)
  }

  /** The key under which it is to be found. */
  function Spelled(id: Ident): string {
    match id
    case DataId(symbol, t) => "mkt:" + symbol + ":" + Decimal(t)
    case DepthId(symbol, t) => "depth:" + symbol + ":" + Decimal(t)
    case LogId(symbol, start, stop) => "sessionlog:" + symbol + ":" + Decimal(start) + ":" + Decimal(stop)
  }

  /** Some write of `ws` is of that record. */
  ghost predicate Written(ws: seq<Write>, id: Ident) {
    exists i :: 0 <= i < |ws| && IdOf(ws[i]) == id
  }

  /** Last-write-wins over the accepted writes: those that may overwrite or are the first of their record. */
  ghost function LastWrite(ws: seq<Write>, id: Ident): Option<Write> {
    if ws == [] then None else
      var before, w := ws[..|ws| - 1], ws[|ws| - 1];
      if IdOf(w) == id && (w.overwrite || !Written(before, id)) then Some(w) else LastWrite(before, id)
  }

  /** The stored form of what was written. */
  function Stored(w: Write): Blob {
    match w
    case WriteData(d, _) => Encoded(Data(d))
    case WriteDepth(d, _) => Encoded(Depth(d))
    case WriteLog(l, _) => Encoded(Session(l))
  }

  /** The keys, spelled out. */
  lemma KeysAreSpelled(symbol: string, event: string, t: nat)
    ensures TimeKey(MarketDatas, symbol, event, t) == "mkt:" + symbol + ":" + Decimal(t)
    ensures TimeKey(MarketDepths, symbol, event, t) == "depth:" + symbol + ":" + Decimal(t)
    ensures TimeKey(SessionLogs, symbol, event, t) == "sessionlog:" + symbol + ":" + Decimal(t)
    ensures TimeKey(IndexedValues, symbol, event, t) == "x/event-value:" + symbol + ":" + event + ":" + Decimal(t)
  {
    assert "mkt:" == "mkt" + ":" && "depth:" == "depth" + ":" && "sessionlog:" == "sessionlog" + ":";
    assert "x/event-value:" == "x/event-value" + ":";
    assert "x/event-value:" + symbol + ":" + (event + ":") + Decimal(t) == "x/event-value:" + symbol + ":" + event + ":" + Decimal(t);
    assert "mkt:" + symbol + ":" + "" == "mkt:" + symbol + ":";
  }

  /** Reassociating a key's parts. */
  lemma KeyParts(header: string, time: string, key: string, tail: string)
    requires key == header + time
    ensures header + (time + tail) == key + tail && key + "" == key
  {
  }

  lemma LogIsSpelled(l: SessionLog)
    ensures KeyOf(LogItem(l)) == Spelled(LogId(l.symbol, l.start, l.stop))
  {
    var header, key, stop := Header(SessionLogs, l.symbol, ""), TimeKey(SessionLogs, l.symbol, "", l.start), Decimal(l.stop);
    KeysAreSpelled(l.symbol, "", l.start);
    KeyParts(header, Decimal(l.start), key, ":" + stop);
    assert key + (":" + stop) == key + ":" + stop;
  }

  lemma PrimaryIsSpelled(w: Write)
    ensures KeyOf(Primary(w)) == Spelled(IdOf(w)) && Encoded(PayloadOf(Primary(w))) == Stored(w)
  {
    match w
    case WriteData(d, _) =>
      KeysAreSpelled(d.symbol, "", d.timestamp);
      KeyParts(Header(MarketDatas, d.symbol, ""), Decimal(d.timestamp), TimeKey(MarketDatas, d.symbol, "", d.timestamp), "");
    case WriteDepth(d, _) =>
      KeysAreSpelled(d.symbol, "", d.timestamp);
      KeyParts(Header(MarketDepths, d.symbol, ""), Decimal(d.timestamp), TimeKey(MarketDepths, d.symbol, "", d.timestamp), "");
    case WriteLog(l, _) => LogIsSpelled(l);
  }

  function KindOfId(id: Ident): Kind {
    match id case DataId(_, _) => MarketDatas case DepthId(_, _) => MarketDepths case LogId(_, _, _) => SessionLogs
  }

  /** What a spelled key has after its kind. */
  function TailOf(id: Ident): string {
    match id
    case DataId(symbol, t) => symbol + ":" + Decimal(t)
    case DepthId(symbol, t) => symbol + ":" + Decimal(t)
    case LogId(symbol, start, stop) => symbol + ":" + Decimal(start) + ":" + Decimal(stop)
  }

  lemma SpelledParts(id: Ident)
    ensures Spelled(id) == KindText(KindOfId(id)) + ":" + TailOf(id)
  {
    assert "mkt:" == "mkt" + ":" && "depth:" == "depth" + ":" && "sessionlog:" == "sessionlog" + ":";
    match id
    case DataId(symbol, t) => assert "mkt:" + (symbol + ":" + Decimal(t)) == "mkt:" + symbol + ":" + Decimal(t);
    case DepthId(symbol, t) => assert "depth:" + (symbol + ":" + Decimal(t)) == "depth:" + symbol + ":" + Decimal(t);
    case LogId(symbol, start, stop) =>
      assert "sessionlog:" + (symbol + ":" + Decimal(start) + ":" + Decimal(stop))
          == "sessionlog:" + symbol + ":" + Decimal(start) + ":" + Decimal(stop);
  }

  lemma TimeFieldIsUnique(a: string, t: nat, a': string, t': nat)
    requires a + ":" + Decimal(t) == a' + ":" + Decimal(t')
    ensures a == a' && t == t'
  {
    DecimalHasNoColon(t);
    DecimalHasNoColon(t');
    LastFieldIsUnique(a, Decimal(t), a', Decimal(t'), ':');
    DecimalInjective(t, t');
  }

  /** A key determines its record, whatever the symbol. */
  lemma SpelledIsInjective(id: Ident, id': Ident)
    ensures Spelled(id) == Spelled(id') <==> id == id'
  {
    if Spelled(id) == Spelled(id') {
      SpelledParts(id);
      SpelledParts(id');
      KindsAreApart(KindOfId(id), TailOf(id), KindOfId(id'), TailOf(id'));
      match id {
        case DataId(symbol, t) => TimeFieldIsUnique(symbol, t, id'.symbol, id'.t);
        case DepthId(symbol, t) => TimeFieldIsUnique(symbol, t, id'.symbol, id'.t);
        case LogId(symbol, start, stop) =>
          TimeFieldIsUnique(symbol + ":" + Decimal(start), stop, id'.symbol + ":" + Decimal(id'.start), id'.stop);
          TimeFieldIsUnique(symbol, start, id'.symbol, id'.start);
      }
    }
  }

  lemma IndexIsApart(d: MarketData, id: Ident)
    ensures KeyOf(IndexOf(d)) != Spelled(id)
  {
    var x := IndexOf(d);
    SpelledParts(id);
    HeaderFields(KindOf(x), SymbolOf(x), EventOf(x), TimeText(x));
    if KeyOf(x) == Spelled(id) {
      KindsAreApart(KindOf(x), SymbolOf(x) + ":" + AfterSymbol(KindOf(x), EventOf(x), TimeText(x)), KindOfId(id), TailOf(id));
    }
  }

  lemma WrittenSnoc(ws: seq<Write>, id: Ident)
    requires ws != []
    ensures Written(ws, id) <==> Written(ws[..|ws| - 1], id) || IdOf(ws[|ws| - 1]) == id
  {
    var before := ws[..|ws| - 1];
    if Written(before, id) {
      var i :| 0 <= i < |before| && IdOf(before[i]) == id;
      assert ws[i] == before[i];
    }
    if Written(ws, id) {
      var i :| 0 <= i < |ws| && IdOf(ws[i]) == id;
      assert i < |before| ==> before[i] == ws[i];
    }
  }

  /** After any writes of any kinds, reading a record's spelled key gives the last accepted write of it,
      and nothing exactly when it was never written. */
  lemma {:induction false} ReadGivesLastWrite(ws: seq<Write>, id: Ident)
    ensures Get(ApplyAll(ws), Spelled(id)) == match LastWrite(ws, id) case None => None case Some(w) => Some(Stored(w))
    ensures LastWrite(ws, id) == None <==> !Written(ws, id)
  {
    if ws != [] {
      var before, w := ws[..|ws| - 1], ws[|ws| - 1];
      ReadGivesLastWrite(before, id);
      ReadGivesLastWrite(before, IdOf(w));
      WritesAreSorted(before);
      WrittenSnoc(ws, id);
      StepReads(ApplyAll(before), w, id);
    }
  }

  /** What one write changes of a record. */
  lemma StepReads(s: seq<Entry>, w: Write, id: Ident)
    requires Sorted(s)
    ensures Get(Apply(s, w), Spelled(id)) ==
            if IdOf(w) == id && (w.overwrite || Get(s, Spelled(id)) == None) then Some(Stored(w)) else Get(s, Spelled(id))
  {
    PrimaryIsSpelled(w);
    SpelledIsInjective(IdOf(w), id);
    GetAfterApply(s, w, Spelled(id));
    if w.WriteData? {
      IndexIsApart(w.data, id);
    }
  }

  /** The time of a record that a query goes by. */
  function TimeOfId(id: Ident): nat {
    match id case DataId(_, t) => t case DepthId(_, t) => t case LogId(_, start, _) => start
  }

  /** Over a store reached by any writes, a symbol query shows a written record exactly when it is the
      last accepted write of its key, and has the query's kind, symbol and a time in its range. */
  lemma SymbolQueryShowsWrites(ws: seq<Write>, q: SymbolQuery, w: Write)
    requires forall i :: 0 <= i < |ws| ==> ColonFreeWrite(ws[i])
    requires ColonFreeQuery(q) && ColonFreeWrite(w) && !q.kind.IndexedValues?
    requires |Decimal(TimeOfId(IdOf(w)))| == |Decimal(q.first)| == |Decimal(q.last)|
    ensures Record(Spelled(IdOf(w)), Stored(w).payload) in Records(Scanned(ApplyAll(ws), q)) <==>
            && LastWrite(ws, IdOf(w)).Some? && Stored(LastWrite(ws, IdOf(w)).value) == Stored(w)
            && q.kind == (match w case WriteData(_, _) => MarketDatas case WriteDepth(_, _) => MarketDepths case WriteLog(_, _) => SessionLogs)
            && q.symbol == IdOf(w).symbol && q.first <= TimeOfId(IdOf(w)) < q.last
  {
    PrimaryIsSpelled(w);
    ReadGivesLastWrite(ws, IdOf(w));
    SymbolQueryVisits(ws, q, Primary(w));
  }

  /** A write is accepted exactly when it may overwrite or its record was not written before. */
  lemma AcceptedIffNew(ws: seq<Write>, w: Write)
    ensures Accepts(ApplyAll(ws), w) <==> w.overwrite || !Written(ws, IdOf(w))
  {
    PrimaryIsSpelled(w);
    ReadGivesLastWrite(ws, IdOf(w));
  }

  /** The index is the last-write-wins fold of the accepted writes, on all symbols and events. */
  lemma {:induction false} IndexIsLastWrite(ws: seq<Write>, symbol: string, event: string, t: nat)
    ensures Get(ApplyAll(ws), IndexKey(symbol, event, t)) ==
            match LastIndexed(ws, EventText(symbol, event), t) case None => None case Some(v) => Some(Encoded(Indexed(t, v)))
  {
    if ws != [] {
      var before, w := ws[..|ws| - 1], ws[|ws| - 1];
      IndexIsLastWrite(before, symbol, event, t);
      WritesAreSorted(before);
      GetAfterApply(ApplyAll(before), w, IndexKey(symbol, event, t));
      ItemKeysApart(Primary(w), IndexedValues, symbol, event, t);
      if w.WriteData? {
        DataItemKey(w.data);
        IndexKeyCollisions(w.data.symbol, w.data.event, w.data.timestamp, symbol, event, t);
        PrimaryIsLastWrite(before, w.data.symbol, w.data.timestamp);
      }
    }
  }

  lemma {:induction false} LastDataIsWritten(ws: seq<Write>, symbol: string, t: nat)
    requires LastData(ws, symbol, t).Some?
    ensures var d := LastData(ws, symbol, t).value;
            && d.symbol == symbol && d.timestamp == t
            && exists i :: 0 <= i < |ws| && ws[i].WriteData? && ws[i].data == d
  {
    var before, w := ws[..|ws| - 1], ws[|ws| - 1];
    if !(w.WriteData? && w.data.symbol == symbol && w.data.timestamp == t && LastAccepted(ws)) {
      LastDataIsWritten(before, symbol, t);
      var i :| 0 <= i < |before| && before[i].WriteData? && before[i].data == LastData(before, symbol, t).value;
      assert ws[i] == before[i];
    }
  }

  lemma NoMergePrefix(ws: seq<Write>)
    requires ws != [] && NoMerge(ws)
    ensures NoMerge(ws[..|ws| - 1])
  {
  }

  lemma {:induction false} LastDataIsIndexed(ws: seq<Write>, symbol: string, t: nat)
    requires NoMerge(ws) && LastData(ws, symbol, t).Some?
    ensures LastIndexed(ws, TextOf(LastData(ws, symbol, t).value), t) == Some(LastData(ws, symbol, t).value.value)
  {
    var before, w, d := ws[..|ws| - 1], ws[|ws| - 1], LastData(ws, symbol, t).value;
    LastDataIsWritten(ws, symbol, t);
    if !(w.WriteData? && w.data.symbol == symbol && w.data.timestamp == t && LastAccepted(ws)) {
      NoMergePrefix(ws);
      LastDataIsIndexed(before, symbol, t);
    }
  }

  /** After any writes with any mix of overwrite flags in which no two symbols spell an index key
      alike, every primary market data record has an index entry under its own event with the same
      time and value. */
  lemma EveryRecordIsIndexed(ws: seq<Write>, symbol: string, t: nat, d: MarketData)
    requires NoMerge(ws)
    requires Get(ApplyAll(ws), DataKey(symbol, t)) == Some(Encoded(Data(d)))
    ensures d.symbol == symbol && d.timestamp == t
    ensures Get(ApplyAll(ws), IndexKey(d.symbol, d.event, d.timestamp)) == Some(Encoded(Indexed(d.timestamp, d.value)))
  {
    PrimaryIsLastWrite(ws, symbol, t);
    LastDataIsWritten(ws, symbol, t);
    LastDataIsIndexed(ws, symbol, t);
    IndexIsLastWrite(ws, symbol, d.event, t);
  }

  /** The condition is needed: whenever two symbols do spell an index key alike, writing both leaves
      the first record's index entry with the second one's value. */
  lemma MergedSymbolLosesIndex(d: MarketData, d': MarketData, overwrite: bool, overwrite': bool)
    requires d.symbol != d'.symbol && TextOf(d) == TextOf(d') && d.timestamp == d'.timestamp
    ensures var s := ApplyAll([WriteData(d, overwrite), WriteData(d', overwrite')]);
            && Get(s, DataKey(d.symbol, d.timestamp)) == Some(Encoded(Data(d)))
            && Get(s, IndexKey(d.symbol, d.event, d.timestamp)) == Some(Encoded(Indexed(d.timestamp, d'.value)))
  {
    var w, w', t := WriteData(d, overwrite), WriteData(d', overwrite'), d.timestamp;
    var ws := [w, w'];
    assert ws[..1] == [w] && [w][..0] == [];
    assert LastAccepted([w]) && LastData([w], d.symbol, t) == Some(d);
    assert LastAccepted(ws);
    PrimaryIsLastWrite(ws, d.symbol, t);
    IndexIsLastWrite(ws, d.symbol, d.event, t);
  }

  /** Such symbols exist: they need a ':'. */
  lemma ColonSymbolsMerge(t: nat, v: Value)
    ensures TextOf(MarketData(t, "A:B", "C", v, 0)) == TextOf(MarketData(t, "A", "B:C", v, 0))
  {
    assert "A:B" + ":" + "C" == "A" + ":" + "B:C";
  }

  // ---------------------------------------------------------------- the object

  class Db {
    /** The level database's contents; meaningful only once it is open. */
    var entries: seq<Entry>
    var isOpen: bool

    ghost predicate Valid()
      reads this
    {
      Sorted(entries)
    }

    constructor ()
      ensures Valid() && !isOpen && entries == []
    {
      entries, isOpen := [], false;
    }

    /** `Open`; `opens` is whether the level database can be opened. */
    method Open(opens: bool) returns (ok: bool)
      modifies this`isOpen
      ensures ok == isOpen == opens
    {
      isOpen := opens;
      return opens;
    }

    /** `write_batch`: queues the record unless the key is taken and may not be overwritten. */
    method WriteBatch(key: string, payload: Payload, batch: seq<Entry>, overwrite: bool) returns (ok: bool, batch': seq<Entry>)
      ensures ok <==> key != [] && (overwrite || Get(entries, key) == None)
      ensures batch' == if ok then batch + [Entry(key, Encoded(payload))] else batch
    {
      if |key| == 0 {
        return false, batch;
      }
      var okToWrite := overwrite;
      if !overwrite {
        okToWrite := Get(entries, key) == None;
      }
      if okToWrite {
        return true, batch + [Entry(key, Encoded(payload))];
      }
      return false, batch;
    }

    /** Commits a batch. */
    method Commit(batch: seq<Entry>)
      requires Valid()
      modifies this`entries
      ensures Valid() && entries == PutAll(old(entries), batch)
    {
      for i := 0 to |batch|
        invariant Valid() && entries == PutAll(old(entries), batch[..i])
      {
        PutKeepsSorted(entries, batch[i].key, batch[i].blob);
        assert batch[..i + 1][..i] == batch[..i];
        entries := Put(entries, batch[i].key, batch[i].blob);
      }
      assert batch[..|batch|] == batch;
    }

    /** `Writer<MarketData>`: primary record first; if accepted, the index entry rides along. */
    method WriteMarketData(value: MarketData, overwrite: bool) returns (ok: bool)
      requires Valid()
      modifies this`entries
      ensures Valid() && entries == Apply(old(entries), WriteData(value, overwrite))
      ensures ok <==> Accepts(old(entries), WriteData(value, overwrite))
    {
      var batch: seq<Entry> := [];
      DataItemKey(value);
      ok, batch := WriteBatch(KeyOf(DataItem(value)), Data(value), batch, overwrite);
      if ok {
        var indexed;
        indexed, batch := WriteBatch(KeyOf(IndexOf(value)), Indexed(value.timestamp, value.value), batch, true);
        ghost var before := entries;
        Commit(batch);
        PutTwo(before, batch);
      }
    }

    /** `Writer<MarketDepth>` and `Writer<SessionLog>`: one record, written directly. */
    method WriteOne(w: Write) returns (ok: bool)
      requires Valid() && !w.WriteData?
      modifies this`entries
      ensures Valid() && entries == Apply(old(entries), w)
      ensures ok <==> Accepts(old(entries), w)
    {
      var x := Primary(w);
      var okToWrite := w.overwrite;
      if !w.overwrite {
        okToWrite := Get(entries, KeyOf(x)) == None;
      }
      if okToWrite {
        PutKeepsSorted(entries, KeyOf(x), Encoded(PayloadOf(x)));
        entries := Put(entries, KeyOf(x), Encoded(PayloadOf(x)));
        return true;
      }
      return false;
    }

    /** `Write`, of any kind. */
    method Write(w: Write) returns (ok: bool)
      requires Valid()
      modifies this`entries
      ensures Valid() && entries == Apply(old(entries), w)
      ensures ok <==> Accepts(old(entries), w)
    {
      match w {
        case WriteData(data, overwrite) => ok := WriteMarketData(data, overwrite);
        case _ => ok := WriteOne(w);
      }
    }

    /** Writes one after the other. */
    method WriteAll(ws: seq<Write>)
      requires Valid() && entries == []
      modifies this`entries
      ensures Valid() && entries == ApplyAll(ws)
    {
      for i := 0 to |ws|
        invariant Valid() && entries == ApplyAll(ws[..i])
      {
        NextApply(ws, i);
        var _ := Write(ws[i]);
      }
      assert ws[..|ws|] == ws;
    }

    /** `query`: seek, then visit while the key is below `stop`, until the visitor says no. */
    method Query(start: string, stop: string, visit: Visitor) returns (count: nat, visited: seq<Record>)
      requires Valid()
      ensures !isOpen ==> count == 0 && visited == []
      ensures isOpen ==> IsScan(RangeOf(entries, start, stop), visit, count, visited)
    {
      count, visited := 0, [];
      if !isOpen {
        return;
      }
      var i := 0;
      while i < |entries| && Less(entries[i].key, start)
        invariant 0 <= i <= |entries|
        invariant forall k :: 0 <= k < i ==> Less(entries[k].key, start)
      {
        i := i + 1;
      }
      ghost var j := RangeEnd(start, stop, i);
      count, visited := Scan(stop, visit, i, j);
    }

    /** The visiting loop, from the sought position on. */
    method Scan(stop: string, visit: Visitor, i: nat, ghost j: nat) returns (count: nat, visited: seq<Record>)
      requires i <= j <= |entries|
      requires forall k :: i <= k < j ==> Less(entries[k].key, stop)
      requires j < |entries| ==> !Less(entries[j].key, stop)
      ensures IsScan(entries[i..j], visit, count, visited)
    {
      ghost var es := entries[i..j];
      count, visited := 0, [];
      while i + count < |entries| && Less(entries[i + count].key, stop)
        invariant i + count <= j
        invariant visited == Records(es[..count])
        invariant AllowedFirst(es, visit, count)
      {
        var e := entries[i + count];
        assert es[count] == e;
        RecordsSnoc(es, count);
        if e.blob.Encoded? {
          visited := visited + [Record(e.key, e.blob.payload)];
          if !visit(visited) {
            return;
          }
        }
        count := count + 1;
      }
      assert es[..count] == es;
    }

    /** Where the scanned run of keys ends. */
    ghost method RangeEnd(start: string, stop: string, i: nat) returns (j: nat)
      requires Valid() && i <= |entries|
      requires forall k :: 0 <= k < i ==> Less(entries[k].key, start)
      requires i < |entries| ==> !Less(entries[i].key, start)
      ensures i <= j <= |entries| && RangeOf(entries, start, stop) == entries[i..j]
      ensures j < |entries| ==> !Less(entries[j].key, stop)
      ensures forall k :: i <= k < j ==> Less(entries[k].key, stop)
    {
      j := i;
      while j < |entries| && Less(entries[j].key, stop)
        invariant i <= j <= |entries|
        invariant forall k :: i <= k < j ==> InRange(entries[k].key, start, stop)
      {
        if Less(entries[j].key, start) && i < j {
          LessIsTransitive(entries[i].key, entries[j].key, start);
        }
        j := j + 1;
      }
      RangeIsContiguous(entries, start, stop, i, j);
    }

    /** `Query(QueryBySymbol)`. */
    method QueryBySymbol(q: SymbolQuery, visit: Visitor) returns (count: nat, visited: seq<Record>)
      requires Valid()
      ensures !isOpen ==> count == 0 && visited == []
      ensures isOpen ==> IsScan(Scanned(entries, q), visit, count, visited)
    {
      match RangeFor(q) {
        case None => count, visited := 0, [];
        case Some((start, stop)) => count, visited := Query(start, stop, visit);
      }
    }
  }

  lemma NextApply(ws: seq<Write>, i: nat)
    requires i < |ws|
    ensures ApplyAll(ws[..i + 1]) == Apply(ApplyAll(ws[..i]), ws[i])
  {
    var upTo := ws[..i + 1];
    assert upTo[..i] == ws[..i] && upTo[i] == ws[i];
  }

  /** A new database that is opened, written to and queried: it shows what the store holds for the query. */
  method QueryAfterWrites(ws: seq<Write>, q: SymbolQuery) returns (count: nat, visited: seq<Record>)
    ensures visited == Records(Scanned(ApplyAll(ws), q)) && count == |Scanned(ApplyAll(ws), q)|
  {
    var db := new Db();
    var _ := db.Open(true);
    db.WriteAll(ws);
    count, visited := db.QueryBySymbol(q, _ => true);
  }

  function PutAll(s: seq<Entry>, batch: seq<Entry>): seq<Entry> {
    if batch == [] then s
    else Put(PutAll(s, batch[..|batch| - 1]), batch[|batch| - 1].key, batch[|batch| - 1].blob)
  }

  lemma PutTwo(s: seq<Entry>, batch: seq<Entry>)
    requires |batch| == 2
    ensures PutAll(s, batch) == Put(Put(s, batch[0].key, batch[0].blob), batch[1].key, batch[1].blob)
  {
    assert batch[..1][..0] == [];
    assert PutAll(s, batch[..1]) == Put(PutAll(s, []), batch[0].key, batch[0].blob);
  }
}
