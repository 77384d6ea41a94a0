/** The historian's key/value store: a sorted map from strings to encoded records. */
module Store {
  import opened Text

  /** A typed value. */
  datatype Value = DoubleValue(d: real) | IntValue(i: int) | StringValue(s: string) | TimestampValue(t: int)

  datatype MarketData = MarketData(timestamp: nat, symbol: string, event: string, value: Value, contractId: nat)
  datatype MarketDepth = MarketDepth(timestamp: nat, symbol: string, side: nat, price: real, size: nat,
                                     operation: nat, level: nat, mm: Option<string>, contractId: nat)
  datatype SessionLog = SessionLog(symbol: string, start: nat, stop: nat, source: string)

  /** The content of a historian record. */
  datatype Payload =
    | Indexed(timestamp: nat, value: Value)
    | Session(log: SessionLog)
    | Data(data: MarketData)
    | Depth(depth: MarketDepth)

  /** A record as a visitor sees it: the query sets the key. */
  datatype Record = Record(key: string, payload: Payload)

  /** Stored bytes: an encoded record, or something that does not parse as one. */
  datatype Blob = Encoded(payload: Payload) | Unparsable

  datatype Entry = Entry(key: string, blob: Blob)

  ghost predicate Sorted(s: seq<Entry>) {
    forall i, j :: 0 <= i < j < |s| ==> Less(s[i].key, s[j].key)
  }

  function Put(s: seq<Entry>, key: string, blob: Blob): seq<Entry> {
    if s == [] || Less(key, s[0].key) then [Entry(key, blob)] + s
    else if key == s[0].key then [Entry(key, blob)] + s[1..]
    else [s[0]] + Put(s[1..], key, blob)
  }

  function Get(s: seq<Entry>, key: string): Option<Blob> {
    if s == [] then None
    else if s[0].key == key then Some(s[0].blob)
    else Get(s[1..], key)
  }

  lemma {:induction false} PutEntries(s: seq<Entry>, key: string, blob: Blob)
    ensures forall e :: e in Put(s, key, blob) ==> e in s || e == Entry(key, blob)
  {
    if s != [] && !Less(key, s[0].key) && key != s[0].key {
      PutEntries(s[1..], key, blob);
    }
  }

  lemma {:induction false} PutKeepsSorted(s: seq<Entry>, key: string, blob: Blob)
    requires Sorted(s)
    ensures Sorted(Put(s, key, blob))
  {
    if s == [] {
    } else if Less(key, s[0].key) {
      forall i | 1 <= i < |s| ensures Less(key, s[i].key) {
        LessIsTransitive(key, s[0].key, s[i].key);
      }
    } else if key != s[0].key {
      LessIsTotal(key, s[0].key);
      PutKeepsSorted(s[1..], key, blob);
      PutEntries(s[1..], key, blob);
      var rest := Put(s[1..], key, blob);
      forall j | 0 <= j < |rest| ensures Less(s[0].key, rest[j].key) {
        assert rest[j] in rest;
      }
    }
  }

  lemma {:induction false} GetMissing(s: seq<Entry>, key: string)
    ensures Get(s, key) == None <==> forall i :: 0 <= i < |s| ==> s[i].key != key
  {
    if s != [] && s[0].key != key {
      GetMissing(s[1..], key);
      assert forall i :: 1 <= i < |s| ==> s[i] == s[1..][i - 1];
      assert forall i :: 0 <= i < |s| - 1 ==> s[1..][i] == s[i + 1];
    }
  }

  /** The store is a map: a read returns the last value put under the key. */
  lemma {:induction false} GetAfterPut(s: seq<Entry>, key: string, blob: Blob, k: string)
    requires Sorted(s)
    ensures Get(Put(s, key, blob), k) == if k == key then Some(blob) else Get(s, k)
  {
    if s == [] || Less(key, s[0].key) {
      assert ([Entry(key, blob)] + s)[1..] == s;
    } else if key == s[0].key {
      assert ([Entry(key, blob)] + s[1..])[1..] == s[1..];
    } else {
      GetAfterPut(s[1..], key, blob, k);
      assert ([s[0]] + Put(s[1..], key, blob))[1..] == Put(s[1..], key, blob);
    }
  }

  /** Reading finds an entry exactly when it is there. */
  lemma {:induction false} GetFindsEntry(s: seq<Entry>, e: Entry)
    requires Sorted(s)
    ensures Get(s, e.key) == Some(e.blob) <==> e in s
  {
    if s != [] {
      GetFindsEntry(s[1..], e);
      assert s == [s[0]] + s[1..];
      if s[0].key == e.key && e in s[1..] {
        LessIsIrreflexive(e.key);
      }
    }
  }
}
