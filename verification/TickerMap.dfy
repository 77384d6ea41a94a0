/** The registry of contracts by ticker id. */
module TickerMap {
  import opened Text
  import opened ContractKeys
  import TickerId

  /** The three maps of the registry. */
  datatype Registry = Registry(symbols: map<int, string>, ids: map<string, int>, contracts: map<int, Contract>)

  const EMPTY := Registry(map[], map[], map[])

  /** The id a contract asks for: its own, or the next free-looking one. */
  function WantedId(r: Registry, c: Contract): int {
    if c.conId == 0 then |r.contracts| + 1 else c.conId
  }

  predicate IsNew(r: Registry, c: Contract) {
    WantedId(r, c) !in r.symbols
  }

  /** The registry after a registration; a known id changes nothing. */
  function Registered(fmt: StrikeText, r: Registry, c: Contract): Registry {
    var id, key := WantedId(r, c), ContractKey(fmt, c);
    if IsNew(r, c) then Registry(r.symbols[id := key], r.ids[key := id], r.contracts[id := c.(conId := id)]) else r
  }

  /** The id returned; -1 when the id belongs to another symbol. */
  function Issued(fmt: StrikeText, r: Registry, c: Contract): int {
    var id := WantedId(r, c);
    if id in r.symbols && r.symbols[id] != ContractKey(fmt, c) then -1 else id
  }

  function Registrations(fmt: StrikeText, cs: seq<Contract>): Registry {
    if cs == [] then EMPTY else Registered(fmt, Registrations(fmt, cs[..|cs| - 1]), cs[|cs| - 1])
  }

  // ---------------------------------------------------------------- invariants of every run

  ghost predicate Consistent(fmt: StrikeText, r: Registry) {
    && r.symbols.Keys == r.contracts.Keys
    && (forall id :: id in r.contracts ==> r.contracts[id].conId == id && ContractKey(fmt, r.contracts[id]) == r.symbols[id])
    && (forall key :: key in r.ids ==> r.ids[key] in r.symbols && r.symbols[r.ids[key]] == key)
    && (forall id :: id in r.symbols ==> r.symbols[id] in r.ids)
  }

  lemma RegisteringKeepsConsistent(fmt: StrikeText, r: Registry, c: Contract)
    requires Consistent(fmt, r)
    ensures Consistent(fmt, Registered(fmt, r, c))
  {
    if IsNew(r, c) {
      var id, key := WantedId(r, c), ContractKey(fmt, c);
      assert id >= 0;
      assert ContractKey(fmt, c.(conId := id)) == key;
      var r' := Registered(fmt, r, c);
      forall k | k in r'.ids
        ensures r'.ids[k] in r'.symbols && r'.symbols[r'.ids[k]] == k
      {
        if k != key {
          assert r.ids[k] in r.symbols && r.symbols[r.ids[k]] == k;
          assert r.ids[k] != id;
        }
      }
    }
  }

  /** After every run of registrations: symbol-to-id then id-to-symbol is the identity, the id maps
      have the same ids and agree on the symbol, and the known symbols are exactly the ids' symbols. */
  lemma {:induction false} EveryRunIsConsistent(fmt: StrikeText, cs: seq<Contract>)
    ensures Consistent(fmt, Registrations(fmt, cs))
    ensures Registrations(fmt, cs).ids.Keys == Registrations(fmt, cs).symbols.Values
  {
    if cs != [] {
      EveryRunIsConsistent(fmt, cs[..|cs| - 1]);
      RegisteringKeepsConsistent(fmt, Registrations(fmt, cs[..|cs| - 1]), cs[|cs| - 1]);
    }
    var r := Registrations(fmt, cs);
    forall key | key in r.ids ensures key in r.symbols.Values {
      assert r.symbols[r.ids[key]] == key;
    }
  }

  /** An id's symbol never changes, whatever is registered later. */
  lemma {:induction false} SymbolsNeverChange(fmt: StrikeText, cs: seq<Contract>, n: nat, id: int)
    requires n <= |cs| && id in Registrations(fmt, cs[..n]).symbols
    ensures id in Registrations(fmt, cs).symbols
    ensures Registrations(fmt, cs).symbols[id] == Registrations(fmt, cs[..n]).symbols[id]
  {
    if n == |cs| {
      assert cs[..n] == cs;
    } else {
      var before := cs[..|cs| - 1];
      assert before[..n] == cs[..n];
      SymbolsNeverChange(fmt, before, n, id);
    }
  }

  /** The id issued by the last registration of a run is known under that contract's key, or -1. */
  lemma IssuedIsKnown(fmt: StrikeText, r: Registry, c: Contract)
    ensures var id := Issued(fmt, r, c);
            id == -1 || (id in Registered(fmt, r, c).symbols && Registered(fmt, r, c).symbols[id] == ContractKey(fmt, c))
    ensures Issued(fmt, r, c) == -1 <==> !IsNew(r, c) && r.symbols[WantedId(r, c)] != ContractKey(fmt, c)
  {
  }

  /** Exactly the ids 1 .. n are registered. */
  ghost predicate HoldsFirst(r: Registry, n: nat) {
    && |r.contracts| == n
    && (forall id :: id in r.contracts <==> 1 <= id <= n)
    && r.symbols.Keys == r.contracts.Keys
  }

  lemma MapGrows<V>(m: map<int, V>, k: int, v: V)
    requires k !in m
    ensures |m[k := v]| == |m| + 1
  {
    var m' := m[k := v];
    assert m'.Keys == m.Keys + {k};
    assert |m'| == |m'.Keys| && |m| == |m.Keys|;
  }

  lemma NextZeroId(fmt: StrikeText, r: Registry, c: Contract, n: nat)
    requires HoldsFirst(r, n) && c.conId == 0
    ensures Issued(fmt, r, c) == n + 1 && HoldsFirst(Registered(fmt, r, c), n + 1)
  {
    assert n + 1 !in r.contracts && n + 1 !in r.contracts.Keys;
    MapGrows(r.contracts, n + 1, c.(conId := n + 1));
  }

  /** Runs that only use id 0 issue 1, 2, 3, ... even for a symbol seen before. */
  lemma {:induction false} ZeroIdsAreConsecutive(fmt: StrikeText, cs: seq<Contract>)
    requires forall i :: 0 <= i < |cs| ==> cs[i].conId == 0
    ensures HoldsFirst(Registrations(fmt, cs), |cs|)
    ensures |IssuedIds(fmt, cs)| == |cs| && forall i :: 0 <= i < |cs| ==> IssuedIds(fmt, cs)[i] == i + 1
  {
    if cs != [] {
      ZeroIdsAreConsecutive(fmt, cs[..|cs| - 1]);
      NextZeroId(fmt, Registrations(fmt, cs[..|cs| - 1]), cs[|cs| - 1], |cs| - 1);
    }
  }

  /** Mixed with explicit ids, id 0 can be refused: the next number may already be taken. */
  lemma ZeroIdCanCollide(fmt: StrikeText)
    ensures var a, b := FRESH.(conId := 2, symbol := "A", secType := "STK"), FRESH.(symbol := "B", secType := "STK");
            Issued(fmt, Registrations(fmt, [a]), b) == -1
  {
    var a, b := FRESH.(conId := 2, symbol := "A", secType := "STK"), FRESH.(symbol := "B", secType := "STK");
    assert [a][..0] == [] && Registrations(fmt, []) == EMPTY;
    var r := Registrations(fmt, [a]);
    assert r == Registered(fmt, EMPTY, a);
    assert r.contracts.Keys == {2};
    assert |r.contracts| == |r.contracts.Keys| == 1;
    assert ContractKey(fmt, a)[0] == 'A' && ContractKey(fmt, b)[0] == 'B';
  }

  // ---------------------------------------------------------------- the object

  /** The ids a run of registrations is given. */
  function IssuedIds(fmt: StrikeText, cs: seq<Contract>): seq<int> {
    if cs == [] then []
    else IssuedIds(fmt, cs[..|cs| - 1]) + [Issued(fmt, Registrations(fmt, cs[..|cs| - 1]), cs[|cs| - 1])]
  }

  lemma NextRegistration(fmt: StrikeText, cs: seq<Contract>, i: nat)
    requires i < |cs|
    ensures Registrations(fmt, cs[..i + 1]) == Registered(fmt, Registrations(fmt, cs[..i]), cs[i])
    ensures IssuedIds(fmt, cs[..i + 1]) == IssuedIds(fmt, cs[..i]) + [Issued(fmt, Registrations(fmt, cs[..i]), cs[i])]
  {
    var upTo := cs[..i + 1];
    assert upTo[..i] == cs[..i] && upTo[i] == cs[i];
  }

  // ---------------------------------------------------------------- what is issued, over runs

  lemma {:induction false} IssuedLength(fmt: StrikeText, cs: seq<Contract>)
    ensures |IssuedIds(fmt, cs)| == |cs|
  {
    if cs != [] {
      IssuedLength(fmt, cs[..|cs| - 1]);
    }
  }

  /** An id is known exactly when it was issued, and then under the key of each contract it was issued to. */
  ghost predicate RemembersKeys(fmt: StrikeText, r: Registry, cs: seq<Contract>, ids: seq<int>)
    requires |ids| == |cs|
  {
    && r.symbols.Keys == r.contracts.Keys
    && (forall id :: id in r.symbols <==> id != -1 && id in ids)
    && (forall j :: 0 <= j < |cs| && ids[j] != -1 ==> ids[j] in r.symbols && r.symbols[ids[j]] == ContractKey(fmt, cs[j]))
  }

  /** The contract kept for an id is the first it was issued to, with that id. */
  ghost predicate RemembersFirst(r: Registry, cs: seq<Contract>, ids: seq<int>)
    requires |ids| == |cs|
  {
    forall id :: id in r.contracts ==> exists j: nat :: IsFirst(r.contracts[id], cs, ids, id, j)
  }

  ghost predicate IsFirst(kept: Contract, cs: seq<Contract>, ids: seq<int>, id: int, j: nat)
    requires |ids| == |cs|
  {
    j < |cs| && ids[j] == id && id >= 0 && kept == cs[j].(conId := id) && id !in ids[..j]
  }

  lemma KeysNext(fmt: StrikeText, r: Registry, cs: seq<Contract>, ids: seq<int>, c: Contract, r': Registry, id: int)
    requires |ids| == |cs| && RemembersKeys(fmt, r, cs, ids) && r' == Registered(fmt, r, c) && id == Issued(fmt, r, c)
    ensures RemembersKeys(fmt, r', cs + [c], ids + [id])
  {
    assert id == -1 || (id in r'.symbols && r'.symbols[id] == ContractKey(fmt, c));
    assert forall k :: k in r'.symbols <==> k in r.symbols || (k == id && id != -1);
    forall j | 0 <= j < |cs| && ids[j] != -1
      ensures ids[j] in r'.symbols && r'.symbols[ids[j]] == ContractKey(fmt, cs[j])
    {
      assert ids[j] in r.symbols;
    }
  }

  lemma FirstStays(kept: Contract, cs: seq<Contract>, ids: seq<int>, k: int, j: nat, c: Contract, id: int)
    requires |ids| == |cs| && IsFirst(kept, cs, ids, k, j)
    ensures IsFirst(kept, cs + [c], ids + [id], k, j)
  {
    assert (ids + [id])[..j] == ids[..j];
  }

  lemma FirstNext(fmt: StrikeText, r: Registry, cs: seq<Contract>, ids: seq<int>, c: Contract, r': Registry, id: int)
    requires |ids| == |cs| && RemembersKeys(fmt, r, cs, ids) && RemembersFirst(r, cs, ids)
    requires r' == Registered(fmt, r, c) && id == Issued(fmt, r, c)
    ensures RemembersFirst(r', cs + [c], ids + [id])
  {
    forall k | k in r'.contracts
      ensures exists j: nat :: IsFirst(r'.contracts[k], cs + [c], ids + [id], k, j)
    {
      if k in r.contracts {
        var j: nat :| IsFirst(r.contracts[k], cs, ids, k, j);
        FirstStays(r.contracts[k], cs, ids, k, j, c, id);
      } else {
        assert (ids + [id])[..|cs|] == ids && k == id && k !in r.symbols;
        assert IsFirst(r'.contracts[k], cs + [c], ids + [id], k, |cs|);
      }
    }
  }

  lemma RunSnoc(fmt: StrikeText, cs: seq<Contract>, before: seq<Contract>, c: Contract)
    requires cs == before + [c]
    ensures Registrations(fmt, cs) == Registered(fmt, Registrations(fmt, before), c)
    ensures IssuedIds(fmt, cs) == IssuedIds(fmt, before) + [Issued(fmt, Registrations(fmt, before), c)]
  {
    assert cs[..|cs| - 1] == before;
  }

  lemma {:induction false} RunKeys(fmt: StrikeText, cs: seq<Contract>, r: Registry, ids: seq<int>)
    requires r == Registrations(fmt, cs) && ids == IssuedIds(fmt, cs)
    ensures |ids| == |cs| && RemembersKeys(fmt, r, cs, ids)
    decreases |cs|
  {
    IssuedLength(fmt, cs);
    if cs != [] {
      var before, c := cs[..|cs| - 1], cs[|cs| - 1];
      assert cs == before + [c];
      RunSnoc(fmt, cs, before, c);
      var r0, ids0 := Registrations(fmt, before), IssuedIds(fmt, before);
      RunKeys(fmt, before, r0, ids0);
      KeysNext(fmt, r0, before, ids0, c, r, Issued(fmt, r0, c));
    }
  }

  lemma {:induction false} RunFirsts(fmt: StrikeText, cs: seq<Contract>, r: Registry, ids: seq<int>)
    requires r == Registrations(fmt, cs) && ids == IssuedIds(fmt, cs)
    ensures |ids| == |cs| && RemembersFirst(r, cs, ids)
    decreases |cs|
  {
    IssuedLength(fmt, cs);
    if cs != [] {
      var before, c := cs[..|cs| - 1], cs[|cs| - 1];
      assert cs == before + [c];
      RunSnoc(fmt, cs, before, c);
      var r0, ids0 := Registrations(fmt, before), IssuedIds(fmt, before);
      RunKeys(fmt, before, r0, ids0);
      RunFirsts(fmt, before, r0, ids0);
      FirstNext(fmt, r0, before, ids0, c, r, Issued(fmt, r0, c));
    }
  }

  /** After any registrations, a contract is given its own id, or the number of ids issued so far plus one
      if it has none; and it is refused exactly when that id was issued to a contract of another key. */
  lemma IssuedOverRuns(fmt: StrikeText, cs: seq<Contract>, c: Contract, ids: seq<int>, wanted: int)
    requires ids == IssuedIds(fmt, cs)
    requires wanted == if c.conId != 0 then c.conId else |set id | id in ids && id != -1| + 1
    ensures |ids| == |cs|
    ensures Issued(fmt, Registrations(fmt, cs), c) ==
            if exists j :: 0 <= j < |cs| && ids[j] == wanted && ContractKey(fmt, cs[j]) != ContractKey(fmt, c) then -1 else wanted
  {
    RunKeys(fmt, cs, Registrations(fmt, cs), ids);
    WantedOverRuns(fmt, Registrations(fmt, cs), cs, ids, c, wanted);
  }

  lemma WantedOverRuns(fmt: StrikeText, r: Registry, cs: seq<Contract>, ids: seq<int>, c: Contract, wanted: int)
    requires |ids| == |cs| && RemembersKeys(fmt, r, cs, ids)
    requires wanted == if c.conId != 0 then c.conId else |set id | id in ids && id != -1| + 1
    ensures Issued(fmt, r, c) ==
            if exists j :: 0 <= j < |cs| && ids[j] == wanted && ContractKey(fmt, cs[j]) != ContractKey(fmt, c) then -1 else wanted
  {
    KnownIds(fmt, r, cs, ids);
    assert WantedId(r, c) == wanted;
    if wanted in r.symbols {
      var j :| 0 <= j < |ids| && ids[j] == wanted;
      assert r.symbols[wanted] == ContractKey(fmt, cs[j]);
    }
  }

  lemma KnownIds(fmt: StrikeText, r: Registry, cs: seq<Contract>, ids: seq<int>)
    requires |ids| == |cs| && RemembersKeys(fmt, r, cs, ids)
    ensures |r.contracts| == |set id | id in ids && id != -1|
  {
    var known := set id | id in ids && id != -1;
    forall id
      ensures id in r.contracts.Keys <==> id in known
    {
      assert id in r.symbols <==> id in r.symbols.Keys;
    }
    assert r.contracts.Keys == known;
    assert |r.contracts| == |r.contracts.Keys|;
  }

  /** The contract kept for an id is the first it was issued to, with that id. */
  lemma KeptIsFirst(fmt: StrikeText, cs: seq<Contract>, id: int) returns (j: nat)
    requires id in Registrations(fmt, cs).contracts
    ensures |IssuedIds(fmt, cs)| == |cs| && j < |cs| && IssuedIds(fmt, cs)[j] == id && id !in IssuedIds(fmt, cs)[..j] && id >= 0
    ensures Registrations(fmt, cs).contracts[id] == cs[j].(conId := id)
  {
    RunFirsts(fmt, cs, Registrations(fmt, cs), IssuedIds(fmt, cs));
    j :| IsFirst(Registrations(fmt, cs).contracts[id], cs, IssuedIds(fmt, cs), id, j);
  }

  class TickerMap {
    const fmt: StrikeText
    var symbols: map<int, string>
    var ids: map<string, int>
    var contracts: map<int, Contract>

    function State(): Registry
      reads this
    {
      Registry(symbols, ids, contracts)
    }

    constructor (fmt: StrikeText)
      ensures State() == EMPTY && this.fmt == fmt
    {
      this.fmt := fmt;
      symbols, ids, contracts := map[], map[], map[];
    }

    /** `registerContract`. */
    method RegisterContract(contract: Contract) returns (tickerId: int)
      modifies this
      ensures State() == Registered(fmt, old(State()), contract)
      ensures tickerId == Issued(fmt, old(State()), contract)
    {
      tickerId := contract.conId;
      if tickerId == 0 {
        tickerId := |contracts| + 1;
      }
      if tickerId !in symbols {
        var clone := contract.(conId := tickerId);
        var symbol := ContractKey(fmt, contract);
        symbols := symbols[tickerId := symbol];
        ids := ids[symbol := tickerId];
        contracts := contracts[tickerId := clone];
      } else {
        var check := ContractKey(fmt, contract);
        if symbols[tickerId] != check {
          tickerId := -1;
        }
      }
    }

    /** Registrations one after the other, and the ids they were given. */
    method RegisterAll(cs: seq<Contract>) returns (issued: seq<int>)
      requires State() == EMPTY
      modifies this
      ensures State() == Registrations(fmt, cs) && issued == IssuedIds(fmt, cs)
    {
      issued := [];
      for i := 0 to |cs|
        invariant State() == Registrations(fmt, cs[..i]) && issued == IssuedIds(fmt, cs[..i])
      {
        NextRegistration(fmt, cs, i);
        var id := RegisterContract(cs[i]);
        issued := issued + [id];
      }
      assert cs[..|cs|] == cs;
    }

    /** `getSubscriptionKeyFromId`: an unknown id is decoded as a ticker id. */
    method GetSubscriptionKeyFromId(tickerId: int) returns (known: bool, key: string)
      ensures known <==> tickerId in symbols
      ensures key == if known then symbols[tickerId] else TickerId.SymbolOf(tickerId)
    {
      if tickerId !in symbols {
        key := TickerId.SymbolFromTickerId(tickerId);
        return false, key;
      }
      return true, symbols[tickerId];
    }

    /** `getTickerIdFromSubscriptionKey`: an unknown key of at most four characters is encoded;
        a longer one reads outside the codec's scale table and has no defined id. */
    method GetTickerIdFromSubscriptionKey(key: string) returns (known: bool, id: Option<int>)
      ensures known <==> key in ids
      ensures known ==> id == Some(ids[key])
      ensures !known ==> id == if |key| <= 4 then Some(TickerId.StockId(key)) else None
    {
      if key in ids {
        return true, Some(ids[key]);
      }
      if |key| <= 4 {
        var encoded := TickerId.SymbolToTickerId(key);
        return false, Some(encoded);
      }
      return false, None;
    }
  }
}
