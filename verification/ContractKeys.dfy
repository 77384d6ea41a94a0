/** One subscription key, computed from a protobuf contract, from the IB contract it marshals to,
    and from that contract re-read out of a log line. */
module ContractKeys {
  import opened Text
  import opened Expiry

  datatype SecType = IndexType | StockType | OptionType
  datatype Right = Put | Call
  datatype Currency = Other | Usd
  datatype Money = Money(amount: real, currency: Currency)

  /** The protobuf contract; optional fields without a default are options. */
  datatype Proto = Proto(id: nat, symbol: string, secType: SecType, exchange: string, localSymbol: Option<string>,
                         right: Option<Right>, strike: Option<Money>, expiry: Option<Date>, multiplier: int)

  /** The IB API's contract. */
  datatype Contract = Contract(conId: nat, symbol: string, secType: string, right: string, strike: real, currency: string,
                               multiplier: string, expiry: string, localSymbol: string, exchange: string)

  const FRESH := Contract(0, "", "", "", 0.0, "", "", "", "", "")

  /** How a stream prints a strike; the same function for every printer. */
  type StrikeText = real -> string

  function SecText(t: SecType): string {
    match t case IndexType => "IND" case StockType => "STK" case OptionType => "OPT"
  }

  function RightText(r: Right): string {
    match r case Put => "P" case Call => "C"
  }

  /** Protobuf getters of unset fields return the type's default. */
  function ExpiryOf(p: Proto): Date { if p.expiry.Some? then p.expiry.value else Date(0, 0, 0) }
  function AmountOf(p: Proto): real { if p.strike.Some? then p.strike.value.amount else 0.0 }
  function RightOf(p: Proto): Right { if p.right.Some? then p.right.value else Put }

  // ---------------------------------------------------------------- the three keys

  /** `atp::platform::symbol_from_contract`. */
  function ProtoKey(fmt: StrikeText, p: Proto): string {
    match p.secType
    case StockType => p.symbol + ".STK"
    case IndexType => p.symbol + ".IND"
    case OptionType =>
      p.symbol + ".OPT" + "." + FormatExpiry(ExpiryOf(p)) + "." + fmt(AmountOf(p)) + "." + RightText(RightOf(p))
  }

  /** `ib::internal::symbol_from_contract` on an IB contract. */
  function ContractKey(fmt: StrikeText, c: Contract): string {
    c.symbol + "." + c.secType +
    if c.secType == "OPT" then "." + c.expiry + "." + fmt(c.strike) + "." + c.right else ""
  }

  /** `symbol_from_contract` on a string map; a missing name makes it fail. */
  function MapKey(m: map<string, string>): Option<string> {
    if "symbol" !in m || "secType" !in m then None
    else if m["secType"] != "OPT" then Some(m["symbol"] + "." + m["secType"])
    else if "expiry" !in m || "strike" !in m || "right" !in m then None
    else Some(m["symbol"] + "." + m["secType"] + ("." + m["expiry"] + "." + m["strike"] + "." + m["right"]))
  }

  /** The names a key needs. */
  lemma KeyNeedsNames(m: map<string, string>)
    ensures MapKey(m).Some? <==> "symbol" in m && "secType" in m
                                 && (m["secType"] == "OPT" ==> "expiry" in m && "strike" in m && "right" in m)
  {
  }

  // ---------------------------------------------------------------- marshalling

  /** An option with a known id must be complete. */
  predicate Complete(p: Proto) {
    p.secType.OptionType? && p.id != 0 ==> p.right.Some? && p.strike.Some? && p.expiry.Some? && p.multiplier >= 100
  }

  /** What marshalling into `c` gives: a refused contract has only its type set. */
  function Marshalled(c: Contract, p: Proto): Contract {
    var c1 := c.(secType := SecText(p.secType));
    if !Complete(p) then c1 else
      c1.(conId := p.id, symbol := p.symbol, exchange := p.exchange,
          localSymbol := if p.localSymbol.Some? then p.localSymbol.value else c.localSymbol,
          right := if p.right.Some? then RightText(p.right.value) else c.right,
          strike := if p.strike.Some? then p.strike.value.amount else c.strike,
          currency := if p.strike.Some? && p.strike.value.currency.Usd? then "USD" else c.currency,
          expiry := if p.expiry.Some? then FormatExpiry(p.expiry.value) else c.expiry)
  }

  /** `Contract << proto`: fields are set one by one, under branches. */
  method Marshal(target: Contract, p: Proto) returns (ok: bool, c: Contract)
    ensures ok == Complete(p) && c == Marshalled(target, p)
    ensures !ok <==> p.secType.OptionType? && p.id != 0
                     && (p.right.None? || p.strike.None? || p.expiry.None? || p.multiplier < 100)
    ensures !ok ==> c == target.(secType := "OPT")
  {
    c := target;
    match p.secType {
      case IndexType => c := c.(secType := "IND");
      case StockType => c := c.(secType := "STK");
      case OptionType =>
        c := c.(secType := "OPT");
        if p.id != 0 {
          if p.right.None? || p.strike.None? || p.expiry.None? || p.multiplier < 100 {
            return false, c;
          }
        }
    }
    c := c.(conId := p.id);
    c := c.(symbol := p.symbol);
    c := c.(exchange := p.exchange);
    if p.localSymbol.Some? {
      c := c.(localSymbol := p.localSymbol.value);
    }
    if p.right.Some? {
      match p.right.value {
        case Put => c := c.(right := "P");
        case Call => c := c.(right := "C");
      }
    }
    if p.strike.Some? {
      c := c.(strike := p.strike.value.amount);
      if p.strike.value.currency == Usd {
        c := c.(currency := "USD");
      }
    }
    if p.expiry.Some? {
      c := c.(expiry := FormatExpiry(p.expiry.value));
    }
    return true, c;
  }

  /** What unmarshalling gives; None when reading the expiry throws. */
  function Unmarshalled(c: Contract): Option<Proto> {
    var parsed := ParseDate(c.expiry);
    if parsed.Threw? then None else
      Some(Proto(c.conId, c.symbol,
                 if c.secType == "IND" then IndexType else if c.secType == "OPT" then OptionType else StockType,
                 if |c.exchange| > 0 then c.exchange else "SMART",
                 Some(c.localSymbol),
                 if c.right == "P" then Some(Put) else if c.right == "C" then Some(Call) else None,
                 Some(Money(c.strike, if c.currency == "USD" then Usd else Other)),
                 if parsed.Parsed? then Some(parsed.date) else None,
                 100))
  }

  /** `proto << Contract`, from a cleared protobuf with its defaults. */
  method Unmarshal(c: Contract) returns (r: Option<Proto>)
    ensures r == Unmarshalled(c)
  {
    var p := Proto(c.conId, c.symbol, StockType, "SMART", None, None, None, None, 100);
    if c.secType == "IND" {
      p := p.(secType := IndexType);
    } else if c.secType == "STK" {
      p := p.(secType := StockType);
    } else if c.secType == "OPT" {
      p := p.(secType := OptionType);
    }
    if |c.exchange| > 0 {
      p := p.(exchange := c.exchange);
    }
    p := p.(localSymbol := Some(c.localSymbol));
    if c.right == "P" {
      p := p.(right := Some(Put));
    } else if c.right == "C" {
      p := p.(right := Some(Call));
    }
    p := p.(strike := Some(Money(c.strike, Other)));
    if c.currency == "USD" {
      p := p.(strike := Some(Money(c.strike, Usd)));
    }
    if |c.expiry| == 8 {
      match ParseDate(c.expiry) {
        case Threw => return None;
        case NotADate =>
        case Parsed(d) => p := p.(expiry := Some(d));
      }
    }
    return Some(p);
  }

  /** The two keys agree exactly when the contract is not an option, or has expiry and right. */
  lemma MarshalKeepsKey(fmt: StrikeText, p: Proto)
    requires Complete(p)
    ensures ContractKey(fmt, Marshalled(FRESH, p)) == ProtoKey(fmt, p)
       <==> (p.secType.OptionType? ==> p.expiry.Some? && p.right.Some?)
  {
    var c := Marshalled(FRESH, p);
    if p.secType.OptionType? {
      var pre, strike := p.symbol + ".OPT.", fmt(AmountOf(p));
      OptionKeyParts(p.symbol, c.expiry, strike, c.right);
      OptionKeyParts(p.symbol, FormatExpiry(ExpiryOf(p)), strike, RightText(RightOf(p)));
      var ours, theirs := pre + (c.expiry + "." + strike + "." + c.right),
                          pre + (FormatExpiry(ExpiryOf(p)) + "." + strike + "." + RightText(RightOf(p)));
      assert ContractKey(fmt, c) == ours && ProtoKey(fmt, p) == theirs;
      if p.expiry.None? {
        assert FormatExpiry(Date(0, 0, 0))[0] == ' ';
        assert theirs[|pre|] == ' ' && ours[|pre|] == '.';
      } else if p.right.None? {
        assert |ours| == |theirs| - 1;
      }
    } else {
      assert p.symbol + "." + SecText(p.secType) + "" == ProtoKey(fmt, p);
    }
  }

  lemma OptionKeyParts(symbol: string, expiry: string, strike: string, right: string)
    ensures symbol + "." + "OPT" + ("." + expiry + "." + strike + "." + right)
         == symbol + ".OPT." + (expiry + "." + strike + "." + right)
    ensures symbol + ".OPT" + "." + expiry + "." + strike + "." + right
         == symbol + ".OPT." + (expiry + "." + strike + "." + right)
  {
  }

  /** The expiries with which a contract's key survives marshalling to IB and back: an option's must
      be printable, any other contract's must not throw when it is read. */
  predicate KeySurvives(p: Proto) {
    if p.secType.OptionType? then p.expiry.Some? && Printable(p.expiry.value)
    else p.expiry.Some? ==> !Unreadable(p.expiry.value)
  }

  /** Marshalling to IB and back leaves the key unchanged exactly for those expiries. */
  lemma RoundTripKeepsKey(fmt: StrikeText, p: Proto)
    requires Complete(p) && (p.secType.OptionType? ==> p.expiry.Some? && p.right.Some?)
    ensures var back := Unmarshalled(Marshalled(FRESH, p));
            back.Some? && ProtoKey(fmt, back.value) == ProtoKey(fmt, p) <==> KeySurvives(p)
  {
    var c := Marshalled(FRESH, p);
    var back := Unmarshalled(c);
    if p.expiry.Some? {
      ExpiryRoundTrip(p.expiry.value);
    }
    if p.secType.OptionType? && back.Some? && !Printable(p.expiry.value) {
      assert back.value.expiry == None && |c.expiry| != 8;
      var blank := FormatExpiry(Date(0, 0, 0));
      assert |blank| == 8;
      assert |ProtoKey(fmt, back.value)| - |blank| == |ProtoKey(fmt, p)| - |c.expiry|;
    }
  }

  /** Field by field: what is left of a contract that went to IB and back. */
  lemma FieldsSurvive(p: Proto)
    requires Complete(p)
    ensures var c := Marshalled(FRESH, p);
            && c.conId == p.id && c.symbol == p.symbol && c.secType == SecText(p.secType) && c.exchange == p.exchange
            && c.localSymbol == (if p.localSymbol.Some? then p.localSymbol.value else "")
            && c.right == (if p.right.Some? then RightText(p.right.value) else "")
            && c.strike == AmountOf(p)
            && c.currency == (if p.strike.Some? && p.strike.value.currency.Usd? then "USD" else "")
            && c.expiry == (if p.expiry.Some? then FormatExpiry(p.expiry.value) else "")
    ensures Unmarshalled(Marshalled(FRESH, p)) ==
            if p.expiry.Some? && Unreadable(p.expiry.value) then None else
              Some(Proto(p.id, p.symbol, p.secType, if p.exchange == "" then "SMART" else p.exchange,
                         Some(if p.localSymbol.Some? then p.localSymbol.value else ""), p.right,
                         Some(if p.strike.Some? then p.strike.value else Money(0.0, Other)),
                         if p.expiry.Some? && Printable(p.expiry.value) then p.expiry else None, 100))
  {
    if p.expiry.Some? {
      ExpiryRoundTrip(p.expiry.value);
    }
  }

  /** A contract comes back from IB as it was exactly when it has exchange, local symbol and strike, the
      multiplier that is assumed, and no expiry but a printable one. */
  lemma WholeContractSurvives(p: Proto)
    requires Complete(p)
    ensures Unmarshalled(Marshalled(FRESH, p)) == Some(p) <==>
            p.exchange != "" && p.localSymbol.Some? && p.strike.Some? && p.multiplier == 100 && (p.expiry.Some? ==> Printable(p.expiry.value))
  {
    FieldsSurvive(p);
  }

  /** The keys of the documentation (src/cpp/platform/contract_symbol.cpp:115). */
  lemma DocumentedKeys(fmt: StrikeText, p: Proto)
    requires fmt(650.0) == "650" && p.symbol == "AAPL"
    requires p.right == Some(Call) && p.strike.Some? && p.strike.value.amount == 650.0 && p.expiry == Some(Date(2012, 12, 16))
    ensures ProtoKey(fmt, p.(secType := StockType)) == "AAPL.STK"
    ensures ProtoKey(fmt, p.(secType := IndexType)) == "AAPL.IND"
    ensures ProtoKey(fmt, p.(secType := OptionType)) == "AAPL.OPT.20121216.650.C"
  {
    DocumentedExpiry();
    OptionKeyParts(p.symbol, "20121216", "650", "C");
    assert "AAPL" + ".OPT." + ("20121216" + "." + "650" + "." + "C") == "AAPL.OPT.20121216.650.C";
  }

  // ---------------------------------------------------------------- log lines

  const NAMES := ["conId", "symbol", "secType", "right", "strike", "currency", "multiplier", "expiry", "localSymbol"]

  /** What is printed after each name; the closing brace follows the last value. */
  function FieldValues(fmt: StrikeText, c: Contract): (vs: seq<string>)
    ensures |vs| == 9
  {
    [Decimal(c.conId), c.symbol, c.secType, c.right, fmt(c.strike), c.currency, c.multiplier, c.expiry, c.localSymbol + "}"]
  }

  /** The name:value fields of a printed contract. */
  function ContractFields(fmt: StrikeText, c: Contract): (fs: seq<string>)
    ensures |fs| == 9
  {
    var vs := FieldValues(fmt, c);
    seq(9, (i: nat) requires i < 9 => NAMES[i] + ":" + vs[i])
  }

  /** `operator<<(ostream, Contract)`. */
  function PrintContract(fmt: StrikeText, c: Contract): string {
    "contract=" + Join(ContractFields(fmt, c), ';')
  }

  /** A name and a value, split at the first delimiter; without one both are the whole part. */
  function PairOf(part: string, d: char): (string, string) {
    var i := Find(part, d);
    if i < 0 then (part, part) else (part[..i], part[i + 1..])
  }

  /** The name/value map of the parts: the last occurrence of a name wins. */
  function RecordOf(parts: seq<string>, d: char): map<string, string> {
    if parts == [] then map[] else
      var (k, v) := PairOf(parts[|parts| - 1], d);
      RecordOf(parts[..|parts| - 1], d)[k := v]
  }

  /** `line_to_record`. */
  method LineToRecord(line: string, nvDelim: char, pDelim: char) returns (result: map<string, string>)
    ensures result == RecordOf(Split(line, pDelim), nvDelim)
  {
    var parts := Split(line, pDelim);
    result := map[];
    for i := 0 to |parts|
      invariant result == RecordOf(parts[..i], nvDelim)
    {
      var sep := Find(parts[i], nvDelim);
      var key := if sep < 0 then parts[i] else parts[i][..sep];
      var val := if sep < 0 then parts[i] else parts[i][sep + 1..];
      assert parts[..i + 1][..i] == parts[..i];
      result := result[key := val];
    }
    assert parts[..|parts|] == parts;
  }

  lemma {:induction false} LastWins(parts: seq<string>, d: char, i: nat)
    requires i < |parts|
    requires forall j :: i < j < |parts| ==> PairOf(parts[j], d).0 != PairOf(parts[i], d).0
    ensures var (k, v) := PairOf(parts[i], d); k in RecordOf(parts, d) && RecordOf(parts, d)[k] == v
  {
    if i < |parts| - 1 {
      LastWins(parts[..|parts| - 1], d, i);
    }
  }

  lemma NamedPair(name: string, value: string, d: char)
    requires d !in name
    ensures PairOf(name + [d] + value, d) == (name, value)
  {
    FindAfter(name, d, value);
  }

  /** The printed contract cannot be confused with its delimiters. */
  ghost predicate CleanContract(fmt: StrikeText, c: Contract) {
    && Clean(c.symbol) && Clean(c.secType) && Clean(c.right) && Clean(fmt(c.strike)) && Clean(c.currency)
    && Clean(c.multiplier) && Clean(c.expiry) && Clean(c.localSymbol)
  }

  lemma NameHasNoColon(i: nat)
    requires i < 9
    ensures ':' !in NAMES[i] && Clean(NAMES[i])
  {
  }

  lemma FieldPair(fmt: StrikeText, c: Contract, i: nat)
    requires i < 9
    ensures PairOf(ContractFields(fmt, c)[i], ':') == (NAMES[i], FieldValues(fmt, c)[i])
  {
    var v := FieldValues(fmt, c)[i];
    NameHasNoColon(i);
    NamedPair(NAMES[i], v, ':');
  }

  lemma NamesAreDistinct(i: nat, j: nat)
    requires i < j < 9
    ensures NAMES[i] != NAMES[j]
  {
    assert |NAMES[i]| != |NAMES[j]| || NAMES[i][0] != NAMES[j][0] || NAMES[i][1] != NAMES[j][1];
  }

  /** Each printed field is found again under its name. */
  lemma FieldIsRead(fmt: StrikeText, c: Contract, i: nat)
    requires i < 9
    ensures var m := RecordOf(ContractFields(fmt, c), ':');
            NAMES[i] in m && m[NAMES[i]] == FieldValues(fmt, c)[i]
  {
    var fs := ContractFields(fmt, c);
    FieldPair(fmt, c, i);
    forall j | i < j < |fs|
      ensures PairOf(fs[j], ':').0 != PairOf(fs[i], ':').0
    {
      FieldPair(fmt, c, j);
      NamesAreDistinct(i, j);
    }
    LastWins(fs, ':', i);
  }

  lemma FieldsAreClean(fmt: StrikeText, c: Contract, i: nat)
    requires CleanContract(fmt, c) && i < 9
    ensures Clean(ContractFields(fmt, c)[i])
  {
    IntTextIsClean(c.conId);
    NameHasNoColon(i);
    assert Clean(FieldValues(fmt, c)[i]);
    CleanConcat(NAMES[i] + ":", FieldValues(fmt, c)[i]);
  }

  lemma {:induction false} JoinIsCleanOf(parts: seq<string>, d: char, x: char)
    requires parts != [] && x != d && forall i :: 0 <= i < |parts| ==> x !in parts[i]
    ensures x !in Join(parts, d)
  {
    if |parts| > 1 {
      JoinIsCleanOf(parts[1..], d, x);
    }
  }

  /** The map has the contract's key fields. */
  ghost predicate HasKeyFields(fmt: StrikeText, c: Contract, m: map<string, string>) {
    && "symbol" in m && m["symbol"] == c.symbol
    && "secType" in m && m["secType"] == c.secType
    && "right" in m && m["right"] == c.right
    && "strike" in m && m["strike"] == fmt(c.strike)
    && "expiry" in m && m["expiry"] == c.expiry
  }

  lemma KeyFieldsGiveKey(fmt: StrikeText, c: Contract, m: map<string, string>)
    requires HasKeyFields(fmt, c, m)
    ensures MapKey(m) == Some(ContractKey(fmt, c))
  {
    assert c.symbol + "." + c.secType + "" == c.symbol + "." + c.secType;
  }

  lemma PrintedHasKeyFields(fmt: StrikeText, c: Contract)
    ensures HasKeyFields(fmt, c, RecordOf(ContractFields(fmt, c), ':'))
  {
    FieldIsRead(fmt, c, 1);
    FieldIsRead(fmt, c, 2);
    FieldIsRead(fmt, c, 3);
    FieldIsRead(fmt, c, 4);
    FieldIsRead(fmt, c, 7);
  }

  /** Reading a printed contract back gives the key of the contract that was printed. */
  lemma PrintedKeyIsKept(fmt: StrikeText, c: Contract)
    requires CleanContract(fmt, c)
    ensures MapKey(RecordOf(Split(Join(ContractFields(fmt, c), ';'), ';'), ':')) == Some(ContractKey(fmt, c))
  {
    var fs := ContractFields(fmt, c);
    forall i | 0 <= i < |fs| ensures ';' !in fs[i] {
      FieldsAreClean(fmt, c, i);
    }
    SplitUndoesJoin(fs, ';');
    PrintedHasKeyFields(fmt, c);
    KeyFieldsGiveKey(fmt, c, RecordOf(fs, ':'));
  }

  /** A log line: comma-separated fields, the `k`-th of which is the printed contract and no later
      one is called "contract". */
  ghost predicate LineHolds(fmt: StrikeText, fields: seq<string>, k: nat, c: Contract) {
    && k < |fields| && fields[k] == PrintContract(fmt, c)
    && (forall i :: 0 <= i < |fields| && i != k ==> ',' !in fields[i])
    && (forall i :: k < i < |fields| ==> PairOf(fields[i], '=').0 != "contract")
  }

  lemma PrintedIsOneField(fmt: StrikeText, c: Contract)
    requires CleanContract(fmt, c)
    ensures ',' !in PrintContract(fmt, c)
    ensures PairOf(PrintContract(fmt, c), '=') == ("contract", Join(ContractFields(fmt, c), ';'))
  {
    var fs := ContractFields(fmt, c);
    forall i | 0 <= i < |fs| ensures ',' !in fs[i] {
      FieldsAreClean(fmt, c, i);
    }
    JoinIsCleanOf(fs, ';', ',');
    var text := Join(fs, ';');
    NamedPair("contract", text, '=');
    assert "contract=" + text == "contract" + "=" + text;
  }

  /** In any line of comma-free fields, the last field of a name is what the map holds. */
  lemma LineGivesField(fields: seq<string>, k: nat, name: string, value: string)
    requires k < |fields| && PairOf(fields[k], '=') == (name, value)
    requires forall i :: 0 <= i < |fields| ==> ',' !in fields[i]
    requires forall i :: k < i < |fields| ==> PairOf(fields[i], '=').0 != name
    ensures var nv := RecordOf(Split(Join(fields, ','), ','), '='); name in nv && nv[name] == value
  {
    SplitUndoesJoin(fields, ',');
    LastWins(fields, '=', k);
  }

  lemma LineGivesContract(fmt: StrikeText, fields: seq<string>, k: nat, c: Contract)
    requires LineHolds(fmt, fields, k, c) && CleanContract(fmt, c)
    ensures var nv := RecordOf(Split(Join(fields, ','), ','), '=');
            "contract" in nv && nv["contract"] == Join(ContractFields(fmt, c), ';')
  {
    PrintedIsOneField(fmt, c);
    LineGivesField(fields, k, "contract", Join(ContractFields(fmt, c), ';'));
  }

  /** The three keys agree: for every complete contract (an option with expiry and right) whose texts
      are free of ',' and ';', the protobuf's key, the IB contract's key and the key read back from
      any log line that contract was printed into are the same string. */
  lemma ThreeKeysAgree(fmt: StrikeText, p: Proto, fields: seq<string>, k: nat)
    requires Complete(p) && (p.secType.OptionType? ==> p.expiry.Some? && p.right.Some?)
    requires Clean(p.symbol) && Clean(fmt(AmountOf(p))) && (p.localSymbol.Some? ==> Clean(p.localSymbol.value))
    requires LineHolds(fmt, fields, k, Marshalled(FRESH, p))
    ensures var c := Marshalled(FRESH, p);
            var nv := RecordOf(Split(Join(fields, ','), ','), '=');
            && ContractKey(fmt, c) == ProtoKey(fmt, p)
            && "contract" in nv
            && MapKey(RecordOf(Split(nv["contract"], ';'), ':')) == Some(ProtoKey(fmt, p))
  {
    var c := Marshalled(FRESH, p);
    MarshalKeepsKey(fmt, p);
    assert CleanContract(fmt, c) by {
      if p.expiry.Some? {
        ExpiryIsClean(p.expiry.value);
      }
    }
    LineGivesContract(fmt, fields, k, c);
    PrintedKeyIsKept(fmt, c);
  }

  // ---------------------------------------------------------------- the reader's table

  const LONG_LIMIT: nat := 0x8000_0000_0000_0000

  /** What reading a reference line does to the table of ticker ids: nothing, a new entry, an abort
      (unusable contract or an id with two symbols), or an uncaught exception on a bad id. */
  datatype Learned = Ignored | Mapped(symbols: map<int, string>) | Fatal | Threw

  function Learn(symbols: map<int, string>, nv: map<string, string>): Learned {
    if "id" !in nv then Ignored else
      match CastSigned(nv["id"], LONG_LIMIT)
      case None => Learned.Threw
      case Some(id) =>
        if "contract" !in nv then Ignored else
          match MapKey(RecordOf(Split(nv["contract"], ';'), ':'))
          case None => Fatal
          case Some(symbol) =>
            if id !in symbols then Mapped(symbols[id := symbol])
            else if symbols[id] != symbol then Fatal else Ignored
  }

  /** The table after reading records one after the other, or None once one of them aborts. */
  function LearnAll(nvs: seq<map<string, string>>): Option<map<int, string>> {
    if nvs == [] then Some(map[]) else
      match LearnAll(nvs[..|nvs| - 1])
      case None => None
      case Some(symbols) =>
        match Learn(symbols, nvs[|nvs| - 1])
        case Ignored => Some(symbols)
        case Mapped(symbols') => Some(symbols')
        case _ => None
  }

  /** The key a record gives for ticker id `id`, if it is a reference record of that id. */
  function KeyFor(nv: map<string, string>, id: int): Option<string> {
    if "id" in nv && CastSigned(nv["id"], LONG_LIMIT) == Some(id) && "contract" in nv
    then MapKey(RecordOf(Split(nv["contract"], ';'), ':')) else None
  }

  function KeysFor(nvs: seq<map<string, string>>, id: int): seq<Option<string>> {
    if nvs == [] then [] else KeysFor(nvs[..|nvs| - 1], id) + [KeyFor(nvs[|nvs| - 1], id)]
  }

  function Lookup(symbols: map<int, string>, id: int): Option<string> {
    if id in symbols then Some(symbols[id]) else None
  }

  /** There is an entry exactly when there is a key, and the entry is every key there is. */
  ghost predicate Agrees(keys: seq<Option<string>>, entry: Option<string>) {
    && (entry.Some? <==> exists i :: 0 <= i < |keys| && keys[i].Some?)
    && (forall i :: 0 <= i < |keys| && keys[i].Some? ==> keys[i] == entry)
  }

  lemma AgreesSnoc(keys: seq<Option<string>>, entry: Option<string>, key: Option<string>, entry': Option<string>)
    requires Agrees(keys, entry)
    requires entry.Some? ==> entry' == entry
    requires if key.Some? then entry' == key else entry' == entry
    ensures Agrees(keys + [key], entry')
  {
    var keys' := keys + [key];
    if key.Some? {
      assert keys'[|keys|].Some?;
    } else if entry.Some? {
      var i :| 0 <= i < |keys| && keys[i].Some?;
      assert keys'[i].Some?;
    }
  }

  /** What one record does to the entry of an id: only a reference record of that id sets it, and
      never to anything else than it was. */
  lemma OneRecord(symbols: map<int, string>, nv: map<string, string>, id: int, symbols': map<int, string>)
    requires Learn(symbols, nv) == Mapped(symbols') || (Learn(symbols, nv) == Ignored && symbols' == symbols)
    ensures Lookup(symbols, id).Some? ==> Lookup(symbols', id) == Lookup(symbols, id)
    ensures Lookup(symbols', id) == if KeyFor(nv, id).Some? then KeyFor(nv, id) else Lookup(symbols, id)
  {
  }

  /** Over every sequence of records that does not abort, looking an id up finds an entry exactly
      when some record refers to the id, and the entry is the key that each of them gives. */
  lemma {:induction false} LookupIsEveryKey(nvs: seq<map<string, string>>, id: int)
    requires LearnAll(nvs).Some?
    ensures Agrees(KeysFor(nvs, id), Lookup(LearnAll(nvs).value, id))
  {
    if nvs != [] {
      var before, last := nvs[..|nvs| - 1], nvs[|nvs| - 1];
      var symbols, symbols' := LearnAll(before).value, LearnAll(nvs).value;
      LookupIsEveryKey(before, id);
      OneRecord(symbols, last, id, symbols');
      AgreesSnoc(KeysFor(before, id), Lookup(symbols, id), KeyFor(last, id), Lookup(symbols', id));
    }
  }

  /** A record that the reader does not survive: an id that is no number, or a contract without a key. */
  predicate Unusable(nv: map<string, string>) {
    "id" in nv && ( || CastSigned(nv["id"], LONG_LIMIT) == None
                    || ("contract" in nv && MapKey(RecordOf(Split(nv["contract"], ';'), ':')) == None))
  }

  /** Two records give one id different keys. */
  ghost predicate Clash(nvs: seq<map<string, string>>) {
    exists i, j, id :: 0 <= i < |nvs| && 0 <= j < |nvs| && KeyFor(nvs[i], id).Some? && KeyFor(nvs[j], id).Some?
                       && KeyFor(nvs[i], id) != KeyFor(nvs[j], id)
  }

  /** The reader aborts exactly on an unusable record or on two keys for one id. */
  lemma {:induction false} AbortsIff(nvs: seq<map<string, string>>)
    ensures LearnAll(nvs) == None <==> Clash(nvs) || exists i :: 0 <= i < |nvs| && Unusable(nvs[i])
  {
    if nvs != [] {
      var before, last := nvs[..|nvs| - 1], nvs[|nvs| - 1];
      AbortsIff(before);
      if LearnAll(before) == None {
        AbortPersists(nvs);
      } else {
        forall i | 0 <= i < |nvs| - 1 ensures !Unusable(nvs[i]) {
          assert before[i] == nvs[i];
        }
        LastRecordAborts(nvs, LearnAll(before).value);
      }
    }
  }

  lemma AbortPersists(nvs: seq<map<string, string>>)
    requires nvs != []
    requires var before := nvs[..|nvs| - 1]; Clash(before) || exists i :: 0 <= i < |before| && Unusable(before[i])
    ensures Clash(nvs) || exists i :: 0 <= i < |nvs| && Unusable(nvs[i])
  {
    var before := nvs[..|nvs| - 1];
    if Clash(before) {
      var i, j, id :| 0 <= i < |before| && 0 <= j < |before| && KeyFor(before[i], id).Some? && KeyFor(before[j], id).Some?
                      && KeyFor(before[i], id) != KeyFor(before[j], id);
      assert before[i] == nvs[i] && before[j] == nvs[j];
    } else {
      var i :| 0 <= i < |before| && Unusable(before[i]);
      assert before[i] == nvs[i];
    }
  }

  /** One record aborts a table exactly if it is unusable or gives a known id another key. */
  lemma OneAborts(symbols: map<int, string>, nv: map<string, string>)
    ensures Learn(symbols, nv).Fatal? || Learn(symbols, nv) == Learned.Threw <==>
            Unusable(nv) || exists id :: KeyFor(nv, id).Some? && Lookup(symbols, id).Some? && KeyFor(nv, id) != Lookup(symbols, id)
  {
    if "id" in nv && CastSigned(nv["id"], LONG_LIMIT).Some? {
      var id := CastSigned(nv["id"], LONG_LIMIT).value;
      assert forall other :: KeyFor(nv, other).Some? ==> other == id;
      if Learn(symbols, nv).Fatal? && !Unusable(nv) {
        assert KeyFor(nv, id).Some? && Lookup(symbols, id).Some? && KeyFor(nv, id) != Lookup(symbols, id);
      }
    }
  }

  lemma LastRecordAborts(nvs: seq<map<string, string>>, symbols: map<int, string>)
    requires nvs != [] && LearnAll(nvs[..|nvs| - 1]) == Some(symbols)
    requires forall i :: 0 <= i < |nvs| - 1 ==> !Unusable(nvs[i])
    ensures LearnAll(nvs) == None <==> Clash(nvs) || exists i :: 0 <= i < |nvs| && Unusable(nvs[i])
  {
    var n := |nvs| - 1;
    OneAborts(symbols, nvs[n]);
    DifferingIsClash(nvs, symbols);
    if Clash(nvs) {
      ClashIsNew(nvs, symbols);
    }
    LastIsUnusable(nvs);
  }

  lemma LastIsUnusable(nvs: seq<map<string, string>>)
    requires nvs != [] && forall i :: 0 <= i < |nvs| - 1 ==> !Unusable(nvs[i])
    ensures (exists i :: 0 <= i < |nvs| && Unusable(nvs[i])) <==> Unusable(nvs[|nvs| - 1])
  {
  }

  /** A last record that gives a known id another key clashes with the one that gave the entry. */
  lemma DifferingIsClash(nvs: seq<map<string, string>>, symbols: map<int, string>)
    requires nvs != [] && LearnAll(nvs[..|nvs| - 1]) == Some(symbols)
    ensures (exists id :: KeyFor(nvs[|nvs| - 1], id).Some? && Lookup(symbols, id).Some? && KeyFor(nvs[|nvs| - 1], id) != Lookup(symbols, id))
            ==> Clash(nvs)
  {
    var before, last := nvs[..|nvs| - 1], nvs[|nvs| - 1];
    forall id | KeyFor(last, id).Some? && Lookup(symbols, id).Some? && KeyFor(last, id) != Lookup(symbols, id)
      ensures Clash(nvs)
    {
      var i := KeyGiver(before, id);
      assert nvs[i] == before[i];
    }
  }

  /** Some record gave an entry its key. */
  lemma KeyGiver(nvs: seq<map<string, string>>, id: int) returns (i: nat)
    requires LearnAll(nvs).Some? && Lookup(LearnAll(nvs).value, id).Some?
    ensures i < |nvs| && KeyFor(nvs[i], id) == Lookup(LearnAll(nvs).value, id)
  {
    LookupIsEveryKey(nvs, id);
    KeysForAt(nvs, id);
    i :| 0 <= i < |nvs| && KeysFor(nvs, id)[i].Some?;
  }

  lemma {:induction false} KeysForAt(nvs: seq<map<string, string>>, id: int)
    ensures |KeysFor(nvs, id)| == |nvs| && forall i :: 0 <= i < |nvs| ==> KeysFor(nvs, id)[i] == KeyFor(nvs[i], id)
  {
    if nvs != [] {
      KeysForAt(nvs[..|nvs| - 1], id);
    }
  }

  /** Two different keys, where the earlier ones agree: the last is one of them and not the entry. */
  lemma LastKeyDiffers(keys: seq<Option<string>>, entry: Option<string>, key: Option<string>, i: nat, j: nat)
    requires Agrees(keys, entry) && i < |keys| + 1 && j < |keys| + 1
    requires (keys + [key])[i].Some? && (keys + [key])[j].Some? && (keys + [key])[i] != (keys + [key])[j]
    ensures key.Some? && entry.Some? && key != entry
  {
    if i < |keys| {
      assert keys[i].Some?;
    } else {
      assert keys[j].Some?;
    }
  }

  /** A clash that was not there before is of the last record with the table. */
  lemma ClashIsNew(nvs: seq<map<string, string>>, symbols: map<int, string>)
    requires nvs != [] && LearnAll(nvs[..|nvs| - 1]) == Some(symbols) && Clash(nvs)
    ensures exists id :: KeyFor(nvs[|nvs| - 1], id).Some? && Lookup(symbols, id).Some? && KeyFor(nvs[|nvs| - 1], id) != Lookup(symbols, id)
  {
    var before, last := nvs[..|nvs| - 1], nvs[|nvs| - 1];
    var i, j, id :| 0 <= i < |nvs| && 0 <= j < |nvs| && KeyFor(nvs[i], id).Some? && KeyFor(nvs[j], id).Some?
                    && KeyFor(nvs[i], id) != KeyFor(nvs[j], id);
    LookupIsEveryKey(before, id);
    KeysForAt(nvs, id);
    KeysForAt(before, id);
    assert KeysFor(nvs, id) == KeysFor(before, id) + [KeyFor(last, id)];
    LastKeyDiffers(KeysFor(before, id), Lookup(symbols, id), KeyFor(last, id), i, j);
  }

  class SymbolTable {
    var symbols: map<int, string>

    constructor ()
      ensures symbols == map[]
    {
      symbols := map[];
    }

    /** `map_id_to_symbols`; an abort or exception is reported, not continued from. */
    method MapIdToSymbols(nv: map<string, string>) returns (mapped: bool, aborted: bool)
      modifies this
      ensures mapped <==> Learn(old(symbols), nv).Mapped?
      ensures aborted <==> Learn(old(symbols), nv).Fatal? || Learn(old(symbols), nv) == Learned.Threw
      ensures symbols == if mapped then Learn(old(symbols), nv).symbols else old(symbols)
      ensures forall id :: id in old(symbols) ==> id in symbols && symbols[id] == old(symbols)[id]
    {
      if "id" !in nv {
        return false, false;
      }
      var id := CastSigned(nv["id"], LONG_LIMIT);
      if id.None? {
        return false, true;
      }
      if "contract" in nv {
        var inner := LineToRecord(nv["contract"], ':', ';');
        var symbol := MapKey(inner);
        if symbol.None? {
          return false, true;
        }
        if id.value !in symbols {
          symbols := symbols[id.value := symbol.value];
          return true, false;
        } else if symbols[id.value] != symbol.value {
          return false, true;
        }
      }
      return false, false;
    }

    /** `code_to_symbol`. */
    method CodeToSymbol(code: int) returns (symbol: Option<string>)
      ensures symbol == Lookup(symbols, code)
    {
      if code !in symbols {
        return None;
      }
      return Some(symbols[code]);
    }
  }

  /** A reference line for an id not seen before teaches the reader the protobuf's own key. */
  lemma ReaderLearnsProtoKey(fmt: StrikeText, p: Proto, fields: seq<string>, k: nat, symbols: map<int, string>, id: int)
    requires Complete(p) && (p.secType.OptionType? ==> p.expiry.Some? && p.right.Some?)
    requires Clean(p.symbol) && Clean(fmt(AmountOf(p))) && (p.localSymbol.Some? ==> Clean(p.localSymbol.value))
    requires LineHolds(fmt, fields, k, Marshalled(FRESH, p))
    requires var nv := RecordOf(Split(Join(fields, ','), ','), '='); "id" in nv && CastSigned(nv["id"], LONG_LIMIT) == Some(id)
    requires id !in symbols
    ensures Learn(symbols, RecordOf(Split(Join(fields, ','), ','), '=')) == Mapped(symbols[id := ProtoKey(fmt, p)])
  {
    ThreeKeysAgree(fmt, p, fields, k);
  }
}
