/** The historian's remote query protocol: a request/reply pair announces a response id, then
    the records are streamed to the client's callback channel and closed by a terminator. */
module RemoteQuery {
  import opened Text
  import opened Zmq
  import opened Store
  import opened HistorianDb
  import opened HistorianKeys

  const U64: nat := 0x1_0000_0000_0000_0000

  datatype Query = ByRange(first: string, last: string) | BySymbol(query: SymbolQuery)

  /** The message encodings. */
  datatype Codec = Codec(encode: Record -> string, decode: string -> Option<Record>,
                         encodeQuery: Query -> string, decodeQuery: string -> Option<Query>)

  /** What the local query shows a visitor that never stops. */
  function Answer(s: seq<Entry>, q: Query): seq<Record> {
    match q
    case ByRange(first, last) => Records(RangeOf(s, first, last))
    case BySymbol(sq) => Records(Scanned(s, sq))
  }

  // ---------------------------------------------------------------- what an answer is

  /** The records of the store whose keys are in [first, last), in the order of their keys. */
  ghost predicate ShowsRange(s: seq<Entry>, first: string, last: string, visited: seq<Record>) {
    && (forall k, p :: Record(k, p) in visited <==> Entry(k, Encoded(p)) in s && !Less(k, first) && Less(k, last))
    && (forall i, j :: 0 <= i < j < |visited| ==> Less(visited[i].key, visited[j].key))
  }

  /** What a query is to show: the records of the range it gives, or of the keys its symbol and times
      spell; nothing if it is for the index and names none. */
  ghost predicate Shows(s: seq<Entry>, q: Query, visited: seq<Record>) {
    match q
    case ByRange(first, last) => ShowsRange(s, first, last, visited)
    case BySymbol(sq) =>
      var prefix := match sq.kind
                    case MarketDatas => "mkt:" + sq.symbol + ":"
                    case MarketDepths => "depth:" + sq.symbol + ":"
                    case SessionLogs => "sessionlog:" + sq.symbol + ":"
                    case IndexedValues => "x/event-value:" + sq.symbol + ":" + (if sq.index.Some? then sq.index.value else "") + ":";
      if sq.kind.IndexedValues? && sq.index.None? then visited == []
      else ShowsRange(s, prefix + Decimal(sq.first), prefix + Decimal(sq.last), visited)
  }

  lemma {:induction false} RecordsMembers(es: seq<Entry>, k: string, p: Payload)
    ensures Record(k, p) in Records(es) <==> Entry(k, Encoded(p)) in es
  {
    if es != [] {
      RecordsMembers(es[..|es| - 1], k, p);
      assert es == es[..|es| - 1] + [es[|es| - 1]];
    }
  }

  lemma {:induction false} RecordsInKeyOrder(es: seq<Entry>)
    requires Sorted(es)
    ensures forall i, j :: 0 <= i < j < |Records(es)| ==> Less(Records(es)[i].key, Records(es)[j].key)
  {
    if es != [] {
      var before, last := es[..|es| - 1], es[|es| - 1];
      RecordsInKeyOrder(before);
      forall r | r in Records(before)
        ensures Less(r.key, last.key)
      {
        RecordsMembers(before, r.key, r.payload);
      }
    }
  }

  lemma RangeIsShown(s: seq<Entry>, first: string, last: string)
    requires Sorted(s)
    ensures ShowsRange(s, first, last, Records(RangeOf(s, first, last)))
  {
    var es := RangeOf(s, first, last);
    forall k, p
      ensures Record(k, p) in Records(es) <==> Entry(k, Encoded(p)) in s && !Less(k, first) && Less(k, last)
    {
      RecordsMembers(es, k, p);
      RangeMembers(s, first, last, Entry(k, Encoded(p)));
    }
    RangeIsSorted(s, first, last, 0);
    RecordsInKeyOrder(es);
  }

  /** What the local query shows is what the query is to show. */
  lemma AnswerIsShown(s: seq<Entry>, q: Query)
    requires Sorted(s)
    ensures Shows(s, q, Answer(s, q))
  {
    match q
    case ByRange(first, last) => RangeIsShown(s, first, last);
    case BySymbol(sq) =>
      var event := if sq.index.Some? then sq.index.value else "";
      KeysAreSpelled(sq.symbol, event, sq.first);
      KeysAreSpelled(sq.symbol, event, sq.last);
      KeysAreSpelled(sq.symbol, "", sq.first);
      KeysAreSpelled(sq.symbol, "", sq.last);
      if RangeFor(sq).Some? {
        RangeIsShown(s, RangeFor(sq).value.0, RangeFor(sq).value.1);
      }
  }

  /** The count is the number of visits that answered true. */
  lemma {:induction false} CountTrueCounts(visit: Visitor, visited: seq<Record>)
    ensures CountTrue(visit, visited) == |set i | 0 < i <= |visited| && visit(visited[..i])|
  {
    var n := |visited|;
    var yes := set i | 0 < i <= n && visit(visited[..i]);
    if n > 0 {
      var before := visited[..n - 1];
      CountTrueCounts(visit, before);
      var yes' := set i | 0 < i <= n - 1 && visit(before[..i]);
      forall i | 0 < i <= n - 1
        ensures before[..i] == visited[..i]
      {
      }
      assert visited[..n] == visited;
      assert yes == yes' + if visit(visited) then {n} else {};
    } else {
      assert yes == {};
    }
  }

  // ---------------------------------------------------------------- what the encodings must do

  /** The terminator's text is not taken for a record. */
  ghost predicate Sound(c: Codec) {
    c.decode("200") == None
  }

  /** A record gets through the wire. */
  ghost predicate Carries(c: Codec, r: Record) {
    c.decode(c.encode(r)) == Some(r) && c.encode(r) != []
  }

  ghost predicate CarriesAll(c: Codec, rs: seq<Record>) {
    forall i :: 0 <= i < |rs| ==> Carries(c, rs[i])
  }

  ghost predicate CarriesQuery(c: Codec, q: Query) {
    c.decodeQuery(c.encodeQuery(q)) == Some(q) && c.encodeQuery(q) != []
  }

  /** All that a query on this store puts on the wire gets through. */
  ghost predicate Serves(c: Codec, s: seq<Entry>, q: Query) {
    Sound(c) && CarriesQuery(c, q) && CarriesAll(c, Answer(s, q))
  }

  function Position<T(==)>(xs: seq<T>, x: T): (i: nat)
    ensures i <= |xs|
    ensures x in xs ==> i < |xs| && xs[i] == x
  {
    if xs == [] || xs[0] == x then 0 else 1 + Position(xs[1..], x)
  }

  /** Any finite choice of records and queries has an encoding: their positions. */
  function TableCodec(rs: seq<Record>, qs: seq<Query>): Codec {
    Codec((r: Record) => "r" + Decimal(Position(rs, r)), (t: string) => FromTable(rs, t),
          (q: Query) => "r" + Decimal(Position(qs, q)), (t: string) => FromTable(qs, t))
  }

  function FromTable<T>(xs: seq<T>, text: string): Option<T> {
    if text == [] || text[0] != 'r' then None else
      match ParseDigits(text[1..])
      case None => None
      case Some(i) => if i < |xs| then Some(xs[i]) else None
  }

  lemma TableReadsBack<T>(xs: seq<T>, x: T)
    requires x in xs
    ensures FromTable(xs, "r" + Decimal(Position(xs, x))) == Some(x)
  {
    var i := Position(xs, x);
    assert ("r" + Decimal(i))[1..] == Decimal(i);
    ParseUndoesDecimal(i);
  }

  lemma TableServes(rs: seq<Record>, qs: seq<Query>, s: seq<Entry>, q: Query)
    requires q in qs && forall r :: r in Answer(s, q) ==> r in rs
    ensures Serves(TableCodec(rs, qs), s, q)
  {
    TableReadsBack(qs, q);
    var c, answer := TableCodec(rs, qs), Answer(s, q);
    forall i | 0 <= i < |answer|
      ensures Carries(c, answer[i])
    {
      TableReadsBack(rs, answer[i]);
    }
  }

  // ---------------------------------------------------------------- what is sent

  function ReplyFrames(rid: nat): seq<Frame> {
    [Frame("200", true), Frame(Decimal(rid), false)]
  }

  function RecordFrames(c: Codec, rid: nat, r: Record): seq<Frame> {
    [Frame(Decimal(rid), true), Frame(c.encode(r), false)]
  }

  function Terminator(rid: nat): seq<Frame> {
    [Frame(Decimal(rid), true), Frame("200", false)]
  }

  /** The whole stream of one answer. */
  function StreamFrames(c: Codec, rid: nat, rs: seq<Record>): seq<Frame> {
    if rs == [] then Terminator(rid) else RecordFrames(c, rid, rs[0]) + StreamFrames(c, rid, rs[1..])
  }

  /** Record messages without a terminator. */
  function Body(c: Codec, rid: nat, rs: seq<Record>): seq<Frame> {
    if rs == [] then [] else RecordFrames(c, rid, rs[0]) + Body(c, rid, rs[1..])
  }

  lemma {:induction false} BodySnoc(c: Codec, rid: nat, rs: seq<Record>, r: Record)
    ensures Body(c, rid, rs + [r]) == Body(c, rid, rs) + RecordFrames(c, rid, r)
  {
    if rs == [] {
      assert (rs + [r])[1..] == [];
    } else {
      assert (rs + [r])[1..] == rs[1..] + [r];
      BodySnoc(c, rid, rs[1..], r);
    }
  }

  lemma {:induction false} StreamIsBody(c: Codec, rid: nat, rs: seq<Record>)
    ensures StreamFrames(c, rid, rs) == Body(c, rid, rs) + Terminator(rid)
  {
    if rs != [] {
      StreamIsBody(c, rid, rs[1..]);
    }
  }

  // ---------------------------------------------------------------- what is received

  /** The first frame of a message and what follows the message. */
  function ReceiveFirst(fs: seq<Frame>): Option<(string, seq<Frame>)> {
    match Receive(fs)
    case None => None
    case Some((f, rest)) => if !f.more then Some((f.data, rest)) else
      match Drain(rest) case None => None case Some(rest') => Some((f.data, rest'))
  }

  /** One or two frames: the first, the second if announced (else empty), and the rest. */
  function ReceivePair(fs: seq<Frame>): (r: Option<(string, string, seq<Frame>)>)
    ensures r.Some? ==> |r.value.2| < |fs|
  {
    match Receive(fs)
    case None => None
    case Some((f, rest)) => if !f.more then Some((f.data, "", rest)) else
      match Receive(rest) case None => None case Some((g, rest')) => Some((f.data, g.data, rest'))
  }

  /** What `processQueryResponse` does: it waits, throws on an unreadable number, or returns an id. */
  datatype Response = NoResponse | BadResponse(rest: seq<Frame>) | Response(rid: nat, rest: seq<Frame>)

  function QueryResponse(fs: seq<Frame>): Response {
    match ReceivePair(fs)
    case None => NoResponse
    case Some((status, id, rest)) =>
      match (CastInt(status), CastUnsigned(id, U64))
      case (Some(s), Some(rid)) => if s == 200 then Response(rid, rest) else Response(0, rest)
      case _ => BadResponse(rest)
  }

  /** One turn of the callback loop: it waits, throws on an unreadable number, goes on, or returns. */
  datatype Turn = Waits | Throws(visited: seq<Record>, rest: seq<Frame>) | GoesOn(count: nat, visited: seq<Record>, rest: seq<Frame>)
                | Returns(count: nat, visited: seq<Record>, rest: seq<Frame>)

  function CallbackTurn(c: Codec, rid: nat, visit: Visitor, fs: seq<Frame>, count: nat, visited: seq<Record>): (t: Turn)
    ensures t.GoesOn? ==> |t.rest| < |fs|
  {
    match ReceivePair(fs)
    case None => Waits
    case Some((id, body, rest)) =>
      match CastUnsigned(id, U64)
      case None => Throws(visited, rest)
      case Some(received) =>
        if received != rid then Returns(0, visited, rest) else
          match c.decode(body)
          case Some(r) =>
            var visited' := visited + [r];
            GoesOn(if visit(visited') then count + 1 else count, visited', rest)
          case None => if CastInt(body).None? then Throws(visited, rest) else Returns(count, visited, rest)
  }

  /** The whole callback loop. */
  function CallbackLoop(c: Codec, rid: nat, visit: Visitor, fs: seq<Frame>, count: nat, visited: seq<Record>): Turn
    decreases |fs|
  {
    var t := CallbackTurn(c, rid, visit, fs, count, visited);
    if t.GoesOn? then CallbackLoop(c, rid, visit, t.rest, t.count, t.visited) else t
  }

  /** How many of the visits answered true. */
  function CountTrue(visit: Visitor, visited: seq<Record>): nat {
    if visited == [] then 0
    else CountTrue(visit, visited[..|visited| - 1]) + if visit(visited) then 1 else 0
  }

  // ---------------------------------------------------------------- one message

  lemma ReadPair(a: string, b: string, rest: seq<Frame>)
    requires a != [] && b != []
    ensures ReceivePair([Frame(a, true), Frame(b, false)] + rest) == Some((a, b, rest))
  {
    var fs := [Frame(a, true), Frame(b, false)] + rest;
    assert fs[1..] == [Frame(b, false)] + rest;
    assert fs[1..][1..] == rest;
  }

  lemma ReadRecord(c: Codec, rid: nat, visit: Visitor, r: Record, rest: seq<Frame>, count: nat, visited: seq<Record>)
    requires Carries(c, r) && rid < U64
    ensures CallbackTurn(c, rid, visit, RecordFrames(c, rid, r) + rest, count, visited)
         == GoesOn(if visit(visited + [r]) then count + 1 else count, visited + [r], rest)
  {
    ReadPair(Decimal(rid), c.encode(r), rest);
    CastUndoesDecimal(rid, U64);
  }

  lemma ReadTerminator(c: Codec, rid: nat, visit: Visitor, rest: seq<Frame>, count: nat, visited: seq<Record>)
    requires Sound(c) && rid < U64
    ensures CallbackTurn(c, rid, visit, Terminator(rid) + rest, count, visited) == Returns(count, visited, rest)
  {
    ReadPair(Decimal(rid), "200", rest);
    CastUndoesDecimal(rid, U64);
    assert CastInt("200").Some? by {
      assert ParseDigits("200") == Some(200) by {
        assert "200"[..2] == "20" && "20"[..1] == "2";
      }
    }
  }

  lemma ReadReply(rid: nat, rest: seq<Frame>)
    requires rid < U64
    ensures QueryResponse(ReplyFrames(rid) + rest) == Response(rid, rest)
  {
    ReadPair("200", Decimal(rid), rest);
    CastUndoesDecimal(rid, U64);
    assert ParseDigits("200") == Some(200) by {
      assert "200"[..2] == "20" && "20"[..1] == "2";
    }
  }

  // ---------------------------------------------------------------- a whole stream

  /** Reading a stream shows the client exactly its records, in order, counts the visits that
      answered true, stops at the terminator and consumes no more. */
  lemma {:induction false} LoopReadsStream(c: Codec, rid: nat, visit: Visitor, rs: seq<Record>, rest: seq<Frame>,
                                           visited: seq<Record>)
    requires Sound(c) && CarriesAll(c, rs) && rid < U64
    ensures CallbackLoop(c, rid, visit, StreamFrames(c, rid, rs) + rest, CountTrue(visit, visited), visited)
         == Returns(CountTrue(visit, visited + rs), visited + rs, rest)
    decreases |rs|
  {
    if rs == [] {
      ReadTerminator(c, rid, visit, rest, CountTrue(visit, visited), visited);
      assert visited + rs == visited;
    } else {
      var more := StreamFrames(c, rid, rs[1..]) + rest;
      assert StreamFrames(c, rid, rs) + rest == RecordFrames(c, rid, rs[0]) + more;
      ReadCounted(c, rid, visit, rs[0], StreamFrames(c, rid, rs) + rest, more, visited);
      LoopReadsStream(c, rid, visit, rs[1..], rest, visited + [rs[0]]);
      assert visited + [rs[0]] + rs[1..] == visited + rs;
    }
  }

  lemma CountTrueSnoc(visit: Visitor, visited: seq<Record>, r: Record)
    ensures CountTrue(visit, visited + [r]) == CountTrue(visit, visited) + if visit(visited + [r]) then 1 else 0
  {
    assert (visited + [r])[..|visited|] == visited;
  }

  lemma ReadCounted(c: Codec, rid: nat, visit: Visitor, r: Record, fs: seq<Frame>, rest: seq<Frame>, visited: seq<Record>)
    requires Carries(c, r) && rid < U64 && fs == RecordFrames(c, rid, r) + rest
    ensures CallbackTurn(c, rid, visit, fs, CountTrue(visit, visited), visited)
         == GoesOn(CountTrue(visit, visited + [r]), visited + [r], rest)
  {
    ReadRecord(c, rid, visit, r, rest, CountTrue(visit, visited), visited);
    CountTrueSnoc(visit, visited, r);
  }

  // ---------------------------------------------------------------- the sockets

  /** A frame and, if announced, the next one. */
  method ReceivePairFrom(channel: Channel) returns (first: string, second: string)
    requires ReceivePair(channel.frames).Some?
    modifies channel
    ensures ReceivePair(old(channel.frames)) == Some((first, second, channel.frames))
  {
    var f := channel.ReceiveFrame();
    first, second := f.data, "";
    if f.more {
      var g := channel.ReceiveFrame();
      second := g.data;
    }
  }

  /** What the local query shows on a database, which answers nothing until it is open. */
  function LocalAnswer(db: Db, q: Query): seq<Record>
    reads db
  {
    if db.isOpen then Answer(db.entries, q) else []
  }

  /** `processQueryResponse`, called when a reply has arrived. None is the uncaught exception. */
  method ProcessQueryResponse(channel: Channel) returns (rid: Option<nat>)
    requires !QueryResponse(channel.frames).NoResponse?
    modifies channel
    ensures QueryResponse(old(channel.frames)) == match rid
                                                  case Some(id) => Response(id, channel.frames)
                                                  case None => BadResponse(channel.frames)
  {
    var frame1, frame2 := ReceivePairFrom(channel);
    var status, responseId := CastInt(frame1), CastUnsigned(frame2, U64);
    if status.None? || responseId.None? {
      return None;
    }
    if status.value == 200 {
      return responseId;
    }
    return Some(0);
  }

  /** `processCallback`, called when it need not wait for ever. A count of None is the uncaught
      exception. */
  method ProcessCallback(c: Codec, rid: nat, channel: Channel, visit: Visitor) returns (result: Option<nat>, visited: seq<Record>)
    requires !CallbackLoop(c, rid, visit, channel.frames, 0, []).Waits?
    modifies channel
    ensures CallbackLoop(c, rid, visit, old(channel.frames), 0, []) == match result
                                                                       case Some(count) => Returns(count, visited, channel.frames)
                                                                       case None => Throws(visited, channel.frames)
  {
    var count := 0;
    visited := [];
    while true
      invariant CallbackLoop(c, rid, visit, channel.frames, count, visited)
             == CallbackLoop(c, rid, visit, old(channel.frames), 0, [])
      decreases |channel.frames|
    {
      var frame1, frame2 := ReceivePairFrom(channel);
      var receivedId := CastUnsigned(frame1, U64);
      if receivedId.None? {
        return None, visited;
      }
      if receivedId.value != rid {
        return Some(0), visited;
      }
      match c.decode(frame2) {
        case Some(record) =>
          visited := visited + [record];
          if visit(visited) {
            count := count + 1;
          }
        case None =>
          if CastInt(frame2).None? {
            return None, visited;
          }
          return Some(count), visited;
      }
    }
  }

  /** The server's `respond`: read the query, announce the response id, stream the answer. */
  method Respond(c: Codec, db: Db, request: Channel, reply: Channel, callback: Channel, rid: nat) returns (goOn: bool)
    requires db.Valid()
    requires request != reply && request != callback && reply != callback
    requires ReceiveFirst(request.frames).Some?
    modifies request, reply, callback
    ensures var (text, rest) := ReceiveFirst(old(request.frames)).value;
            && request.frames == rest
            && goOn == c.decodeQuery(text).Some?
            && (goOn ==>
                 && reply.frames == old(reply.frames) + ReplyFrames(rid)
                 && callback.frames == old(callback.frames) + StreamFrames(c, rid, LocalAnswer(db, c.decodeQuery(text).value)))
            && (!goOn ==> reply.frames == old(reply.frames) && callback.frames == old(callback.frames))
  {
    var f := request.ReceiveFrame();
    request.DrainMessage(f.more);
    var query := c.decodeQuery(f.data);
    if query.None? {
      return false;
    }
    SendPair(reply, "200", Decimal(rid));
    Stream(c, db, callback, rid, query.value);
    return true;
  }

  /** The local query of a visitor that always answers true, as the sending visitor does. */
  method RunLocally(db: Db, query: Query) returns (visited: seq<Record>)
    requires db.Valid()
    ensures visited == LocalAnswer(db, query)
  {
    var count;
    match query {
      case ByRange(first, last) => count, visited := db.Query(first, last, _ => true);
      case BySymbol(q) => count, visited := db.QueryBySymbol(q, _ => true);
    }
  }

  /** A two-part message. */
  method SendPair(channel: Channel, first: string, second: string)
    modifies channel
    ensures channel.frames == old(channel.frames) + [Frame(first, true), Frame(second, false)]
  {
    channel.Send(first, true);
    channel.Send(second, false);
  }

  method SendRecords(c: Codec, callback: Channel, rid: nat, rs: seq<Record>)
    modifies callback
    ensures callback.frames == old(callback.frames) + Body(c, rid, rs)
  {
    for i := 0 to |rs|
      invariant callback.frames == old(callback.frames) + Body(c, rid, rs[..i])
    {
      SendPair(callback, Decimal(rid), c.encode(rs[i]));
      BodySnoc(c, rid, rs[..i], rs[i]);
      assert rs[..i + 1] == rs[..i] + [rs[i]];
    }
    assert rs[..|rs|] == rs;
  }

  /** `CallbackStreamer`: every record, then the terminator. */
  method Stream(c: Codec, db: Db, callback: Channel, rid: nat, query: Query)
    requires db.Valid()
    modifies callback
    ensures callback.frames == old(callback.frames) + StreamFrames(c, rid, LocalAnswer(db, query))
  {
    var rs := RunLocally(db, query);
    SendRecords(c, callback, rid, rs);
    SendPair(callback, Decimal(rid), "200");
    StreamIsBody(c, rid, rs);
  }

  /** A whole remote query, the server answering between the client's send and its first receive.
      With a nonzero response id the client sees what the local query shows and every channel is
      left empty; with id 0 it sees nothing and the stream stays in the callback channel. */
  method RunRemotely(c: Codec, db: Db, request: Channel, reply: Channel, callback: Channel, rid: nat, query: Query, visit: Visitor)
      returns (count: nat, visited: seq<Record>)
    requires Sound(c) && CarriesQuery(c, query) && CarriesAll(c, LocalAnswer(db, query)) && rid < U64 && db.Valid()
    requires request != reply && request != callback && reply != callback
    requires request.frames == [] && reply.frames == [] && callback.frames == []
    modifies request, reply, callback
    ensures request.frames == [] && reply.frames == []
    ensures rid != 0 ==> visited == LocalAnswer(db, query) && count == CountTrue(visit, visited) && callback.frames == []
    ensures rid != 0 ==> if db.isOpen then Shows(db.entries, query, visited) else visited == []
    ensures rid == 0 ==> visited == [] && count == 0 && callback.frames == StreamFrames(c, rid, LocalAnswer(db, query))
  {
    AnswerIsShown(db.entries, query);
    request.Send(c.encodeQuery(query), false);
    var _ := Respond(c, db, request, reply, callback, rid);
    ghost var rs := LocalAnswer(db, query);
    ReadReply(rid, []);
    assert reply.frames == ReplyFrames(rid) + [];
    var responseId := ProcessQueryResponse(reply);
    if responseId.value > 0 {
      LoopReadsStream(c, rid, visit, rs, [], []);
      assert callback.frames == StreamFrames(c, rid, rs) + [] && [] + rs == rs;
      var result;
      result, visited := ProcessCallback(c, rid, callback, visit);
      count := result.value;
    } else {
      count, visited := 0, [];
    }
  }

  /** The local query itself. */
  method QueryLocally(db: Db, query: Query, visit: Visitor) returns (count: nat, visited: seq<Record>)
    requires db.Valid()
    ensures !db.isOpen ==> count == 0 && visited == []
    ensures db.isOpen ==> IsScan(Entries(db.entries, query), visit, count, visited)
  {
    match query {
      case ByRange(first, last) => count, visited := db.Query(first, last, visit);
      case BySymbol(q) => count, visited := db.QueryBySymbol(q, visit);
    }
  }

  /** The entries whose records are the answer. */
  function Entries(s: seq<Entry>, q: Query): seq<Entry> {
    match q
    case ByRange(first, last) => RangeOf(s, first, last)
    case BySymbol(sq) => Scanned(s, sq)
  }

  /** One query run both ways with one visitor, on an open database. The local visits are the first of
      the remote ones, and all of them exactly when the visitor refuses no record before the last:
      remotely a refusal does not stop the visits. A visitor that never refuses is shown the same, and
      the counts agree if every scanned entry holds a record. */
  method CompareWithLocal(c: Codec, db: Db, request: Channel, reply: Channel, callback: Channel, rid: nat, query: Query, visit: Visitor)
      returns (here: nat, seenHere: seq<Record>, there: nat, seenThere: seq<Record>)
    requires Sound(c) && CarriesQuery(c, query) && CarriesAll(c, LocalAnswer(db, query)) && 0 < rid < U64 && db.Valid() && db.isOpen
    requires request != reply && request != callback && reply != callback
    requires request.frames == [] && reply.frames == [] && callback.frames == []
    modifies request, reply, callback
    ensures seenHere <= seenThere && Shows(db.entries, query, seenThere)
    ensures seenHere == seenThere <==> forall i :: 0 < i < |seenThere| ==> visit(seenThere[..i])
    ensures (forall vs :: visit(vs)) ==>
              && seenHere == seenThere && there == |seenThere|
              && ((forall i :: 0 <= i < |Entries(db.entries, query)| ==> Entries(db.entries, query)[i].blob.Encoded?) ==> here == there)
  {
    ghost var es := Entries(db.entries, query);
    here, seenHere := QueryLocally(db, query, visit);
    there, seenThere := RunRemotely(c, db, request, reply, callback, rid, query, visit);
    ScanIsPrefix(es, visit, here, seenHere);
    if forall vs :: visit(vs) {
      EveryVisitCounts(visit, seenThere);
      if forall i :: 0 <= i < |es| ==> es[i].blob.Encoded? {
        RecordsAreEntries(es);
      }
    }
  }

  lemma {:induction false} EveryVisitCounts(visit: Visitor, visited: seq<Record>)
    requires forall vs :: visit(vs)
    ensures CountTrue(visit, visited) == |visited|
  {
    if visited != [] {
      EveryVisitCounts(visit, visited[..|visited| - 1]);
    }
  }

  // ---------------------------------------------------------------- messages that are not of a stream

  /** What the client makes of any two-part reply. */
  lemma AnyReply(status: string, id: string, rest: seq<Frame>)
    requires status != [] && id != []
    ensures var r := QueryResponse([Frame(status, true), Frame(id, false)] + rest);
            && r.rest == rest
            && (r.BadResponse? <==> CastInt(status) == None || CastUnsigned(id, U64) == None)
            && (r.Response? ==> r.rid == if CastInt(status) == Some(200) then CastUnsigned(id, U64).value else 0)
  {
    ReadPair(status, id, rest);
  }

  /** What the client makes of any two-part message on the callback channel: it goes on exactly with a
      record of its own id, throws exactly on an unreadable id, or on a body of its own id that is
      neither record nor number, and otherwise returns, with 0 exactly on a foreign id if it had counted. */
  lemma AnyCallback(c: Codec, rid: nat, visit: Visitor, id: string, body: string, rest: seq<Frame>, count: nat, visited: seq<Record>)
    requires id != [] && body != []
    ensures var t := CallbackTurn(c, rid, visit, [Frame(id, true), Frame(body, false)] + rest, count, visited);
            && !t.Waits? && t.rest == rest
            && (t.GoesOn? <==> CastUnsigned(id, U64) == Some(rid) && c.decode(body).Some?)
            && (t.GoesOn? ==> t.visited == visited + [c.decode(body).value] && t.count == count + if visit(t.visited) then 1 else 0)
            && (t.Throws? <==> CastUnsigned(id, U64) == None
                               || (CastUnsigned(id, U64) == Some(rid) && c.decode(body) == None && CastInt(body) == None))
            && (t.Returns? ==> t.visited == visited && t.count == if CastUnsigned(id, U64) == Some(rid) then count else 0)
  {
    ReadPair(id, body, rest);
  }
}
