/** A client and the server running concurrently over FIFO channels: every interleaving of their
    steps gives the client what the local queries would. */
module RemoteSession {
  import opened Text
  import opened Zmq
  import opened Store
  import opened HistorianDb
  import opened RemoteQuery

  datatype Call = Call(query: Query, visit: Visitor)
  datatype Result = Result(count: nat, visited: seq<Record>)

  datatype Client = Idle | Awaiting(call: Call) | Reading(call: Call, rid: nat, count: nat, visited: seq<Record>)
  datatype Server = Listening | Streaming(rid: nat, pending: seq<Record>) | Stopped

  datatype Net = Net(todo: seq<Call>, client: Client, server: Server,
                     request: seq<Frame>, reply: seq<Frame>, callback: seq<Frame>, results: seq<Result>)

  /** Response ids are the clock modulo a million. */
  const ID_LIMIT: nat := 1_000_000

  function Start(calls: seq<Call>): Net {
    Net(calls, Idle, Listening, [], [], [], [])
  }

  // ---------------------------------------------------------------- steps

  /** The client sends its next query. */
  ghost predicate ClientAsks(c: Codec, n: Net, n': Net) {
    && n.client.Idle? && n.todo != []
    && n' == n.(todo := n.todo[1..], client := Awaiting(n.todo[0]),
                request := n.request + [Frame(c.encodeQuery(n.todo[0].query), false)])
  }

  /** The server reads a query and announces the response; an unreadable query ends its loop. */
  ghost predicate ServerAnswers(c: Codec, s: seq<Entry>, n: Net, n': Net, rid: nat) {
    && n.server.Listening?
    && match ReceiveFirst(n.request)
       case None => false
       case Some((text, rest)) =>
         match c.decodeQuery(text)
         case None => n' == n.(request := rest, server := Stopped)
         case Some(q) => n' == n.(request := rest, reply := n.reply + ReplyFrames(rid), server := Streaming(rid, Answer(s, q)))
  }

  ghost predicate ServerStreams(c: Codec, n: Net, n': Net) {
    && n.server.Streaming? && n.server.pending != []
    && n' == n.(callback := n.callback + RecordFrames(c, n.server.rid, n.server.pending[0]),
                server := Streaming(n.server.rid, n.server.pending[1..]))
  }

  ghost predicate ServerTerminates(n: Net, n': Net) {
    && n.server.Streaming? && n.server.pending == []
    && n' == n.(callback := n.callback + Terminator(n.server.rid), server := Listening)
  }

  /** The client reads the reply; response id 0 is taken for an error. */
  ghost predicate ClientHears(n: Net, n': Net) {
    && n.client.Awaiting?
    && match QueryResponse(n.reply)
       case Response(rid, rest) =>
         if rid > 0 then n' == n.(reply := rest, client := Reading(n.client.call, rid, 0, []))
         else n' == n.(reply := rest, client := Idle, results := n.results + [Result(0, [])])
       case _ => false
  }

  /** The client acts on one turn of its callback loop. */
  ghost predicate ClientTakes(n: Net, n': Net, t: Turn) {
    && n.client.Reading?
    && match t
       case GoesOn(count, visited, rest) =>
         n' == n.(callback := rest, client := Reading(n.client.call, n.client.rid, count, visited))
       case Returns(count, visited, rest) =>
         n' == n.(callback := rest, client := Idle, results := n.results + [Result(count, visited)])
       case _ => false
  }

  ghost predicate ClientReads(c: Codec, n: Net, n': Net) {
    && n.client.Reading?
    && ClientTakes(n, n', CallbackTurn(c, n.client.rid, n.client.call.visit, n.callback, n.client.count, n.client.visited))
  }

  /** Any one step; `rid` is the response id should it be the server's to choose one. */
  ghost predicate Step(c: Codec, s: seq<Entry>, n: Net, n': Net, rid: nat) {
    || ClientAsks(c, n, n')
    || ServerAnswers(c, s, n, n', rid)
    || ServerStreams(c, n, n')
    || ServerTerminates(n, n')
    || ClientHears(n, n')
    || ClientReads(c, n, n')
  }

  /** A step whose response id, if it chooses one, is not 0. */
  ghost predicate Steps(c: Codec, s: seq<Entry>, n: Net, n': Net) {
    exists rid :: 0 < rid < ID_LIMIT && Step(c, s, n, n', rid)
  }

  ghost predicate CanStep(c: Codec, s: seq<Entry>, n: Net) {
    exists n' :: Steps(c, s, n, n')
  }

  /** A run whose response ids are nonzero. */
  ghost predicate IsRun(c: Codec, s: seq<Entry>, calls: seq<Call>, run: seq<Net>) {
    && run != [] && run[0] == Start(calls)
    && forall i {:trigger run[i + 1]} :: 0 <= i < |run| - 1 ==> Steps(c, s, run[i], run[i + 1])
  }

  // ---------------------------------------------------------------- invariant

  function Expected(s: seq<Entry>, call: Call): Result {
    Result(CountTrue(call.visit, Answer(s, call.query)), Answer(s, call.query))
  }

  /** How much of the answer the server has sent: all but what is pending. */
  function Cut(server: Server, answer: seq<Record>): int {
    if server.Streaming? then |answer| - |server.pending| else |answer|
  }

  /** The server holds the end of the answer, or is done with it. */
  ghost predicate ServerFits(server: Server, rid: nat, answer: seq<Record>) {
    match server
    case Listening => true
    case Streaming(id, pending) => id == rid && |pending| <= |answer| && pending == answer[|answer| - |pending|..]
    case Stopped => false
  }

  /** The records from `seen` up to `cut`, and the terminator once the server is done. */
  function Sent(c: Codec, rid: nat, answer: seq<Record>, seen: nat, cut: nat, done: bool): seq<Frame>
    requires seen <= cut <= |answer|
  {
    Body(c, rid, answer[seen..cut]) + if done then Terminator(rid) else []
  }

  /** The answer is split into what the client has seen, what is in the channel and what the server
      still holds. */
  ghost predicate Flow(c: Codec, server: Server, callback: seq<Frame>, rid: nat, answer: seq<Record>, seen: nat) {
    && rid < ID_LIMIT && ServerFits(server, rid, answer)
    && seen <= Cut(server, answer)
    && callback == Sent(c, rid, answer, seen, Cut(server, answer), server.Listening?)
  }

  ghost predicate Announced(c: Codec, s: seq<Entry>, n: Net, rid: nat, call: Call) {
    rid > 0 && n.reply == ReplyFrames(rid) && Flow(c, n.server, n.callback, rid, Answer(s, call.query), 0)
  }

  /** While reading, the client has visited a prefix of the answer; the rest is on its way. */
  ghost predicate ReadingFits(c: Codec, n: Net, answer: seq<Record>, visit: Visitor, rid: nat, count: nat, visited: seq<Record>) {
    && |visited| <= |answer| && visited == answer[..|visited|]
    && count == CountTrue(visit, visited)
    && Flow(c, n.server, n.callback, rid, answer, |visited|)
  }

  ghost predicate Phase(c: Codec, s: seq<Entry>, n: Net) {
    match n.client
    case Idle => n.server.Listening? && n.request == [] && n.reply == [] && n.callback == []
    case Awaiting(call) =>
      || (n.server.Listening? && n.request == [Frame(c.encodeQuery(call.query), false)] && n.reply == [] && n.callback == [])
      || (n.request == [] && exists rid :: Announced(c, s, n, rid, call))
    case Reading(call, rid, count, visited) =>
      n.request == [] && n.reply == [] && rid > 0 && ReadingFits(c, n, Answer(s, call.query), call.visit, rid, count, visited)
  }

  /** Finished calls got what the local query gives; then comes the current call, then the rest. */
  ghost predicate Progress(s: seq<Entry>, calls: seq<Call>, n: Net) {
    var done := |n.results|;
    var current := if n.client.Idle? then [] else [n.client.call];
    && done <= |calls|
    && calls[done..] == current + n.todo
    && forall i :: 0 <= i < done ==> n.results[i] == Expected(s, calls[i])
  }

  ghost predicate Inv(c: Codec, s: seq<Entry>, calls: seq<Call>, n: Net) {
    Phase(c, s, n) && Progress(s, calls, n)
  }

  /** All that the calls put on the wire gets through. */
  ghost predicate ServesAll(c: Codec, s: seq<Entry>, calls: seq<Call>) {
    forall i :: 0 <= i < |calls| ==> Serves(c, s, calls[i].query)
  }

  /** The call being made is one of them. */
  lemma CallIsServed(c: Codec, s: seq<Entry>, calls: seq<Call>, n: Net)
    requires ServesAll(c, s, calls) && Progress(s, calls, n) && !n.client.Idle?
    ensures Serves(c, s, n.client.call.query)
  {
    assert calls[|n.results|..][0] == n.client.call;
  }

  lemma AsksKeeps(c: Codec, s: seq<Entry>, calls: seq<Call>, n: Net, n': Net)
    requires ServesAll(c, s, calls) && Inv(c, s, calls, n) && ClientAsks(c, n, n')
    ensures Inv(c, s, calls, n')
  {
  }

  lemma AnswersKeeps(c: Codec, s: seq<Entry>, calls: seq<Call>, n: Net, n': Net, rid: nat)
    requires ServesAll(c, s, calls) && Inv(c, s, calls, n) && ServerAnswers(c, s, n, n', rid) && 0 < rid < ID_LIMIT
    ensures Inv(c, s, calls, n')
  {
    CallIsServed(c, s, calls, n);
    NothingSent(c, rid, Answer(s, n.client.call.query));
    assert Announced(c, s, n', rid, n.client.call);
  }

  lemma NothingSent(c: Codec, rid: nat, answer: seq<Record>)
    requires rid < ID_LIMIT
    ensures Flow(c, Streaming(rid, answer), [], rid, answer, 0)
  {
    assert answer[0..0] == [] && answer[0..] == answer;
  }

  lemma SendingOneMore(c: Codec, rid: nat, answer: seq<Record>, seen: nat, cut: nat)
    requires seen <= cut < |answer|
    ensures Sent(c, rid, answer, seen, cut, false) + RecordFrames(c, rid, answer[cut]) == Sent(c, rid, answer, seen, cut + 1, false)
  {
    assert answer[seen..cut + 1] == answer[seen..cut] + [answer[cut]];
    BodySnoc(c, rid, answer[seen..cut], answer[cut]);
  }

  /** A server step moves one record, or the terminator, into the channel. */
  lemma StreamKeepsFlow(c: Codec, n: Net, n': Net, rid: nat, answer: seq<Record>, seen: nat)
    requires Flow(c, n.server, n.callback, rid, answer, seen) && (ServerStreams(c, n, n') || ServerTerminates(n, n'))
    ensures Flow(c, n'.server, n'.callback, rid, answer, seen)
  {
    if ServerStreams(c, n, n') {
      var cut := |answer| - |n.server.pending|;
      SendingOneMore(c, rid, answer, seen, cut);
      assert n.server.pending[0] == answer[cut] && n.server.pending[1..] == answer[cut + 1..];
    }
  }

  lemma StreamKeeps(c: Codec, s: seq<Entry>, calls: seq<Call>, n: Net, n': Net)
    requires Inv(c, s, calls, n) && (ServerStreams(c, n, n') || ServerTerminates(n, n'))
    ensures Inv(c, s, calls, n')
  {
    var answer := Answer(s, n.client.call.query);
    if n.client.Awaiting? {
      var rid :| Announced(c, s, n, rid, n.client.call);
      StreamKeepsFlow(c, n, n', rid, answer, 0);
      assert Announced(c, s, n', rid, n.client.call);
    } else {
      StreamKeepsFlow(c, n, n', n.client.rid, answer, |n.client.visited|);
    }
  }

  lemma HearsKeeps(c: Codec, s: seq<Entry>, calls: seq<Call>, n: Net, n': Net)
    requires Inv(c, s, calls, n) && ClientHears(n, n')
    ensures Inv(c, s, calls, n')
  {
    var rid :| Announced(c, s, n, rid, n.client.call);
    ReadReply(rid, []);
    assert n.reply + [] == n.reply;
  }

  lemma NextRecordLeads(c: Codec, rid: nat, answer: seq<Record>, seen: nat, cut: nat, done: bool)
    requires seen < cut <= |answer|
    ensures Sent(c, rid, answer, seen, cut, done) == RecordFrames(c, rid, answer[seen]) + Sent(c, rid, answer, seen + 1, cut, done)
  {
    var rs := answer[seen..cut];
    assert rs[0] == answer[seen] && rs[1..] == answer[seen + 1..cut];
  }

  /** The client reads the next record; `rest` is what follows it in the channel. */
  lemma ReadsNextRecord(c: Codec, rid: nat, visit: Visitor, answer: seq<Record>, visited: seq<Record>,
                        cut: nat, done: bool, callback: seq<Frame>, rest: seq<Frame>)
    requires CarriesAll(c, answer) && rid < ID_LIMIT && |visited| < cut <= |answer|
    requires callback == Sent(c, rid, answer, |visited|, cut, done) && rest == Sent(c, rid, answer, |visited| + 1, cut, done)
    ensures CallbackTurn(c, rid, visit, callback, CountTrue(visit, visited), visited)
         == GoesOn(CountTrue(visit, visited + [answer[|visited|]]), visited + [answer[|visited|]], rest)
  {
    NextRecordLeads(c, rid, answer, |visited|, cut, done);
    ReadCounted(c, rid, visit, answer[|visited|], callback, rest, visited);
  }

  /** With no record in the channel, the client can only read the terminator, and then has it all. */
  lemma ReadsTerminator(c: Codec, rid: nat, visit: Visitor, answer: seq<Record>, visited: seq<Record>, done: bool, callback: seq<Frame>)
    requires Sound(c) && rid < ID_LIMIT && |visited| <= |answer| && callback == Sent(c, rid, answer, |visited|, |visited|, done)
    ensures CallbackTurn(c, rid, visit, callback, CountTrue(visit, visited), visited)
         == if done then Returns(CountTrue(visit, visited), visited, []) else Waits
  {
    assert answer[|visited|..|visited|] == [];
    if done {
      assert callback == Terminator(rid) + [];
      ReadTerminator(c, rid, visit, [], CountTrue(visit, visited), visited);
    } else {
      assert callback == [];
    }
  }

  /** The client's next record is in the channel. */
  ghost predicate HasNext(s: seq<Entry>, n: Net)
    requires n.client.Reading?
  {
    |n.client.visited| < Cut(n.server, Answer(s, n.client.call.query))
  }

  lemma PrefixGrows(answer: seq<Record>, visited: seq<Record>, visited': seq<Record>)
    requires |visited| < |answer| && visited == answer[..|visited|] && visited' == visited + [answer[|visited|]]
    ensures |visited'| == |visited| + 1 && visited' == answer[..|visited'|]
  {
  }

  /** Reading a record: the client has one more of the answer. */
  lemma RecordKeepsReading(c: Codec, n: Net, n': Net, answer: seq<Record>, visit: Visitor, rid: nat, seen: nat, visited': seq<Record>)
    requires Flow(c, n.server, n.callback, rid, answer, seen) && seen < Cut(n.server, answer) && n'.server == n.server
    requires n'.callback == Sent(c, rid, answer, seen + 1, Cut(n.server, answer), n.server.Listening?)
    requires |visited'| == seen + 1 && visited' == answer[..|visited'|]
    ensures ReadingFits(c, n', answer, visit, rid, CountTrue(visit, visited'), visited')
  {
  }

  lemma ReadsRecordKeeps(c: Codec, s: seq<Entry>, n: Net, n': Net)
    requires n.client.Reading? && Serves(c, s, n.client.call.query) && Phase(c, s, n) && ClientReads(c, n, n') && HasNext(s, n)
    ensures Phase(c, s, n') && n'.client.Reading? && n'.client.call == n.client.call
    ensures n'.results == n.results && n'.todo == n.todo
    ensures n'.server == n.server && |n'.client.visited| == |n.client.visited| + 1
  {
    var Reading(call, rid, count, visited) := n.client;
    var answer := Answer(s, call.query);
    var cut, done := Cut(n.server, answer), n.server.Listening?;
    ReadsNextRecord(c, rid, call.visit, answer, visited, cut, done, n.callback, Sent(c, rid, answer, |visited| + 1, cut, done));
    var visited' := visited + [answer[|visited|]];
    PrefixGrows(answer, visited, visited');
    RecordKeepsReading(c, n, n', answer, call.visit, rid, |visited|, visited');
  }

  /** Reading the terminator: the call is done and the channels are empty. */
  lemma ReadsEndKeeps(c: Codec, s: seq<Entry>, n: Net, n': Net)
    requires Sound(c) && Phase(c, s, n) && ClientReads(c, n, n') && !HasNext(s, n)
    ensures Phase(c, s, n') && n'.client.Idle?
    ensures n'.results == n.results + [Expected(s, n.client.call)] && n'.todo == n.todo
    ensures n.server.Listening? && n.client.visited == Answer(s, n.client.call.query)
  {
    var Reading(call, rid, count, visited) := n.client;
    var answer := Answer(s, call.query);
    ReadsTerminator(c, rid, call.visit, answer, visited, n.server.Listening?, n.callback);
    assert visited == answer;
  }

  lemma SameCallKeepsProgress(s: seq<Entry>, calls: seq<Call>, n: Net, n': Net)
    requires Progress(s, calls, n) && n'.results == n.results && n'.todo == n.todo
    requires !n.client.Idle? && !n'.client.Idle? && n'.client.call == n.client.call
    ensures Progress(s, calls, n')
  {
  }

  lemma FinishKeepsProgress(s: seq<Entry>, calls: seq<Call>, n: Net, n': Net)
    requires Progress(s, calls, n) && !n.client.Idle? && n'.client.Idle? && n'.todo == n.todo
    requires n'.results == n.results + [Expected(s, n.client.call)]
    ensures Progress(s, calls, n')
  {
    var done := |n.results|;
    assert calls[done] == calls[done..][0] == n.client.call;
    assert calls[done + 1..] == calls[done..][1..] == n.todo;
  }

  lemma ReadsKeeps(c: Codec, s: seq<Entry>, calls: seq<Call>, n: Net, n': Net)
    requires ServesAll(c, s, calls) && Inv(c, s, calls, n) && ClientReads(c, n, n')
    ensures Inv(c, s, calls, n')
  {
    CallIsServed(c, s, calls, n);
    if !HasNext(s, n) {
      ReadsEndKeeps(c, s, n, n');
      FinishKeepsProgress(s, calls, n, n');
    } else {
      ReadsRecordKeeps(c, s, n, n');
      SameCallKeepsProgress(s, calls, n, n');
    }
  }

  lemma StepKeeps(c: Codec, s: seq<Entry>, calls: seq<Call>, n: Net, n': Net, rid: nat)
    requires ServesAll(c, s, calls) && Inv(c, s, calls, n) && Step(c, s, n, n', rid) && 0 < rid < ID_LIMIT
    ensures Inv(c, s, calls, n')
  {
    if ClientAsks(c, n, n') {
      AsksKeeps(c, s, calls, n, n');
    } else if ServerAnswers(c, s, n, n', rid) {
      AnswersKeeps(c, s, calls, n, n', rid);
    } else if ServerStreams(c, n, n') || ServerTerminates(n, n') {
      StreamKeeps(c, s, calls, n, n');
    } else if ClientHears(n, n') {
      HearsKeeps(c, s, calls, n, n');
    } else {
      ReadsKeeps(c, s, calls, n, n');
    }
  }

  lemma StepsKeep(c: Codec, s: seq<Entry>, calls: seq<Call>, n: Net, n': Net)
    requires ServesAll(c, s, calls) && Inv(c, s, calls, n) && Steps(c, s, n, n')
    ensures Inv(c, s, calls, n')
  {
    var rid :| 0 < rid < ID_LIMIT && Step(c, s, n, n', rid);
    StepKeeps(c, s, calls, n, n', rid);
  }

  lemma StartFits(c: Codec, s: seq<Entry>, calls: seq<Call>)
    ensures Inv(c, s, calls, Start(calls))
  {
    assert calls[0..] == [] + calls;
  }

  lemma RunSteps(c: Codec, s: seq<Entry>, calls: seq<Call>, run: seq<Net>, k: nat)
    requires IsRun(c, s, calls, run) && 0 < k < |run|
    ensures Steps(c, s, run[k - 1], run[k])
  {
    var i := k - 1;
    assert run[i + 1] == run[k];
  }

  /** Every point of a run satisfies the invariant. */
  lemma {:induction false} RunKeepsInv(c: Codec, s: seq<Entry>, calls: seq<Call>, run: seq<Net>, k: nat)
    requires ServesAll(c, s, calls) && IsRun(c, s, calls, run) && k < |run|
    ensures Inv(c, s, calls, run[k])
  {
    if k == 0 {
      StartFits(c, s, calls);
    } else {
      RunKeepsInv(c, s, calls, run, k - 1);
      RunSteps(c, s, calls, run, k);
      StepsKeep(c, s, calls, run[k - 1], run[k]);
    }
  }

  /** Remote queries refine local ones: at every point of every interleaved run, each finished call
      saw exactly the records the local query shows, in order, and returned the number of visits that
      answered true; and whenever the client is between calls the channels are empty. */
  lemma RemoteRefinesLocal(c: Codec, s: seq<Entry>, calls: seq<Call>, run: seq<Net>, k: nat)
    requires ServesAll(c, s, calls) && IsRun(c, s, calls, run) && k < |run|
    ensures |run[k].results| <= |calls|
    ensures forall i :: 0 <= i < |run[k].results| ==> run[k].results[i] == Expected(s, calls[i])
    ensures Sorted(s) ==> forall i :: 0 <= i < |run[k].results| ==> IsRight(s, calls[i], run[k].results[i])
    ensures run[k].client.Idle? ==> run[k].callback == [] && run[k].request == [] && run[k].reply == []
  {
    RunKeepsInv(c, s, calls, run, k);
    if Sorted(s) {
      forall i | 0 <= i < |run[k].results|
        ensures IsRight(s, calls[i], run[k].results[i])
      {
        ExpectedIsRight(s, calls[i]);
      }
    }
  }

  /** A result is right: the records the query is to show, in order, and the number of visits that
      answered true. */
  ghost predicate IsRight(s: seq<Entry>, call: Call, result: Result) {
    && Shows(s, call.query, result.visited)
    && result.count == |set i | 0 < i <= |result.visited| && call.visit(result.visited[..i])|
  }

  lemma ExpectedIsRight(s: seq<Entry>, call: Call)
    requires Sorted(s)
    ensures IsRight(s, call, Expected(s, call))
  {
    AnswerIsShown(s, call.query);
    CountTrueCounts(call.visit, Answer(s, call.query));
  }

  /** No point of a run is stuck before all calls are done. */
  lemma NoDeadlock(c: Codec, s: seq<Entry>, calls: seq<Call>, run: seq<Net>, k: nat)
    requires ServesAll(c, s, calls) && IsRun(c, s, calls, run) && k < |run|
    requires !(run[k].client.Idle? && run[k].todo == [])
    ensures CanStep(c, s, run[k])
  {
    RunKeepsInv(c, s, calls, run, k);
    SomeStepExists(c, s, calls, run[k]);
  }

  lemma SomeStepExists(c: Codec, s: seq<Entry>, calls: seq<Call>, n: Net)
    requires ServesAll(c, s, calls) && Inv(c, s, calls, n) && !(n.client.Idle? && n.todo == [])
    ensures CanStep(c, s, n)
  {
    if n.client.Idle? {
      var n' := n.(todo := n.todo[1..], client := Awaiting(n.todo[0]),
                   request := n.request + [Frame(c.encodeQuery(n.todo[0].query), false)]);
      assert ClientAsks(c, n, n') && Step(c, s, n, n', 1) && Steps(c, s, n, n');
    } else if n.server.Streaming? && n.server.pending != [] {
      var n' := n.(callback := n.callback + RecordFrames(c, n.server.rid, n.server.pending[0]),
                   server := Streaming(n.server.rid, n.server.pending[1..]));
      assert ServerStreams(c, n, n') && Step(c, s, n, n', 1) && Steps(c, s, n, n');
    } else if n.server.Streaming? {
      var n' := n.(callback := n.callback + Terminator(n.server.rid), server := Listening);
      assert ServerTerminates(n, n') && Step(c, s, n, n', 1) && Steps(c, s, n, n');
    } else if n.request != [] {
      var q := n.client.call.query;
      CallIsServed(c, s, calls, n);
      var n' := n.(request := [], reply := n.reply + ReplyFrames(1), server := Streaming(1, Answer(s, q)));
      assert ServerAnswers(c, s, n, n', 1) && Step(c, s, n, n', 1) && Steps(c, s, n, n');
    } else if n.client.Awaiting? {
      var rid :| Announced(c, s, n, rid, n.client.call);
      ReadReply(rid, []);
      assert n.reply + [] == n.reply;
      var n' := n.(reply := [], client := Reading(n.client.call, rid, 0, []));
      assert ClientHears(n, n') && Step(c, s, n, n', 1) && Steps(c, s, n, n');
    } else {
      ReaderIsNotStuck(c, s, calls, n);
    }
  }

  lemma ReaderIsNotStuck(c: Codec, s: seq<Entry>, calls: seq<Call>, n: Net)
    requires ServesAll(c, s, calls) && Inv(c, s, calls, n) && n.client.Reading? && n.server.Listening?
    ensures CanStep(c, s, n)
  {
    var Reading(call, rid, count, visited) := n.client;
    var answer := Answer(s, call.query);
    var t := CallbackTurn(c, rid, call.visit, n.callback, count, visited);
    var n';
    CallIsServed(c, s, calls, n);
    if HasNext(s, n) {
      var cut := Cut(n.server, answer);
      ReadsNextRecord(c, rid, call.visit, answer, visited, cut, true, n.callback, Sent(c, rid, answer, |visited| + 1, cut, true));
      n' := n.(callback := t.rest, client := Reading(call, rid, t.count, t.visited));
    } else {
      ReadsTerminator(c, rid, call.visit, answer, visited, true, n.callback);
      n' := n.(callback := t.rest, client := Idle, results := n.results + [Result(t.count, t.visited)]);
    }
    assert ClientReads(c, n, n') && Step(c, s, n, n', 1) && Steps(c, s, n, n');
  }

  /** The hypothesis can always be met: some codec serves any calls on any store. */
  lemma SomeCodecServes(s: seq<Entry>, calls: seq<Call>)
    ensures exists c :: ServesAll(c, s, calls)
  {
    var rs, qs := Answers(s, calls), Queries(calls);
    forall i | 0 <= i < |calls|
      ensures Serves(TableCodec(rs, qs), s, calls[i].query)
    {
      EveryAnswerListed(s, calls, i);
      TableServes(rs, qs, s, calls[i].query);
    }
    assert ServesAll(TableCodec(rs, qs), s, calls);
  }

  function Answers(s: seq<Entry>, calls: seq<Call>): seq<Record> {
    if calls == [] then [] else Answer(s, calls[0].query) + Answers(s, calls[1..])
  }

  function Queries(calls: seq<Call>): seq<Query> {
    if calls == [] then [] else [calls[0].query] + Queries(calls[1..])
  }

  lemma {:induction false} EveryAnswerListed(s: seq<Entry>, calls: seq<Call>, i: nat)
    requires i < |calls|
    ensures calls[i].query in Queries(calls)
    ensures forall r :: r in Answer(s, calls[i].query) ==> r in Answers(s, calls)
    decreases i
  {
    if i > 0 {
      EveryAnswerListed(s, calls[1..], i - 1);
    }
  }

  // ---------------------------------------------------------------- every run comes to its end

  /** How many steps a call takes: ask, answer, hear, terminate, read the terminator, and two for each
      record. */
  function Cost(s: seq<Entry>, call: Call): nat {
    5 + 2 * |Answer(s, call.query)|
  }

  function Budget(s: seq<Entry>, calls: seq<Call>): nat {
    if calls == [] then 0 else Cost(s, calls[0]) + Budget(s, calls[1..])
  }

  function ServerLeft(server: Server): nat {
    if server.Streaming? then |server.pending| + 1 else 0
  }

  /** The steps the current call still has to take. */
  function CallLeft(s: seq<Entry>, n: Net): int {
    match n.client
    case Idle => 0
    case Awaiting(call) =>
      if n.request != [] then Cost(s, call) - 1 else ServerLeft(n.server) + |Answer(s, call.query)| + 2
    case Reading(call, rid, count, visited) => ServerLeft(n.server) + |Answer(s, call.query)| - |visited| + 1
  }

  function Left(s: seq<Entry>, n: Net): int {
    Budget(s, n.todo) + CallLeft(s, n)
  }

  lemma AsksSpends(c: Codec, s: seq<Entry>, n: Net, n': Net)
    requires Phase(c, s, n) && ClientAsks(c, n, n')
    ensures Left(s, n') == Left(s, n) - 1
  {
  }

  lemma AnswersSpends(c: Codec, s: seq<Entry>, calls: seq<Call>, n: Net, n': Net, rid: nat)
    requires ServesAll(c, s, calls) && Inv(c, s, calls, n) && ServerAnswers(c, s, n, n', rid)
    ensures Left(s, n') == Left(s, n) - 1
  {
    CallIsServed(c, s, calls, n);
  }

  lemma StreamSpends(c: Codec, s: seq<Entry>, n: Net, n': Net)
    requires Phase(c, s, n) && (ServerStreams(c, n, n') || ServerTerminates(n, n'))
    ensures Left(s, n') == Left(s, n) - 1
  {
  }

  lemma HearsSpends(c: Codec, s: seq<Entry>, n: Net, n': Net)
    requires Phase(c, s, n) && ClientHears(n, n')
    ensures Left(s, n') == Left(s, n) - 1
  {
    var rid :| Announced(c, s, n, rid, n.client.call);
    ReadReply(rid, []);
    assert n.reply + [] == n.reply;
  }

  lemma ReadsSpends(c: Codec, s: seq<Entry>, calls: seq<Call>, n: Net, n': Net)
    requires ServesAll(c, s, calls) && Inv(c, s, calls, n) && ClientReads(c, n, n')
    ensures Left(s, n') == Left(s, n) - 1
  {
    CallIsServed(c, s, calls, n);
    if HasNext(s, n) {
      ReadsRecordKeeps(c, s, n, n');
    } else {
      ReadsEndKeeps(c, s, n, n');
    }
  }

  /** Every step, whoever takes it, is one of the budget. */
  lemma StepSpends(c: Codec, s: seq<Entry>, calls: seq<Call>, n: Net, n': Net)
    requires ServesAll(c, s, calls) && Inv(c, s, calls, n) && Steps(c, s, n, n')
    ensures Left(s, n') == Left(s, n) - 1
  {
    var rid :| 0 < rid < ID_LIMIT && Step(c, s, n, n', rid);
    if ClientAsks(c, n, n') {
      AsksSpends(c, s, n, n');
    } else if ServerAnswers(c, s, n, n', rid) {
      AnswersSpends(c, s, calls, n, n', rid);
    } else if ServerStreams(c, n, n') || ServerTerminates(n, n') {
      StreamSpends(c, s, n, n');
    } else if ClientHears(n, n') {
      HearsSpends(c, s, n, n');
    } else {
      ReadsSpends(c, s, calls, n, n');
    }
  }

  /** What is left is 0 exactly when all calls are done. */
  lemma NothingLeftIffDone(c: Codec, s: seq<Entry>, calls: seq<Call>, n: Net)
    requires Inv(c, s, calls, n)
    ensures Left(s, n) >= 0
    ensures Left(s, n) == 0 <==> |n.results| == |calls|
  {
    if n.client.Idle? {
      assert |calls[|n.results|..]| == |n.todo|;
    } else {
      assert |calls[|n.results|..]| == 1 + |n.todo|;
    }
  }

  lemma StartLeft(s: seq<Entry>, calls: seq<Call>)
    ensures Left(s, Start(calls)) == Budget(s, calls)
  {
  }

  lemma PointSpends(c: Codec, s: seq<Entry>, calls: seq<Call>, run: seq<Net>, k: nat, n: Net, n': Net)
    requires ServesAll(c, s, calls) && IsRun(c, s, calls, run) && 0 < k < |run| && n == run[k - 1] && n' == run[k]
    ensures Left(s, n') == Left(s, n) - 1
  {
    RunKeepsInv(c, s, calls, run, k - 1);
    RunSteps(c, s, calls, run, k);
    StepSpends(c, s, calls, n, n');
  }

  lemma {:induction false} CountsDown(f: seq<int>, k: nat)
    requires k < |f| && forall i :: 0 < i < |f| ==> f[i] == f[i - 1] - 1
    ensures k + f[k] == f[0]
  {
    if k > 0 {
      CountsDown(f, k - 1);
    }
  }

  /** What is left at each point of a run. */
  function Lefts(s: seq<Entry>, run: seq<Net>): (f: seq<int>)
    ensures |f| == |run| && forall i :: 0 <= i < |run| ==> f[i] == Left(s, run[i])
  {
    seq(|run|, (i: nat) requires i < |run| => Left(s, run[i]))
  }

  lemma RunSpendsOnes(c: Codec, s: seq<Entry>, calls: seq<Call>, run: seq<Net>, f: seq<int>)
    requires ServesAll(c, s, calls) && IsRun(c, s, calls, run) && f == Lefts(s, run)
    ensures forall i :: 0 < i < |f| ==> f[i] == f[i - 1] - 1
  {
    forall i | 0 < i < |f|
      ensures f[i] == f[i - 1] - 1
    {
      PointSpends(c, s, calls, run, i, run[i - 1], run[i]);
    }
  }

  lemma FirstLeft(s: seq<Entry>, calls: seq<Call>, run: seq<Net>)
    requires run != [] && run[0] == Start(calls)
    ensures Lefts(s, run)[0] == Budget(s, calls)
  {
    StartLeft(s, calls);
  }

  lemma RunSpends(c: Codec, s: seq<Entry>, calls: seq<Call>, run: seq<Net>, k: nat, n: Net)
    requires ServesAll(c, s, calls) && IsRun(c, s, calls, run) && k < |run| && n == run[k]
    ensures k + Left(s, n) == Budget(s, calls)
  {
    var f := Lefts(s, run);
    RunSpendsOnes(c, s, calls, run, f);
    FirstLeft(s, calls, run);
    CountsDown(f, k);
  }

  /** Every run comes to its end: however the steps interleave, a run has at most the budget's number
      of steps, it can be continued as long as it has fewer, and with all of them every call is done. */
  lemma EveryRunFinishes(c: Codec, s: seq<Entry>, calls: seq<Call>, run: seq<Net>)
    requires ServesAll(c, s, calls) && IsRun(c, s, calls, run)
    ensures |run| <= 1 + Budget(s, calls)
    ensures |run| == 1 + Budget(s, calls) <==> |run[|run| - 1].results| == |calls|
    ensures |run| < 1 + Budget(s, calls) <==> CanStep(c, s, run[|run| - 1])
  {
    var k := |run| - 1;
    RunSpends(c, s, calls, run, k, run[k]);
    RunKeepsInv(c, s, calls, run, k);
    NothingLeftIffDone(c, s, calls, run[k]);
    if |run| < 1 + Budget(s, calls) {
      assert !(run[k].client.Idle? && run[k].todo == []);
      NoDeadlock(c, s, calls, run, k);
    }
    if CanStep(c, s, run[k]) {
      var n' :| Steps(c, s, run[k], n');
      StepSpends(c, s, calls, run[k], n');
      StepsKeep(c, s, calls, run[k], n');
      NothingLeftIffDone(c, s, calls, n');
    }
  }

  // ---------------------------------------------------------------- response id 0

  /** What a client call does after its reply: its result, and what it leaves in the callback channel. */
  function AfterReply(c: Codec, visit: Visitor, response: Response, callback: seq<Frame>): Option<(Result, seq<Frame>)> {
    match response
    case Response(rid, _) =>
      if rid == 0 then Some((Result(0, []), callback)) else
        (match CallbackLoop(c, rid, visit, callback, 0, [])
         case Returns(count, visited, rest) => Some((Result(count, visited), rest))
         case _ => None)
    case _ => None
  }

  function ClientCall(c: Codec, visit: Visitor, reply: seq<Frame>, callback: seq<Frame>): Option<(Result, seq<Frame>)> {
    AfterReply(c, visit, QueryResponse(reply), callback)
  }

  lemma ReplyIsHeard(rid: nat)
    requires rid < ID_LIMIT
    ensures QueryResponse(ReplyFrames(rid)) == Response(rid, [])
  {
    ReadReply(rid, []);
    assert ReplyFrames(rid) + [] == ReplyFrames(rid);
  }

  lemma StreamIsReadWhole(c: Codec, visit: Visitor, rid: nat, rs: seq<Record>, stream: seq<Frame>)
    requires Sound(c) && CarriesAll(c, rs) && 0 < rid < ID_LIMIT && stream == StreamFrames(c, rid, rs)
    ensures AfterReply(c, visit, Response(rid, []), stream) == Some((Result(CountTrue(visit, rs), rs), []))
  {
    LoopReadsStream(c, rid, visit, rs, [], []);
    assert stream + [] == stream && [] + rs == rs;
  }

  /** A call leaves the callback channel empty exactly when the response id is not 0; then it is
      exact. With id 0 it sees nothing and the whole stream stays behind. */
  lemma CallIsExactUnlessIdIsZero(c: Codec, s: seq<Entry>, call: Call, rid: nat, stream: seq<Frame>)
    requires Serves(c, s, call.query) && rid < ID_LIMIT && stream == StreamFrames(c, rid, Answer(s, call.query))
    ensures ClientCall(c, call.visit, ReplyFrames(rid), stream)
         == Some(if rid != 0 then (Expected(s, call), []) else (Result(0, []), stream))
    ensures ClientCall(c, call.visit, ReplyFrames(rid), stream).value.1 == [] <==> rid != 0
  {
    ReplyIsHeard(rid);
    if rid != 0 {
      StreamIsReadWhole(c, call.visit, rid, Answer(s, call.query), stream);
    }
  }

  /** A stranded stream makes the next call return 0 without visiting anything. */
  lemma StrandedStreamSpoilsNextCall(c: Codec, visit: Visitor, rid: nat, stranded: nat, rs: seq<Record>, rest: seq<Frame>)
    requires CarriesAll(c, rs) && rid < ID_LIMIT && stranded < ID_LIMIT && rid != stranded
    ensures var t := CallbackLoop(c, rid, visit, StreamFrames(c, stranded, rs) + rest, 0, []);
            t.Returns? && t.count == 0 && t.visited == []
  {
    CastUndoesDecimal(stranded, U64);
    if rs == [] {
      ReadPair(Decimal(stranded), "200", rest);
    } else {
      var more := StreamFrames(c, stranded, rs[1..]) + rest;
      assert StreamFrames(c, stranded, rs) + rest == RecordFrames(c, stranded, rs[0]) + more;
      ReadPair(Decimal(stranded), c.encode(rs[0]), more);
    }
  }
}
