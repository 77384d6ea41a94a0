/** The connector's inbound loop: reads multipart requests, calls the API, replies once to each. */
module InboundReactor {
  import opened Text
  import opened Zmq

  /** What the loop asks of the application: is the key supported, does it have a message creator,
      does a body parse to an initialised message, does the received message validate, does the
      API call succeed. */
  datatype App = App(supported: string -> bool, hasCreator: string -> bool, initialized: (string, string) -> bool,
                     validates: (string, string) -> bool, callApi: (string, string) -> bool)

  /** `ProtoBufferApiMessage`: a message validates when it is initialised. */
  ghost predicate ValidatesInitialized(app: App) {
    forall key, body :: app.initialized(key, body) ==> app.validates(key, body)
  }

  datatype Counters = Counters(requests: int, ok: int, errors: int)

  /** One turn of the loop: the response code, the frames left, and the counters' increments. */
  datatype Turn = Blocks | Turn(code: int, rest: seq<Frame>, delta: Counters)

  function LoopTurn(app: App, fs: seq<Frame>): (t: Turn)
    ensures t.Turn? ==> |t.rest| < |fs|
  {
    match Receive(fs)
    case None => Blocks
    case Some((key, rest)) =>
      if !app.supported(key.data) then
        if !key.more then Turn(404, rest, Counters(0, 0, 0)) else
          (match Drain(rest) case None => Blocks case Some(rest') => Turn(404, rest', Counters(0, 0, 0)))
      else if !key.more then Turn(500, rest, Counters(0, 0, 0))
      else if !app.hasCreator(key.data) then Turn(503, rest, Counters(0, 0, 0))
      else
        match Receive(rest)
        case None => Blocks
        case Some((body, rest')) =>
          if body.more || !app.initialized(key.data, body.data) then Turn(400, rest', Counters(0, 0, 0))
          else if !app.validates(key.data, body.data) then Turn(412, rest', Counters(1, 0, 1))
          else if app.callApi(key.data, body.data) then Turn(200, rest', Counters(1, 1, 0))
          else Turn(502, rest', Counters(1, 0, 1))
  }

  datatype Outcome = Outcome(codes: seq<int>, counters: Counters, rest: seq<Frame>)

  function Add(a: Counters, b: Counters): Counters {
    Counters(a.requests + b.requests, a.ok + b.ok, a.errors + b.errors)
  }

  /** All turns until the loop blocks for more input. */
  function Loop(app: App, fs: seq<Frame>, codes: seq<int>, counters: Counters): Outcome
    decreases |fs|
  {
    match LoopTurn(app, fs)
    case Blocks => Outcome(codes, counters, fs)
    case Turn(code, rest, delta) => Loop(app, rest, codes + [code], Add(counters, delta))
  }

  /** Loop head `k`: the codes and counters so far and the frames left, if the loop gets that far. */
  function HeadAt(app: App, fs: seq<Frame>, k: nat): Option<Outcome> {
    if k == 0 then Some(Outcome([], Counters(0, 0, 0), fs)) else
      match HeadAt(app, fs, k - 1)
      case None => None
      case Some(o) =>
        match LoopTurn(app, o.rest)
        case Blocks => None
        case Turn(code, rest, delta) => Some(Outcome(o.codes + [code], Add(o.counters, delta), rest))
  }

  // ---------------------------------------------------------------- messages

  /** A message is a nonempty sequence of nonempty parts. */
  ghost predicate IsMessage(m: seq<string>) {
    m != [] && forall i :: 0 <= i < |m| ==> m[i] != []
  }

  function Encode(m: seq<string>): seq<Frame>
    requires m != []
  {
    if |m| == 1 then [Frame(m[0], false)] else [Frame(m[0], true)] + Encode(m[1..])
  }

  ghost predicate AreMessages(ms: seq<seq<string>>) {
    forall i :: 0 <= i < |ms| ==> IsMessage(ms[i])
  }

  function EncodeAll(ms: seq<seq<string>>): seq<Frame>
    requires forall i :: 0 <= i < |ms| ==> ms[i] != []
  {
    if ms == [] then [] else Encode(ms[0]) + EncodeAll(ms[1..])
  }

  /** The messages the loop consumes whole. */
  predicate Handleable(app: App, m: seq<string>)
    requires m != []
  {
    !app.supported(m[0]) || |m| == 1 || (app.hasCreator(m[0]) && |m| == 2)
  }

  /** The reply a message should get. */
  function ReplyCode(app: App, m: seq<string>): int
    requires m != []
  {
    if !app.supported(m[0]) then 404
    else if |m| == 1 then 500
    else if !app.initialized(m[0], m[1]) then 400
    else if !app.validates(m[0], m[1]) then 412
    else if app.callApi(m[0], m[1]) then 200
    else 502
  }

  lemma {:induction false} DrainReadsMessage(m: seq<string>, rest: seq<Frame>)
    requires IsMessage(m)
    ensures Drain(Encode(m) + rest) == Some(rest)
  {
    if |m| == 1 {
      assert (Encode(m) + rest)[1..] == rest;
    } else {
      assert (Encode(m) + rest)[1..] == Encode(m[1..]) + rest;
      DrainReadsMessage(m[1..], rest);
    }
  }

  /** The loop consumes exactly one message in a turn if and only if it is handleable; then the
      reply is the message's. */
  lemma TurnStaysInSync(app: App, m: seq<string>, rest: seq<Frame>)
    requires IsMessage(m)
    ensures LoopTurn(app, Encode(m) + rest).Turn?
    ensures LoopTurn(app, Encode(m) + rest).rest == rest <==> Handleable(app, m)
    ensures Handleable(app, m) ==> LoopTurn(app, Encode(m) + rest).code == ReplyCode(app, m)
  {
    var fs := Encode(m) + rest;
    if |m| == 1 {
      assert fs[1..] == rest;
    } else {
      var tail := Encode(m[1..]) + rest;
      assert fs[1..] == tail;
      DrainReadsMessage(m[1..], rest);
      assert Receive(fs) == Some((Frame(m[0], true), tail));
      assert tail[0] == Frame(m[1], |m| > 2);
      assert |tail| > |rest|;
      if |m| == 2 {
        assert tail[1..] == rest;
      } else {
        assert tail[1..] == Encode(m[2..]) + rest by {
          assert m[1..][1..] == m[2..];
        }
        assert |tail[1..]| > |rest|;
      }
    }
  }

  lemma ReceivePart(m: seq<string>, rest: seq<Frame>)
    requires IsMessage(m) && |m| >= 2
    ensures Receive(Encode(m) + rest) == Some((Frame(m[0], true), Encode(m[1..]) + rest))
  {
    assert (Encode(m) + rest)[1..] == Encode(m[1..]) + rest;
  }

  lemma NoCreatorTurn(app: App, fs: seq<Frame>, key: string, tail: seq<Frame>)
    requires Receive(fs) == Some((Frame(key, true), tail)) && app.supported(key) && !app.hasCreator(key)
    ensures LoopTurn(app, fs) == Turn(503, tail, Counters(0, 0, 0))
  {
  }

  lemma LongBodyTurn(app: App, fs: seq<Frame>, key: string, tail: seq<Frame>, body: string, left: seq<Frame>)
    requires Receive(fs) == Some((Frame(key, true), tail)) && app.supported(key) && app.hasCreator(key)
    requires Receive(tail) == Some((Frame(body, true), left))
    ensures LoopTurn(app, fs) == Turn(400, left, Counters(0, 0, 0))
  {
  }

  /** Of any other message the loop reads the key alone, and replies 503, or the key and the first body
      part, and replies 400. */
  lemma OtherTurns(app: App, m: seq<string>, rest: seq<Frame>)
    requires IsMessage(m) && !Handleable(app, m)
    ensures LoopTurn(app, Encode(m) + rest) ==
            if app.hasCreator(m[0]) then Turn(400, Encode(m[2..]) + rest, Counters(0, 0, 0))
            else Turn(503, Encode(m[1..]) + rest, Counters(0, 0, 0))
  {
    ReceivePart(m, rest);
    if app.hasCreator(m[0]) {
      ReceivePart(m[1..], rest);
      assert m[1..][1..] == m[2..];
      LongBodyTurn(app, Encode(m) + rest, m[0], Encode(m[1..]) + rest, m[1], Encode(m[2..]) + rest);
    } else {
      NoCreatorTurn(app, Encode(m) + rest, m[0], Encode(m[1..]) + rest);
    }
  }

  // ---------------------------------------------------------------- whole streams

  lemma EncodeRest(ms: seq<seq<string>>, k: nat)
    requires AreMessages(ms) && k < |ms|
    ensures EncodeAll(ms[k..]) == Encode(ms[k]) + EncodeAll(ms[k + 1..])
  {
    assert ms[k..][1..] == ms[k + 1..];
  }

  /** At loop head `k` exactly the first `k` messages have been consumed. */
  ghost predicate InSyncAt(app: App, ms: seq<seq<string>>, k: nat)
    requires AreMessages(ms) && k <= |ms|
  {
    HeadAt(app, EncodeAll(ms), k).Some? && HeadAt(app, EncodeAll(ms), k).value.rest == EncodeAll(ms[k..])
  }

  lemma {:induction false} HandleableStaysInSync(app: App, ms: seq<seq<string>>, k: nat)
    requires AreMessages(ms) && k <= |ms| && forall i :: 0 <= i < k ==> Handleable(app, ms[i])
    ensures InSyncAt(app, ms, k)
  {
    if k == 0 {
      assert ms[0..] == ms;
    } else {
      HandleableStaysInSync(app, ms, k - 1);
      EncodeRest(ms, k - 1);
      TurnStaysInSync(app, ms[k - 1], EncodeAll(ms[k..]));
    }
  }

  /** Every loop head of a stream of messages is at a message boundary if and only if every message
      is handleable: unsupported, a lone supported key, or a supported key with a creator and one body. */
  lemma InSyncIffHandleable(app: App, ms: seq<seq<string>>)
    requires AreMessages(ms)
    ensures (forall k :: 0 <= k <= |ms| ==> InSyncAt(app, ms, k)) <==> (forall i :: 0 <= i < |ms| ==> Handleable(app, ms[i]))
  {
    if forall i :: 0 <= i < |ms| ==> Handleable(app, ms[i]) {
      forall k | 0 <= k <= |ms| ensures InSyncAt(app, ms, k) {
        HandleableStaysInSync(app, ms, k);
      }
    }
    if forall k :: 0 <= k <= |ms| ==> InSyncAt(app, ms, k) {
      forall i | 0 <= i < |ms| ensures Handleable(app, ms[i]) {
        assert InSyncAt(app, ms, i) && InSyncAt(app, ms, i + 1);
        EncodeRest(ms, i);
        TurnStaysInSync(app, ms[i], EncodeAll(ms[i + 1..]));
      }
    }
  }

  function ReplyCodes(app: App, ms: seq<seq<string>>): seq<int>
    requires forall i :: 0 <= i < |ms| ==> ms[i] != []
  {
    if ms == [] then [] else [ReplyCode(app, ms[0])] + ReplyCodes(app, ms[1..])
  }

  /** A stream of handleable messages is consumed whole and gets exactly one reply each, in order. */
  lemma {:induction false} OneReplyPerMessage(app: App, ms: seq<seq<string>>, codes: seq<int>, counters: Counters)
    requires AreMessages(ms) && forall i :: 0 <= i < |ms| ==> Handleable(app, ms[i])
    ensures Loop(app, EncodeAll(ms), codes, counters).codes == codes + ReplyCodes(app, ms)
    ensures Loop(app, EncodeAll(ms), codes, counters).rest == []
    decreases |ms|
  {
    if ms != [] {
      TurnStaysInSync(app, ms[0], EncodeAll(ms[1..]));
      var t := LoopTurn(app, EncodeAll(ms));
      OneReplyPerMessage(app, ms[1..], codes + [t.code], Add(counters, t.delta));
      assert codes + [t.code] + ReplyCodes(app, ms[1..]) == codes + ReplyCodes(app, ms);
    } else {
      assert codes + [] == codes;
    }
  }

  /** What each code does to the counters. */
  function DeltaOf(code: int): Counters {
    if code == 200 then Counters(1, 1, 0) else if code == 412 || code == 502 then Counters(1, 0, 1) else Counters(0, 0, 0)
  }

  lemma TurnDelta(app: App, fs: seq<Frame>)
    requires LoopTurn(app, fs).Turn?
    ensures LoopTurn(app, fs).delta == DeltaOf(LoopTurn(app, fs).code)
    ensures ValidatesInitialized(app) ==> LoopTurn(app, fs).code != 412
  {
  }

  /** Every request is accounted for: the counters are what the codes say. */
  ghost predicate Balanced(o: Outcome) {
    && o.counters.requests == o.counters.ok + o.counters.errors
    && o.counters.ok == Count(o.codes, 200)
    && o.counters.errors == Count(o.codes, 412) + Count(o.codes, 502)
  }

  lemma CodeKeepsBalance(o: Outcome, code: int, o': Outcome)
    requires Balanced(o) && o'.codes == o.codes + [code] && o'.counters == Add(o.counters, DeltaOf(code))
    ensures Balanced(o')
  {
    CountSnoc(o.codes, code, 200);
    CountSnoc(o.codes, code, 412);
    CountSnoc(o.codes, code, 502);
  }

  lemma CountSnoc(codes: seq<int>, code: int, x: int)
    ensures Count(codes + [code], x) == Count(codes, x) + if code == x then 1 else 0
  {
    assert (codes + [code])[..|codes|] == codes;
  }

  /** On every stream whatever, at every loop head: one code for each turn taken, requests = ok +
      errors, and since receiving already requires an initialised message, 412 has not occurred. */
  lemma {:induction false} LoopIsBalanced(app: App, fs: seq<Frame>, k: nat)
    requires HeadAt(app, fs, k).Some?
    ensures |HeadAt(app, fs, k).value.codes| == k
    ensures Balanced(HeadAt(app, fs, k).value)
    ensures ValidatesInitialized(app) ==> 412 !in HeadAt(app, fs, k).value.codes
  {
    if k > 0 {
      LoopIsBalanced(app, fs, k - 1);
      var o, o' := HeadAt(app, fs, k - 1).value, HeadAt(app, fs, k).value;
      var t := LoopTurn(app, o.rest);
      TurnDelta(app, o.rest);
      CodeKeepsBalance(o, t.code, o');
    }
  }

  function Count(codes: seq<int>, code: int): nat {
    if codes == [] then 0
    else Count(codes[..|codes| - 1], code) + if codes[|codes| - 1] == code then 1 else 0
  }

  /** The loop ends at the last head it reaches. */
  lemma {:induction false} LoopEndsAtHead(app: App, fs: seq<Frame>, k: nat)
    requires HeadAt(app, fs, k).Some?
    ensures var o := HeadAt(app, fs, k).value;
            && Loop(app, fs, [], Counters(0, 0, 0)) == Loop(app, o.rest, o.codes, o.counters)
            && (HeadAt(app, fs, k + 1).None? ==> Loop(app, fs, [], Counters(0, 0, 0)) == o)
  {
    if k > 0 {
      LoopEndsAtHead(app, fs, k - 1);
    }
  }

  // ---------------------------------------------------------------- the object

  class Connector {
    const app: App
    const isRep: bool
    const inbound: Channel
    const outbound: Channel
    var counters: Counters
    /** The response codes handed to `afterMessage`. */
    var codes: seq<int>

    ghost predicate Valid()
      reads this, outbound
    {
      && inbound != outbound
      && outbound.frames == if isRep then Replies(codes) else []
    }

    constructor (app: App, isRep: bool, inbound: Channel, outbound: Channel)
      requires inbound != outbound && outbound.frames == []
      ensures Valid() && this.app == app && this.isRep == isRep && this.inbound == inbound && this.outbound == outbound
      ensures counters == Counters(0, 0, 0) && codes == []
    {
      this.app, this.isRep, this.inbound, this.outbound := app, isRep, inbound, outbound;
      counters, codes := Counters(0, 0, 0), [];
    }

    /** One reply frame in REP mode, none otherwise. */
    method AfterMessage(code: nat)
      requires Valid()
      modifies this`codes, outbound
      ensures Valid() && codes == old(codes) + [code]
    {
      codes := codes + [code];
      if isRep {
        outbound.Send(Decimal(code), false);
        RepliesSnoc(codes);
      }
    }

    /** Reads one message from the socket, as its creator's message does. */
    method ReceiveBody(key: string) returns (body: Option<string>)
      requires Valid() && Receive(inbound.frames).Some?
      modifies inbound
      ensures Valid()
      ensures var (f, rest) := Receive(old(inbound.frames)).value;
              inbound.frames == rest && body == if f.more || !app.initialized(key, f.data) then None else Some(f.data)
    {
      var f := inbound.ReceiveFrame();
      body := if f.more || !app.initialized(key, f.data) then None else Some(f.data);
    }

    /** Counts the request, validates it and calls the API. */
    method Dispatch(key: string, body: string) returns (code: nat)
      modifies this`counters
      ensures counters == Add(old(counters), if app.validates(key, body) && app.callApi(key, body) then Counters(1, 1, 0) else Counters(1, 0, 1))
      ensures code == if !app.validates(key, body) then 412 else if app.callApi(key, body) then 200 else 502
    {
      counters := counters.(requests := counters.requests + 1);
      if !app.validates(key, body) {
        counters := counters.(errors := counters.errors + 1);
        return 412;
      }
      var done := app.callApi(key, body);
      if done {
        counters := counters.(ok := counters.ok + 1);
        return 200;
      }
      counters := counters.(errors := counters.errors + 1);
      return 502;
    }

    /** One turn of `handleReactorInboundMessages`. */
    method HandleOne()
      requires Valid() && LoopTurn(app, inbound.frames).Turn?
      modifies this`counters, this`codes, inbound, outbound
      ensures Valid()
      ensures var t := LoopTurn(app, old(inbound.frames));
              && inbound.frames == t.rest
              && codes == old(codes) + [t.code]
              && counters == Add(old(counters), t.delta)
    {
      var key := inbound.ReceiveFrame();
      var code: nat := 500;
      if !app.supported(key.data) {
        inbound.DrainMessage(key.more);
        code := 404;
      } else if key.more {
        if !app.hasCreator(key.data) {
          code := 503;
        } else {
          var body := ReceiveBody(key.data);
          match body {
            case None => code := 400;
            case Some(b) => code := Dispatch(key.data, b);
          }
        }
      }
      AfterMessage(code);
    }

    /** The loop, for as long as the socket has something to read. */
    method Handle()
      requires Valid()
      modifies this`counters, this`codes, inbound, outbound
      ensures Valid()
      ensures Loop(app, old(inbound.frames), old(codes), old(counters)) == Outcome(codes, counters, inbound.frames)
      ensures |outbound.frames| == (if isRep then |codes| else 0)
      ensures isRep ==> forall i :: 0 <= i < |codes| && codes[i] >= 0 ==> outbound.frames[i] == Frame(Decimal(codes[i]), false)
    {
      while LoopTurn(app, inbound.frames).Turn?
        invariant Valid()
        invariant Loop(app, inbound.frames, codes, counters) == Loop(app, old(inbound.frames), old(codes), old(counters))
        decreases |inbound.frames|
      {
        HandleOne();
      }
      RepliesAt(codes);
    }
  }

  function Replies(codes: seq<int>): seq<Frame> {
    if codes == [] then [] else
      Replies(codes[..|codes| - 1]) + [Frame(if codes[|codes| - 1] >= 0 then Decimal(codes[|codes| - 1]) else "", false)]
  }

  lemma RepliesSnoc(codes: seq<int>)
    requires codes != [] && codes[|codes| - 1] >= 0
    ensures Replies(codes) == Replies(codes[..|codes| - 1]) + [Frame(Decimal(codes[|codes| - 1]), false)]
  {
  }

  /** One reply frame for each code, its text. */
  lemma {:induction false} RepliesAt(codes: seq<int>)
    ensures |Replies(codes)| == |codes|
    ensures forall i :: 0 <= i < |codes| && codes[i] >= 0 ==> Replies(codes)[i] == Frame(Decimal(codes[i]), false)
  {
    if codes != [] {
      RepliesAt(codes[..|codes| - 1]);
    }
  }
}
