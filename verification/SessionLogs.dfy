/** The loader's session logs: each symbol's events are split into sessions at long gaps. */
module SessionLogs {
  import opened Text
  import opened Store
  import opened HistorianDb

  const MINUTE: int := 60_000_000

  /** boost's time_duration::minutes(): the minutes component, 0 to 59, with the duration's sign. */
  function MinutesOf(micros: int): int {
    if micros >= 0 then micros / MINUTE % 60 else -((-micros) / MINUTE % 60)
  }

  predicate Splits(gap: int, log: SessionLog, t: nat) {
    log.stop > 0 && MinutesOf(t - log.stop) > gap
  }

  // ---------------------------------------------------------------- all symbols together

  datatype Event = Event(symbol: string, t: nat)

  /** The open log of each symbol, and the logs written out so far. */
  datatype Logs = Logs(open: map<string, SessionLog>, flushed: seq<SessionLog>)

  /** One event; `source` names the input and `file` the log file's base name. */
  function Update(gap: int, source: string, file: string, l: Logs, e: Event): Logs {
    if e.symbol !in l.open then l.(open := l.open[e.symbol := SessionLog(e.symbol, e.t, 0, source)])
    else
      var log := l.open[e.symbol];
      if Splits(gap, log, e.t) then
        Logs(l.open[e.symbol := log.(start := e.t, stop := e.t, source := file)], l.flushed + [log.(source := file)])
      else l.(open := l.open[e.symbol := log.(stop := e.t)])
  }

  function Updates(gap: int, source: string, file: string, es: seq<Event>): Logs {
    if es == [] then Logs(map[], [])
    else Update(gap, source, file, Updates(gap, source, file, es[..|es| - 1]), es[|es| - 1])
  }

  // ---------------------------------------------------------------- one symbol

  datatype Span = Span(start: nat, stop: nat)

  /** The closed sessions of one symbol and its open one. */
  datatype Track = Track(closed: seq<Span>, open: Span)

  /** The sessions of one symbol's times, by the same rules. */
  function TrackOf(gap: int, ts: seq<nat>): Track
    requires ts != []
  {
    var t := ts[|ts| - 1];
    if |ts| == 1 then Track([], Span(t, 0)) else
      var k := TrackOf(gap, ts[..|ts| - 1]);
      if k.open.stop > 0 && MinutesOf(t - k.open.stop) > gap then Track(k.closed + [k.open], Span(t, t))
      else Track(k.closed, Span(k.open.start, t))
  }

  function TimesOf(es: seq<Event>, symbol: string): seq<nat> {
    if es == [] then [] else
      TimesOf(es[..|es| - 1], symbol) + if es[|es| - 1].symbol == symbol then [es[|es| - 1].t] else []
  }

  /** The spans of the logs flushed for one symbol. */
  function FlushedOf(logs: seq<SessionLog>, symbol: string): seq<Span> {
    if logs == [] then [] else
      FlushedOf(logs[..|logs| - 1], symbol) +
      if logs[|logs| - 1].symbol == symbol then [Span(logs[|logs| - 1].start, logs[|logs| - 1].stop)] else []
  }

  lemma FlushedSnoc(logs: seq<SessionLog>, log: SessionLog, symbol: string)
    ensures FlushedOf(logs + [log], symbol) == FlushedOf(logs, symbol) + if log.symbol == symbol then [Span(log.start, log.stop)] else []
  {
    assert (logs + [log])[..|logs|] == logs;
  }

  /** The logs of a symbol are the sessions of the times `ts`. */
  ghost predicate Tracks(gap: int, l: Logs, symbol: string, ts: seq<nat>) {
    && (symbol in l.open <==> ts != [])
    && (ts == [] ==> FlushedOf(l.flushed, symbol) == [])
    && (ts != [] ==>
         && l.open[symbol].symbol == symbol
         && FlushedOf(l.flushed, symbol) == TrackOf(gap, ts).closed
         && Span(l.open[symbol].start, l.open[symbol].stop) == TrackOf(gap, ts).open)
  }

  /** An event of the symbol itself extends its times; one of another symbol does not matter. */
  lemma UpdateTracks(gap: int, source: string, file: string, l: Logs, e: Event, symbol: string, ts: seq<nat>)
    requires Tracks(gap, l, symbol, ts)
    requires e.symbol in l.open ==> l.open[e.symbol].symbol == e.symbol
    ensures Tracks(gap, Update(gap, source, file, l, e), symbol, if e.symbol == symbol then ts + [e.t] else ts)
  {
    if e.symbol in l.open {
      FlushedSnoc(l.flushed, l.open[e.symbol].(source := file), symbol);
    }
    if e.symbol == symbol {
      assert (ts + [e.t])[..|ts|] == ts;
    }
  }

  /** Symbols do not disturb one another: the loader's logs of a symbol are the sessions of that
      symbol's own times. */
  lemma {:induction false} SymbolsAreIndependent(gap: int, source: string, file: string, es: seq<Event>, symbol: string)
    ensures Tracks(gap, Updates(gap, source, file, es), symbol, TimesOf(es, symbol))
  {
    if es != [] {
      var before, e := es[..|es| - 1], es[|es| - 1];
      SymbolsAreIndependent(gap, source, file, before, symbol);
      SymbolsAreIndependent(gap, source, file, before, e.symbol);
      UpdateTracks(gap, source, file, Updates(gap, source, file, before), e, symbol, TimesOf(before, symbol));
      assert TimesOf(before, symbol) + [] == TimesOf(before, symbol);
    }
  }

  // ---------------------------------------------------------------- the sessions of one symbol

  ghost predicate Ordered(ts: seq<nat>) {
    && (forall i :: 0 <= i < |ts| ==> ts[i] > 0)
    && (forall i, j :: 0 <= i < j < |ts| ==> ts[i] <= ts[j])
  }

  /** The open session ends with its last event, which is its first as long as stop is 0. */
  function Closed(s: Span): Span {
    if s.stop == 0 then Span(s.start, s.start) else s
  }

  function Sessions(k: Track): seq<Span> {
    k.closed + [Closed(k.open)]
  }

  /** Sessions are nonempty, in order, and more than the configured minutes apart. */
  ghost predicate Separated(gap: int, ss: seq<Span>) {
    && (forall i :: 0 <= i < |ss| ==> ss[i].start <= ss[i].stop)
    && (forall i, j :: 0 <= i < j < |ss| ==> ss[i].stop <= ss[j].start && ss[j].start - ss[i].stop > gap * MINUTE)
  }

  predicate Covers(s: Span, t: nat) {
    s.start <= t <= s.stop
  }

  ghost predicate CoveredBy(ss: seq<Span>, t: nat) {
    exists i :: 0 <= i < |ss| && Covers(ss[i], t)
  }

  lemma MinutesBound(d: int, gap: int)
    requires d >= 0 && MinutesOf(d) > gap
    ensures d > gap * MINUTE
  {
    var m := d / MINUTE;
    assert m % 60 <= m;
    assert d >= m * MINUTE;
  }

  /** What the sessions look like after every ordered run of one symbol. */
  ghost predicate WellSplit(gap: int, ts: seq<nat>, k: Track)
    requires ts != []
  {
    && Separated(gap, Sessions(k))
    && (forall i :: 0 <= i < |ts| ==> CoveredBy(Sessions(k), ts[i]))
    && (k.open.stop == 0 <==> |ts| == 1)
    && Closed(k.open).stop == ts[|ts| - 1]
    && Sessions(k)[0].start == ts[0]
  }

  lemma {:induction false} SessionsAreWellSplit(gap: int, ts: seq<nat>)
    requires ts != [] && Ordered(ts)
    ensures WellSplit(gap, ts, TrackOf(gap, ts))
  {
    if |ts| == 1 {
      assert Covers(Sessions(TrackOf(gap, ts))[0], ts[0]);
    } else {
      var before := ts[..|ts| - 1];
      assert before[0] == ts[0];
      SessionsAreWellSplit(gap, before);
      NextEventKeepsSplit(gap, ts, TrackOf(gap, before));
    }
  }

  /** A long gap closes the open session and opens another. */
  lemma SplitKeeps(gap: int, ts: seq<nat>, k: Track)
    requires |ts| >= 2 && Ordered(ts) && WellSplit(gap, ts[..|ts| - 1], k)
    requires k.open.stop > 0 && MinutesOf(ts[|ts| - 1] - k.open.stop) > gap
    ensures WellSplit(gap, ts, Track(k.closed + [k.open], Span(ts[|ts| - 1], ts[|ts| - 1])))
  {
    var before, t := ts[..|ts| - 1], ts[|ts| - 1];
    var ss, k' := Sessions(k), Track(k.closed + [k.open], Span(t, t));
    assert before[0] == ts[0] && k.open.stop == ts[|ts| - 2] <= t;
    MinutesBound(t - k.open.stop, gap);
    assert Sessions(k') == ss + [Span(t, t)];
    GrowSessions(gap, ss, t);
    forall i | 0 <= i < |ts| - 1 ensures CoveredBy(ss, ts[i]) {
      assert before[i] == ts[i];
    }
    CoverAfterGrowing(ts, ss, Sessions(k'));
  }

  /** Otherwise the open session is extended. */
  lemma ExtendKeeps(gap: int, ts: seq<nat>, k: Track)
    requires |ts| >= 2 && Ordered(ts) && WellSplit(gap, ts[..|ts| - 1], k)
    ensures WellSplit(gap, ts, Track(k.closed, Span(k.open.start, ts[|ts| - 1])))
  {
    var before, t := ts[..|ts| - 1], ts[|ts| - 1];
    var ss, ss' := Sessions(k), Sessions(Track(k.closed, Span(k.open.start, t)));
    assert before[0] == ts[0] && Closed(k.open).stop == ts[|ts| - 2] <= t;
    StretchSessions(gap, ss, ss');
    forall i | 0 <= i < |ts| - 1 ensures CoveredBy(ss, ts[i]) {
      assert before[i] == ts[i];
    }
    CoverAfterGrowing(ts, ss, ss');
  }

  lemma StretchSessions(gap: int, ss: seq<Span>, ss': seq<Span>)
    requires |ss| == |ss'| > 0 && Separated(gap, ss)
    requires forall i :: 0 <= i < |ss| - 1 ==> ss'[i] == ss[i]
    requires ss'[|ss| - 1].start == ss[|ss| - 1].start && ss'[|ss| - 1].stop >= ss[|ss| - 1].stop
    ensures Separated(gap, ss')
  {
  }

  lemma NextEventKeepsSplit(gap: int, ts: seq<nat>, k: Track)
    requires |ts| >= 2 && Ordered(ts) && WellSplit(gap, ts[..|ts| - 1], k)
    ensures var t := ts[|ts| - 1];
            WellSplit(gap, ts, if k.open.stop > 0 && MinutesOf(t - k.open.stop) > gap then Track(k.closed + [k.open], Span(t, t))
                               else Track(k.closed, Span(k.open.start, t)))
  {
    if k.open.stop > 0 && MinutesOf(ts[|ts| - 1] - k.open.stop) > gap {
      SplitKeeps(gap, ts, k);
    } else {
      ExtendKeeps(gap, ts, k);
    }
  }

  lemma GrowSessions(gap: int, ss: seq<Span>, t: nat)
    requires ss != [] && Separated(gap, ss) && ss[|ss| - 1].stop <= t && t - ss[|ss| - 1].stop > gap * MINUTE
    ensures Separated(gap, ss + [Span(t, t)])
  {
    var ss', last := ss + [Span(t, t)], |ss| - 1;
    forall i, j | 0 <= i < j < |ss'|
      ensures ss'[i].stop <= ss'[j].start && ss'[j].start - ss'[i].stop > gap * MINUTE
    {
      if j == |ss| && i < last {
        assert ss[i].stop <= ss[last].start <= ss[last].stop;
      }
    }
  }

  /** Sessions that only grow still cover what they covered; the last one covers the new event. */
  lemma CoverAfterGrowing(ts: seq<nat>, ss: seq<Span>, ss': seq<Span>)
    requires |ts| >= 1 && ss != [] && |ss| <= |ss'|
    requires forall i :: 0 <= i < |ts| - 1 ==> CoveredBy(ss, ts[i])
    requires forall i :: 0 <= i < |ss| ==> ss'[i].start <= ss[i].start && ss[i].stop <= ss'[i].stop
    requires Covers(ss'[|ss'| - 1], ts[|ts| - 1])
    ensures forall i :: 0 <= i < |ts| ==> CoveredBy(ss', ts[i])
  {
    forall i | 0 <= i < |ts|
      ensures CoveredBy(ss', ts[i])
    {
      if i < |ts| - 1 {
        assert CoveredBy(ss, ts[i]);
        var j :| 0 <= j < |ss| && Covers(ss[j], ts[i]);
        assert Covers(ss'[j], ts[i]);
      }
    }
  }

  /** For each symbol with positive nondecreasing times, whatever other symbols do: the flushed logs
      plus the open one are ordered, disjoint and more than the configured minutes apart, every event
      lies in exactly one of them, and the open stop is 0 only after a single event. */
  lemma EachEventInOneSession(gap: int, source: string, file: string, es: seq<Event>, symbol: string, i: nat)
    requires gap >= 0 && Ordered(TimesOf(es, symbol)) && i < |TimesOf(es, symbol)|
    ensures var l, ts := Updates(gap, source, file, es), TimesOf(es, symbol);
            && symbol in l.open
            && (l.open[symbol].stop == 0 <==> |ts| == 1)
            && var ss := FlushedOf(l.flushed, symbol) + [Closed(Span(l.open[symbol].start, l.open[symbol].stop))];
               && Separated(gap, ss)
               && exists j :: 0 <= j < |ss| && Covers(ss[j], ts[i]) && forall m :: 0 <= m < |ss| && m != j ==> !Covers(ss[m], ts[i])
  {
    var l, ts := Updates(gap, source, file, es), TimesOf(es, symbol);
    SymbolsAreIndependent(gap, source, file, es, symbol);
    SessionsAreWellSplit(gap, ts);
    var ss := Sessions(TrackOf(gap, ts));
    assert CoveredBy(ss, ts[i]);
    var j :| 0 <= j < |ss| && Covers(ss[j], ts[i]);
    assert gap * MINUTE >= 0;
    forall m | 0 <= m < |ss| && m != j
      ensures !Covers(ss[m], ts[i])
    {
      if m < j {
        assert ss[j].start - ss[m].stop > gap * MINUTE;
      } else {
        assert ss[m].start - ss[j].stop > gap * MINUTE;
      }
    }
  }

  /** Not every long gap splits a session: an hour's silence has no minutes component, so it does
      not, although it exceeds the default five minutes. */
  lemma AnHourIsMissed(t: nat)
    requires t > 0
    ensures TrackOf(5, [t, t, t + 60 * MINUTE]) == Track([], Span(t, t + 60 * MINUTE))
  {
    var ts := [t, t, t + 60 * MINUTE];
    assert ts[..2] == [t, t] && [t, t][..1] == [t];
    assert TrackOf(5, [t, t]) == Track([], Span(t, t));
  }

  /** Nor does a symbol's first gap, however long, because the stop time is still 0. */
  lemma FirstGapIsMissed(gap: int, t: nat, t': nat)
    ensures TrackOf(gap, [t, t']) == Track([], Span(t, t'))
  {
    assert [t, t'][..1] == [t];
  }

  /** An event splits a session exactly when it is at least the symbol's third and the minutes
      component of its gap exceeds the setting. */
  lemma SplitIffMinutesExceed(gap: int, ts: seq<nat>)
    requires |ts| >= 2 && Ordered(ts)
    ensures |TrackOf(gap, ts).closed| > |TrackOf(gap, ts[..|ts| - 1]).closed|
       <==> |ts| >= 3 && (ts[|ts| - 1] - ts[|ts| - 2]) / MINUTE % 60 > gap
  {
    var before, k := ts[..|ts| - 1], TrackOf(gap, ts[..|ts| - 1]);
    LastStop(gap, before, k);
    LastEventSplits(gap, ts, ts[|ts| - 1], k);
    MinutesOfGap(ts[|ts| - 1] - ts[|ts| - 2]);
  }

  /** The open session's stop is the last event's time, or 0 after one event. */
  lemma LastStop(gap: int, ts: seq<nat>, k: Track)
    requires ts != [] && k == TrackOf(gap, ts)
    ensures k.open.stop == if |ts| == 1 then 0 else ts[|ts| - 1]
  {
  }

  lemma LastEventSplits(gap: int, ts: seq<nat>, t: nat, k: Track)
    requires |ts| >= 2 && t == ts[|ts| - 1] && k == TrackOf(gap, ts[..|ts| - 1])
    ensures |TrackOf(gap, ts).closed| > |k.closed| <==> k.open.stop > 0 && MinutesOf(t - k.open.stop) > gap
  {
  }

  lemma MinutesOfGap(d: int)
    requires d >= 0
    ensures MinutesOf(d) == d / MINUTE % 60
  {
  }

  // ---------------------------------------------------------------- what the logs are named

  /** Every flushed log names the log file; an open one names the input until its symbol's first flush. */
  ghost predicate Named(source: string, file: string, l: Logs) {
    && (forall i :: 0 <= i < |l.flushed| ==> l.flushed[i].source == file)
    && (forall symbol :: symbol in l.open ==>
          l.open[symbol].symbol == symbol && l.open[symbol].source == if FlushedOf(l.flushed, symbol) == [] then source else file)
  }

  lemma FlushKeepsNames(source: string, file: string, l: Logs, symbol: string, log: SessionLog, log': SessionLog)
    requires Named(source, file, l) && symbol in l.open && log.symbol == symbol && log.source == file
    requires log'.symbol == symbol && log'.source == file
    ensures Named(source, file, Logs(l.open[symbol := log'], l.flushed + [log]))
  {
    forall other | other in l.open
      ensures FlushedOf(l.flushed + [log], other) == FlushedOf(l.flushed, other) + if log.symbol == other then [Span(log.start, log.stop)] else []
    {
      FlushedSnoc(l.flushed, log, other);
    }
  }

  lemma OpenKeepsNames(source: string, file: string, l: Logs, symbol: string, log: SessionLog)
    requires Named(source, file, l) && log.symbol == symbol
    requires log.source == if FlushedOf(l.flushed, symbol) == [] then source else file
    ensures Named(source, file, l.(open := l.open[symbol := log]))
  {
  }

  lemma UpdateKeepsNames(gap: int, source: string, file: string, l: Logs, e: Event)
    requires Named(source, file, l) && (e.symbol !in l.open ==> FlushedOf(l.flushed, e.symbol) == [])
    ensures Named(source, file, Update(gap, source, file, l, e))
  {
    if e.symbol !in l.open {
      OpenKeepsNames(source, file, l, e.symbol, SessionLog(e.symbol, e.t, 0, source));
    } else {
      var log := l.open[e.symbol];
      if Splits(gap, log, e.t) {
        FlushKeepsNames(source, file, l, e.symbol, log.(source := file), log.(start := e.t, stop := e.t, source := file));
      } else {
        OpenKeepsNames(source, file, l, e.symbol, log.(stop := e.t));
      }
    }
  }

  lemma {:induction false} LogsAreNamed(gap: int, source: string, file: string, es: seq<Event>)
    ensures Named(source, file, Updates(gap, source, file, es))
  {
    if es != [] {
      var before, e := es[..|es| - 1], es[|es| - 1];
      LogsAreNamed(gap, source, file, before);
      SymbolsAreIndependent(gap, source, file, before, e.symbol);
      UpdateKeepsNames(gap, source, file, Updates(gap, source, file, before), e);
    }
  }

  /** The writes that put logs into the database. */
  function LogWrites(logs: seq<SessionLog>): (ws: seq<Write>)
    ensures |ws| == |logs| && forall i :: 0 <= i < |logs| ==> ws[i] == WriteLog(logs[i], true)
  {
    seq(|logs|, i requires 0 <= i < |logs| => WriteLog(logs[i], true))
  }

  lemma {:induction false} LastWriteIsOne(ws: seq<Write>, id: Ident)
    requires LastWrite(ws, id).Some?
    ensures LastWrite(ws, id).value in ws && IdOf(LastWrite(ws, id).value) == id
  {
    var before, w := ws[..|ws| - 1], ws[|ws| - 1];
    if !(IdOf(w) == id && (w.overwrite || !Written(before, id))) {
      LastWriteIsOne(before, id);
    }
  }

  /** Every flushed log is found in the database under its own key. */
  lemma FlushedAreStored(gap: int, source: string, file: string, es: seq<Event>, i: nat)
    requires i < |Updates(gap, source, file, es).flushed|
    ensures var logs := Updates(gap, source, file, es).flushed;
            Get(ApplyAll(LogWrites(logs)), "sessionlog:" + logs[i].symbol + ":" + Decimal(logs[i].start) + ":" + Decimal(logs[i].stop))
            == Some(Encoded(Session(logs[i])))
  {
    var logs := Updates(gap, source, file, es).flushed;
    var ws, id := LogWrites(logs), LogId(logs[i].symbol, logs[i].start, logs[i].stop);
    LogsAreNamed(gap, source, file, es);
    assert IdOf(ws[i]) == id;
    ReadGivesLastWrite(ws, id);
    LastWriteIsOne(ws, id);
    var j :| 0 <= j < |ws| && ws[j] == LastWrite(ws, id).value;
    assert logs[j] == logs[i];
  }

  // ---------------------------------------------------------------- the object

  class Loader {
    const gapInMinutes: int
    const file: string
    const db: Db
    var open: map<string, SessionLog>
    /** The logs handed to the database, in order. */
    var flushed: seq<SessionLog>

    constructor (gapInMinutes: int, file: string, db: Db)
      ensures this.gapInMinutes == gapInMinutes && this.file == file && this.db == db
      ensures open == map[] && flushed == []
    {
      this.gapInMinutes, this.file, this.db := gapInMinutes, file, db;
      open, flushed := map[], [];
    }

    /** `updateSessionLog`. */
    method UpdateSessionLog(source: string, e: Event)
      requires db.Valid()
      modifies this, db`entries
      ensures db.Valid()
      ensures Logs(open, flushed) == Update(gapInMinutes, source, file, old(Logs(open, flushed)), e)
      ensures db.entries == if flushed == old(flushed) then old(db.entries)
                            else Apply(old(db.entries), WriteLog(flushed[|flushed| - 1], true))
    {
      if e.symbol !in open {
        open := open[e.symbol := SessionLog(e.symbol, e.t, 0, source)];
      } else {
        var log := open[e.symbol];
        if log.stop > 0 {
          var diff := e.t - log.stop;
          if MinutesOf(diff) > gapInMinutes {
            log := log.(source := file);
            var _ := db.WriteOne(WriteLog(log, true));
            flushed := flushed + [log];
            log := log.(start := e.t);
            log := log.(stop := 0);
          }
        }
        log := log.(stop := e.t);
        open := open[e.symbol := log];
      }
    }

    /** A whole log file, into an empty database. */
    method Load(source: string, es: seq<Event>)
      requires open == map[] && flushed == [] && db.Valid() && db.entries == []
      modifies this, db`entries
      ensures db.Valid() && Logs(open, flushed) == Updates(gapInMinutes, source, file, es)
      ensures db.entries == ApplyAll(LogWrites(flushed))
    {
      for i := 0 to |es|
        invariant db.Valid() && Logs(open, flushed) == Updates(gapInMinutes, source, file, es[..i])
        invariant db.entries == ApplyAll(LogWrites(flushed))
      {
        NextUpdate(gapInMinutes, source, file, es, i);
        UpdateGrows(gapInMinutes, source, file, Logs(open, flushed), es[i]);
        ghost var was := flushed;
        UpdateSessionLog(source, es[i]);
        if flushed != was {
          NextLogWrite(flushed);
        }
      }
      assert es[..|es|] == es;
    }
  }

  lemma NextUpdate(gap: int, source: string, file: string, es: seq<Event>, i: nat)
    requires i < |es|
    ensures Updates(gap, source, file, es[..i + 1]) == Update(gap, source, file, Updates(gap, source, file, es[..i]), es[i])
  {
    assert es[..i + 1][..i] == es[..i];
  }

  /** An event flushes one log or none. */
  lemma UpdateGrows(gap: int, source: string, file: string, l: Logs, e: Event)
    ensures var after := Update(gap, source, file, l, e).flushed;
            after == l.flushed || (after != [] && after[..|after| - 1] == l.flushed)
  {
  }

  lemma NextLogWrite(logs: seq<SessionLog>)
    requires logs != []
    ensures ApplyAll(LogWrites(logs)) == Apply(ApplyAll(LogWrites(logs[..|logs| - 1])), WriteLog(logs[|logs| - 1], true))
  {
    var ws := LogWrites(logs);
    assert ws[..|ws| - 1] == LogWrites(logs[..|logs| - 1]);
  }
}
