# A verified model of the trading platform's core

The platform turns irregular market data into time-bucketed series, stores records in an ordered
key-value historian that can be queried locally or over sockets, drives a connection to a trading
gateway from several threads, and passes contracts around under textual keys. The modules here model
that logic in Dafny and prove what it is relied on for.

| area | modules |
|---|---|
| moving windows, samplers, derived series, candles | `IntervalPolicy`, `WindowSpec`, `MovingWindow`, `Samplers`, `DerivedSeries`, `Ohlc` |
| historian store and queries | `Text`, `Store`, `HistorianKeys`, `HistorianDb` |
| remote query protocol | `Zmq`, `RemoteQuery`, `RemoteSession` |
| connection driver and inbound reactor | `ClientDriver`, `ClientJoin`, `ClientChecks`, `InboundReactor` |
| contract keys and codecs | `Expiry`, `ContractKeys`, `TickerId`, `TickerMap`, `ConnectorSpec` |
| session logs and the gzip recogniser | `SessionLogs`, `GzipRecogniser` |

Objects the program updates in place are classes here (`MovingWindow`, `SeriesWindow`,
`SequentialPipeline`, `Ohlc`, `Db`, `Channel`, `Connector`, `SymbolTable`, `TickerMap`, `Loader`,
`GzipHeader`, `GzipFooter`). Each method's postcondition ties the new state to a function on values,
and the theorems are about those functions: over every run of events, every sequence of writes, every
stream of frames, every interleaving of steps. `dafny verify dfyconfig.toml` checks everything.

## How things are represented

- Timestamps are unsigned 64-bit; the window count is converted to a 32-bit int as the program does.
- Doubles are reals. How a stream prints a strike is one function shared by every printer.
- Text is a sequence of characters, one for each byte.
- LevelDB is a sorted sequence of entries. A socket is a first-in first-out queue of frames.
- Message encodings are functions. The remote theorems assume only that what the calls at hand put on
  the wire gets through (`RemoteQuery.Serves`): their queries and the records of their answers have
  nonempty encodings that decode to them, and the text "200" does not decode to a record.
  `RemoteSession.SomeCodecServes` shows that some encoding always does this.
- A query's visitor is a function of everything it has been shown, so it may keep state.
- The clock enters as a parameter: a response id is any number below a million.
- The connection driver is a transition system in which every shared read and write is its own step.
  A condition variable's wait may end at any time, so spurious wakeups are included.
- The sampler's own fields are part of the window's state.

## Findings

Where the program does not meet a property on all inputs, a lemma gives an input and the exact
condition is proved:

- A gap of 2^31 buckets or more between two events overflows the int window count and is lost
  (`WindowSpec.HugeGapIsLost`, `WindowSpec.CollectedIsBucketSpan`).
- Response id 0, which a clock modulo a million gives, is taken for an error; its stream is left in
  the callback channel and spoils the next call (`RemoteSession.CallIsExactUnlessIdIsZero`,
  `RemoteSession.StrandedStreamSpoilsNextCall`).
- A visitor's refusal stops a local query but not a remote one (`RemoteQuery.CompareWithLocal`).
- A ':' in a symbol can merge two indexes (`HistorianKeys.IndexKeyCollisions`,
  `HistorianDb.MergedSymbolLosesIndex`, `HistorianDb.ColonSymbolsMerge`), and times of different
  decimal length do not compare as numbers (`HistorianKeys.ShorterTimesAreMissed`,
  `HistorianKeys.RangeSelectsByNumber`).
- A supported request with no creator or with more than one body part puts the inbound loop out of
  step (`InboundReactor.InSyncIffHandleable`). On a REP socket ZeroMQ refuses the reply while parts of
  the request are unread, so the program leaves the loop there instead; the finding is about the other
  socket types.
- A silence of a whole number of hours plus a few minutes does not split a session, and neither does a
  symbol's first silence (`SessionLogs.AnHourIsMissed`, `SessionLogs.FirstGapIsMissed`,
  `SessionLogs.SplitIffMinutesExceed`).
- A gzip header with an extra field is never recognised, and a time of 2^31 or more comes out
  negative (`GzipRecogniser.RecognisedIffNoExtra`, `GzipRecogniser.HeaderIsRecognised`).
- A contract sent to IB and back loses its multiplier, and gains an exchange, a local symbol and a strike
  it did not have (`ContractKeys.WholeContractSurvives`).
- Ports are unsigned but read as int (`ConnectorSpec.ParsingUndoesPrinting`).
- Disconnect can wait for ever in its join: without a Connect before it, and also after a successful
  one if the event thread has not tested the state yet (`ClientJoin.UnconnectedDisconnectHangs`,
  `ClientJoin.QuickDisconnectHangs`; exactly when, `ClientJoin.JoinReturnsIff` and
  `ClientJoin.JoinReturnsUnlessAllJoin`).
- The comment on `operator[]` (src/cpp/common/moving_window.hpp:97-98) says -1 is the current value;
  the code uses 0 for it, and the model follows the code.

## Model

| member | source | states |
|---|---|---|
| `IntervalPolicy.CountIsBucketDistance` | src/cpp/common/moving_window_interval_policy.hpp:28-36 | for timestamps in order, `count_windows` is the distance between the two buckets if and only if that distance fits an int |
| `IntervalPolicy.GetTimeIsBucketStart` | src/cpp/common/moving_window_interval_policy.hpp:21-26 | `get_time` at an offset is the start of the bucket that many back if and only if there are that many buckets since zero; otherwise it has wrapped |
| `WindowSpec.WindowRefinesBuckets` | src/cpp/common/moving_window.hpp:219-233 | over every run with positive nondecreasing timestamps and no overflowing gap, index 0 is the sampler folded over the current bucket's events, index -k is the value bucket now-k closed with (carried forward over empty buckets, the initial value before the first event), and `get_time(-k)` is that bucket's start |
| `WindowSpec.CurrentIsFoldSinceOpen` | src/cpp/common/moving_window.hpp:231-233 | in every order of timestamps, current value and sampler state are the fold over the values since the last event that opened a period: the first, one at start-up, or one later than its predecessor by a number of buckets that is positive as a 32-bit int |
| `WindowSpec.EveryStepIsExact` | src/cpp/common/moving_window.hpp:219-233 | everything one event does in any state at any time: clock, counter, each slot of the history, sampler call with its flag, and the returned count, for late events, overflowing gaps and start-up alike |
| `WindowSpec.LateEventClosesNothing` | src/cpp/common/moving_window_interval_policy.hpp:31 | after any run, an event not later than the clock or in the clock's bucket leaves history and counter as they are, returns 0, and goes on with the open period |
| `WindowSpec.ClosedSlotsAreFinal` | src/cpp/common/moving_window.hpp:223-227 | an event changes no bucket before its own |
| `WindowSpec.SlotCarriesForward` | src/cpp/common/moving_window.hpp:223-227 | empty buckets after the last event have its bucket's value |
| `WindowSpec.CollectedIsBucketSpan` | src/cpp/common/moving_window.hpp:221-227 | the push counter of an ordered run never exceeds b(last) - b(first), and equals it if and only if no gap between consecutive events is 2^31 buckets or more |
| `WindowSpec.ReturnedCountsAddUp` | src/cpp/common/moving_window.hpp:287-292 | the counts returned over an ordered run without an overflowing gap sum to b(last) - b(first) |
| `WindowSpec.HugeGapIsLost` | src/cpp/common/moving_window_interval_policy.hpp:28-36 | a run of two events 2^31 buckets apart: nothing is pushed, the second value is sampled into the first one's period, and the returned count is 2^64 - 2^31 |
| `WindowSpec.CopiedSlotsAreBuckets` | src/cpp/common/moving_window.hpp:172-210 | slot j of the last n copied samples is the start of bucket now-(n-1-j) paired with the value that bucket closed with |
| `MovingWindow.MovingWindow.constructor` | src/cpp/common/moving_window.hpp:60-75 | the new object's abstract state is the initial window: ring full of the initial value, clock 0 |
| `MovingWindow.MovingWindow.PushBack` | src/cpp/common/moving_window.hpp:225 | the full ring drops its oldest element and appends the new one, at every rotation; a ring of size 0 stays empty |
| `MovingWindow.MovingWindow.FillForward` | src/cpp/common/moving_window.hpp:223-227 | the fill loop pushes the current value once for each bucket that has passed, and counts the pushes |
| `MovingWindow.MovingWindow.On` | src/cpp/common/moving_window.hpp:219-233 | the object's whole state steps as the specification's window, and the pushed count is returned (converted to size_t) |
| `MovingWindow.MovingWindow.Get` | src/cpp/common/moving_window.hpp:99-107 | `operator[]`: 0 the current value, -k the k-th newest element of the ring whatever the rotation, positive the initial value |
| `MovingWindow.MovingWindow.BlocksAreNewest` | src/cpp/common/moving_window.hpp:136-168 | whatever the rotation, the ends of the two blocks followed by the current value are the newest samples in order |
| `MovingWindow.MovingWindow.CopyLastData` | src/cpp/common/moving_window.hpp:130-170 | the two-segment copy delivers the last `length` samples, leaves the rest of the array alone, and copies nothing when `length` exceeds the capacity; every range is in bounds |
| `MovingWindow.MovingWindow.GenerateTimeArray` | src/cpp/common/moving_window.hpp:374-386 | slot by slot, the bucket times of the same samples; same length, same refusal |
| `MovingWindow.MovingWindow.CopyLast` | src/cpp/common/moving_window.hpp:174-186 | values and times of the last `length` samples |
| `MovingWindow.MovingWindow.CopyLastSlow` | src/cpp/common/moving_window.hpp:191-210 | the reverse-iterator copy has the very contract of `CopyLast`, so the two agree for every rotation and length |
| `Samplers.AllReset` | src/cpp/common/moving_window_samplers.hpp:13-104 | every sampler forgets the past when a period opens, which is what the refinement theorem needs of it |
| `Samplers.MaxFold` | src/cpp/common/moving_window_samplers.hpp:50-59 | `max` folded over a period is one of its values and an upper bound of them |
| `Samplers.MinFold` | src/cpp/common/moving_window_samplers.hpp:61-70 | `min` folded over a period is one of its values and a lower bound of them |
| `Samplers.OpenFold` | src/cpp/common/moving_window_samplers.hpp:72-93 | `open` folded over a period is its first value |
| `Samplers.LatestFold` | src/cpp/common/moving_window_samplers.hpp:14-24 | `latest` and `close` folded over a period are its last value |
| `Samplers.AvgFold` | src/cpp/common/moving_window_samplers.hpp:26-48 | `avg` folded over a period is the exact mean |
| `Samplers.MeanIsBounded` | src/cpp/common/moving_window_samplers.hpp:26-48 | that mean lies between any lower and any upper bound of the values |
| `DerivedSeries.DerivedSeriesFollowsParent` | src/cpp/common/moving_window.hpp:235-284 | a series attached at any point, for any functor, has its parent's clock after every later event, and its slot for a bucket is the functor's value on the parent as of the last event at or before that bucket (the initial value if that was before it was attached); its own width and capacity may differ, as a pipeline indicator's do |
| `DerivedSeries.LatestSlot` | src/cpp/common/moving_window_samplers.hpp:14-24 | with `latest` or `close`, a bucket's closing value is that of the last event at or before it |
| `DerivedSeries.ObservedIsComputed` | src/cpp/common/moving_window.hpp:240-273 | what each kind of functor is handed after an ordered run: the last bucket starts and closing values, oldest first; the clock and the values; or the series with all the buckets it keeps |
| `DerivedSeries.FeedingExtendsRun` | src/cpp/common/moving_window.hpp:240-241 | feeding a child once more is one more event of its derived run |
| `DerivedSeries.SeriesWindow.Apply` | src/cpp/common/moving_window.hpp:296-351 | a fresh series of the parent's own shape is appended to the attached ones, in its initial state |
| `DerivedSeries.SeriesWindow.ApplyAfter` | src/cpp/common/moving_window.hpp:296-351 | attaching in the middle of a run keeps every series the derived run it should be |
| `DerivedSeries.SeriesWindow.On` | src/cpp/common/moving_window.hpp:235-284 | the window steps, then every attached series steps with its functor's value on the stepped window at the parent's time |
| `DerivedSeries.SeriesWindow.OnAll` | src/cpp/common/moving_window.hpp:235-284 | after any events, the window is their run and every attached series is its derived run from where it was attached |
| `DerivedSeries.ChildShows` | src/cpp/common/moving_window.hpp:235-284 | every child of a window after any run has its clock and, slot by slot, its functor's values on the parent's buckets |
| `DerivedSeries.ObserveFrom` | src/cpp/common/moving_window.hpp:296-351 | a series attached after any events and driven through any later ones has the window's clock, and each slot of the object holds the functor's value on the parent's buckets, oldest first, as of the last event at or before the slot's bucket: their starts and closing values, or the clock and the values, or the series |
| `DerivedSeries.FeedFrom` | src/cpp/common/moving_window.hpp:246-273 | the value and sample operations are computed on one copy of the window, which is what observing the window gives; the window itself is unchanged |
| `DerivedSeries.SequentialPipeline.Add` | src/cpp/platform/sequential_pipeline.hpp:55-64 | the indicator joins the end of the list |
| `DerivedSeries.SequentialPipeline.On` | src/cpp/platform/sequential_pipeline.hpp:35-53 | the source steps; every indicator steps at the same time with its function of the same last capacity()-1 samples |
| `DerivedSeries.SequentialPipeline.OnAll` | src/cpp/platform/sequential_pipeline.hpp:35-53 | after any events, the source is their run and every indicator is its derived run from where it was added |
| `DerivedSeries.IndicatorShows` | src/cpp/platform/sequential_pipeline.hpp:35-53 | the same for every indicator of a pipeline |
| `DerivedSeries.IndicateFrom` | src/cpp/platform/sequential_pipeline.hpp:35-64 | an indicator of its own width and capacity, added after any events and driven through any later ones, has the source's clock, and each slot holds the calculation on the starts and closing values of the source's last capacity()-1 buckets, oldest first, as of the last event at or before the slot's bucket |
| `Ohlc.CandlesStayInOrder` | src/cpp/common/ohlc.hpp:107-112 | for every event sequence in any time order, the four windows keep the same clock, counter and shape, and every candle has low <= open, close <= high |
| `Ohlc.CurrentCandleIsExact` | src/cpp/common/ohlc.hpp:107-112 | the current candle is first, maximum, minimum and last of the values since the period opened; `avg` on the same events is their mean and lies between low and high |
| `Ohlc.RowIsFinalCandle` | src/cpp/common/ohlc_callbacks.hpp:47-54 | the row read at index i after an ordered run is the final candle of bucket now+i |
| `Ohlc.EachClosedCandleOnce` | src/cpp/common/ohlc_callbacks.hpp:40-56 | over every ordered run without a gap longer than the ring, the printed rows are the final candles of the buckets from the first event's to the one before the current, each once, in order |
| `Ohlc.Ohlc.constructor` | src/cpp/common/ohlc.hpp:68-75 | four fresh windows of one shape in their initial state, nothing printed |
| `Ohlc.PrintCandles` | src/cpp/common/ohlc.hpp:107-120 | a new object driven through any ordered run without a gap longer than the ring prints the final candles from the first event's bucket to the one before the current, each once, in order |
| `Ohlc.Ohlc.PrintRows` | src/cpp/common/ohlc_callbacks.hpp:47-55 | the loop from -count to -1 prints the rows at those indices, oldest first |
| `Ohlc.Ohlc.On` | src/cpp/common/ohlc.hpp:107-120 | all four windows take the event; the closed buckets' rows are appended to the output; the count is returned |
| `Text.DecimalOrder` | src/cpp/historian/internal.hpp:144-149 | decimals of equal length compare as text exactly as they compare as numbers |
| `Text.DecimalsCompareScaled` | src/cpp/historian/internal.hpp:144-149 | decimals of any lengths compare as text exactly as they compare as numbers after scaling |
| `Text.BetweenSharesPrefix` | src/cpp/historian/Db.cpp:122-124 | a string between two strings with a common prefix has that prefix |
| `Text.SplitUndoesJoin` | src/cpp/service/LogReaderInternal.hpp:62-64 | splitting undoes joining when the fields lack the delimiter |
| `HistorianKeys.HeaderIdentifies` | src/cpp/historian/internal.hpp:137-200 | with ':'-free fields a key starts with a header if and only if kind, symbol and (for the index) event are that header's |
| `HistorianKeys.RangeSelectsByText` | src/cpp/historian/Db.cpp:174-216 | for times of any length, a key lies in a symbol query's range if and only if kind, symbol and event match and the time's text lies between the texts of first and last |
| `HistorianKeys.RangeSelectsByNumber` | src/cpp/historian/Db.cpp:174-216 | the same in numbers: times of different decimal length compare after the shorter is scaled by a power of ten, and a session log's start as its successor when it is the shorter |
| `HistorianKeys.RangeSelectsByTime` | src/cpp/historian/Db.cpp:174-216 | with times of equal decimal length, that is first <= time < last; session logs match on their start |
| `HistorianKeys.ShorterTimesAreMissed` | src/cpp/historian/internal.hpp:144-149 | a record at time 9 is not found by a query for 8 to 10 |
| `HistorianKeys.KeyOrderIsTimeOrder` | src/cpp/historian/internal.hpp:137-200 | within one kind, symbol and event, key order is time order; only session logs may tie |
| `HistorianKeys.DataKeyInjective` | src/cpp/historian/internal.hpp:144-149 | a market data key determines symbol and time, whatever the symbol |
| `HistorianKeys.IndexKeyCollisions` | src/cpp/historian/internal.hpp:260-269 | two index keys coincide if and only if the times are equal and symbol:event reads the same |
| `Store.GetAfterPut` | src/cpp/historian/internal.hpp:104-110 | the sorted store is a map: a read returns the last value put under its key |
| `Store.GetFindsEntry` | src/cpp/historian/internal.hpp:104-105 | a read finds an entry if and only if the store holds it |
| `HistorianDb.WritesKeepItems` | src/cpp/historian/internal.hpp:203-295 | every store reached by writes of any kinds stays sorted and holds only entries written under their own keys |
| `HistorianDb.RangeIsContiguous` | src/cpp/historian/Db.cpp:122-124 | seeking to `start` and reading while below `stop` reads exactly the keys in the range |
| `HistorianDb.SymbolQueryScans` | src/cpp/historian/Db.cpp:174-216 | over a store of mixed kinds and for times of any length, a symbol query scans an entry if and only if the store holds it, it has the query's kind, symbol (and event), and its scaled time lies in the range |
| `HistorianDb.SymbolQueryIsExact` | src/cpp/historian/Db.cpp:174-216 | with times of equal decimal length, that is a time in [first, last) |
| `HistorianDb.SymbolQueryIsInTimeOrder` | src/cpp/historian/Db.cpp:113-137 | the scan is in strictly increasing time order, except that session logs may share a start |
| `HistorianDb.SymbolQueryVisits` | src/cpp/historian/Db.cpp:113-137 | after any writes, a record is shown if and only if the store now holds it and it answers the query; one record is shown for each key passed |
| `HistorianDb.SymbolQueryShowsWrites` | src/cpp/historian/Db.cpp:174-216 | after any writes, a market data, depth or session log record is shown if and only if it is the last accepted write of its key and has the query's kind, symbol and a time in [first, last) |
| `HistorianDb.ScanIsPrefix` | src/cpp/historian/Db.cpp:132-133 | a visitor that stops sees a prefix of the records, and all of them if and only if it refuses none before the last |
| `HistorianDb.PrimaryIsLastWrite` | src/cpp/historian/internal.hpp:92-116 | the primary record of a symbol and time is the last accepted write's; a no-overwrite write is accepted if and only if no earlier write has that symbol and time |
| `HistorianDb.ReadGivesLastWrite` | src/cpp/historian/internal.hpp:203-295 | after any writes of market data, depth and session logs, a read under the key spelled from a record's own fields gives the last accepted write of that record, and nothing if and only if there was none |
| `HistorianDb.AcceptedIffNew` | src/cpp/historian/internal.hpp:64-69 | a write of any kind is accepted if and only if it may overwrite or no earlier write was of the same record |
| `HistorianDb.KeysAreSpelled` | src/cpp/historian/constants.hpp:6-9 | the four kinds of keys, spelled out |
| `HistorianDb.IndexIsLastWrite` | src/cpp/historian/internal.hpp:271-294 | on all symbols and events, the index equals the last-write-wins fold of the accepted writes, per spelled symbol:event and time |
| `HistorianDb.EveryRecordIsIndexed` | src/cpp/historian/internal.hpp:271-294 | after any writes with any mix of overwrite flags in which no two symbols spell an index key alike, every market data record has an index entry under its own event with its time and value |
| `HistorianDb.MergedSymbolLosesIndex` | src/cpp/historian/internal.hpp:260-269 | whenever two symbols do spell an index key alike, writing both leaves the first record indexed under the second one's value |
| `HistorianDb.ColonFreeSymbolsDoNotMerge` | src/cpp/historian/internal.hpp:260-269 | symbols without ':' never spell an index key alike, whatever the events |
| `HistorianDb.Db.WriteBatch` | src/cpp/historian/internal.hpp:92-116 | queued if and only if the key is nonempty and may be overwritten or is absent; otherwise the batch is unchanged |
| `HistorianDb.Db.Commit` | src/cpp/historian/internal.hpp:291 | a batch's puts take effect in order |
| `HistorianDb.Db.WriteMarketData` | src/cpp/historian/internal.hpp:271-294 | the store changes by the specified write, primary record and index together or not at all; the result says whether it was accepted |
| `HistorianDb.Db.WriteOne` | src/cpp/historian/internal.hpp:216-248 | the same for depth and session logs, which have no index |
| `HistorianDb.Db.WriteAll` | src/cpp/historian/Db.cpp:95-111 | any writes of any kinds leave the store at their specified fold |
| `HistorianDb.Db.Open` | src/cpp/historian/Db.cpp:68-90 | the database is open if and only if opening succeeded |
| `HistorianDb.Db.Query` | src/cpp/historian/Db.cpp:113-137 | the visitor is shown the range's records in order up to the first refusal; the count is the number of keys passed before it, undecodable ones included; a closed database answers nothing |
| `HistorianDb.Db.QueryBySymbol` | src/cpp/historian/Db.cpp:174-216 | the same over the symbol query's range; an index query without an index answers nothing |
| `HistorianDb.QueryAfterWrites` | src/cpp/historian/Db.cpp:163-216 | a new database, opened, written to and queried, shows the records of exactly the entries the query scans after those writes |
| `Zmq.Channel.ReceiveFrame` | src/cpp/zmq/ZmqUtils.hpp:70-92 | the first nonempty frame is taken from the queue, empty ones before it are skipped |
| `Zmq.ReceiveSkipsEmpty` | src/cpp/zmq/ZmqUtils.hpp:70-92 | any number of empty frames before a nonempty one are skipped and nothing else is |
| `RemoteQuery.LoopReadsStream` | src/cpp/historian/DbReactorClient.cpp:144-184 | reading an answer's stream shows exactly its records in order, counts the visits that answered true, stops at the terminator and consumes nothing after it |
| `RemoteQuery.AnswerIsShown` | src/cpp/historian/Db.cpp:163-216 | the local answer to a range query is the records whose keys lie in [first, last), in key order; to a symbol query, those between the two spelled keys |
| `RemoteQuery.CountTrueCounts` | src/cpp/historian/DbReactorClient.cpp:171-174 | the client's count is the number of its visits that answered true |
| `RemoteQuery.AnyReply` | src/cpp/historian/DbReactorClient.cpp:115-142 | any two-part reply: the exception if and only if a number is unreadable, the id on 200 and 0 on every other status |
| `RemoteQuery.AnyCallback` | src/cpp/historian/DbReactorClient.cpp:148-182 | any two-part callback message: it goes on if and only if it is a record of the client's id, throws if and only if the id is unreadable or a body of its id is neither record nor number, and otherwise returns, 0 on a foreign id |
| `RemoteQuery.ProcessQueryResponse` | src/cpp/historian/DbReactorClient.cpp:115-142 | for every reply that has arrived: the id returned, 0 for a status other than 200, or the exception on an unreadable number, and the frames left |
| `RemoteQuery.ProcessCallback` | src/cpp/historian/DbReactorClient.cpp:144-184 | for every stream on which the loop does not wait for ever: count, visits and frames left, whether it ends on a terminator, on a foreign id, or by the exception on an unreadable id or body |
| `RemoteQuery.Respond` | src/cpp/historian/DbReactorStrategy.cpp:217-249 | the whole request is consumed; the two-frame reply and the complete stream of the local answer are sent, or nothing if the query does not parse |
| `RemoteQuery.Stream` | src/cpp/historian/DbReactorStrategy.cpp:158-206 | every record of the local answer under the response id, then one terminator |
| `RemoteQuery.RunRemotely` | src/cpp/historian/DbReactorClient.cpp:186-220 | with a nonzero id the client visits exactly the store's records in the query's key range, in key order, and all channels end empty; with id 0 it visits nothing and the stream stays behind |
| `RemoteQuery.CompareWithLocal` | src/cpp/historian/DbReactorClient.cpp:186-220 | one query run locally and remotely with one visitor: the local visits are the first of the remote ones, and all of them if and only if the visitor refuses no record before the last; without refusals the counts agree too |
| `RemoteSession.RemoteRefinesLocal` | src/cpp/historian/DbReactorStrategy.cpp:158-249 | at every point of every interleaving of client and server over any sequence of calls with nonzero ids, each finished call visited exactly the store's records in its query's key range, in key order, and returned the number of visits that answered true, and between calls all channels are empty |
| `RemoteSession.NoDeadlock` | src/cpp/historian/DbReactorClient.cpp:204-220 | at every point of such a run with calls unfinished some step is possible |
| `RemoteSession.EveryRunFinishes` | src/cpp/historian/DbReactorClient.cpp:186-220 | every interleaved run has at most 5 + 2 |answer| steps for each call; it can be continued if and only if it has fewer, and has all of them if and only if every call is done |
| `RemoteSession.SomeCodecServes` | src/cpp/historian/DbReactorStrategy.cpp:52-68 | for every store and calls some encoding meets the hypothesis of the remote theorems |
| `RemoteSession.CallIsExactUnlessIdIsZero` | src/cpp/historian/DbReactorStrategy.cpp:237-239 | a call leaves the callback channel empty if and only if the response id (clock modulo a million) is not 0; then it is exact |
| `RemoteSession.StrandedStreamSpoilsNextCall` | src/cpp/historian/DbReactorClient.cpp:158-162 | after a stream was left behind, the next call with another id returns 0 without a visit |
| `ClientDriver.RunKeepsInv` | src/cpp/ib/AsioEClientDriver.cpp:74-313 | every interleaving of any number of callers with the event thread keeps mutex, trace and connection invariants |
| `ClientDriver.NoCheckBeforeConnect` | src/cpp/ib/AsioEClientDriver.cpp:101-107 | no message check begins before a Connect has succeeded |
| `ClientDriver.AtMostOneMoreCheck` | src/cpp/ib/AsioEClientDriver.cpp:227-260 | once Send, Receive, Disconnect or the loop itself moves the state off RUNNING while the loop is active, RUNNING does not return before the thread exits and at most one more check begins |
| `ClientDriver.CallbacksInOrder` | src/cpp/ib/AsioEClientDriver.cpp:266-313 | the event thread's observations are a prefix of: start, loop, turns that read the socket ok and the state RUNNING and make a check that returns true, at most one whose check returns false or throws, one of the three reasons for leaving, one stop, exit |
| `ClientChecks.RefusedCheckIsLast` | src/cpp/ib/AsioEClientDriver.cpp:283-305 | in every interleaving no check begins after one that returned false or threw, and from there the event thread makes at most five more moves to its exit, whatever the state is |
| `ClientChecks.CheckNeedsSocket` | src/cpp/ib/AsioEClientDriver.cpp:200-203 | in every interleaving each check is immediately preceded, in the thread's own observations, by reads of the socket as ok and of the state as RUNNING |
| `ClientChecks.FailureMovesOff` | src/cpp/ib/AsioEClientDriver.cpp:227-260 | in every interleaving every failed send or receive and every begun Disconnect is followed by a write of the state off RUNNING, unless the thread concerned has yet to take its next step |
| `ClientChecks.FieldsTellLastEvent` | src/cpp/ib/AsioEClientDriver.cpp:92-113 | in every interleaving the socket is ok if and only if it was connected after the last failed connect, send or receive, and the state is the one written last |
| `ClientJoin.WholeSession` | src/cpp/ib/AsioEClientDriver.cpp:74-313 | a run: connect, one check that returns false, stop, disconnect, with all that is observed and the state STOPPED at the end |
| `ClientDriver.JoinNeedsConnect` | src/cpp/ib/AsioEClientDriver.cpp:178-193 | a Disconnect that has got past its join did so after the event thread exited, hence after a successful Connect; when it can get past it is ClientJoin.JoinReturnsIff and ClientJoin.JoinReturnsUnlessAllJoin |
| `ClientJoin.JoinReturnsIff` | src/cpp/ib/AsioEClientDriver.cpp:186-189 | at any point of any run, some continuation without a further write of RUNNING gets a waiting Disconnect out of its join if and only if the event thread has entered its loop, or the state is RUNNING and no caller holds the mutex in front of such a write; when every caller is joining, the same for all continuations |
| `ClientJoin.JoinReturnsUnlessAllJoin` | src/cpp/ib/AsioEClientDriver.cpp:178-193 | with all continuations, if and only if the loop was entered, or the state is RUNNING, or some caller is not joining and so may still connect |
| `ClientJoin.ExitIsInevitable` | src/cpp/ib/AsioEClientDriver.cpp:283-313 | once the loop was entered and the state is off RUNNING, in every continuation the event thread makes at most seven more moves (not counting failures inside one message check), is gone when it has made the number its position allows, can always step until then, and then every join can return at once |
| `ClientJoin.StuckNeverReturns` | src/cpp/ib/AsioEClientDriver.cpp:272-277 | the states before the loop with RUNNING not written (or its writer excluded) are closed under steps: the join returns after no number of them |
| `ClientJoin.ReleasedExits` | src/cpp/ib/AsioEClientDriver.cpp:272-313 | otherwise the event thread can always be brought to its exit, whoever holds the mutex |
| `ClientJoin.UnconnectedDisconnectHangs` | src/cpp/ib/AsioEClientDriver.cpp:178-193 | a run: a lone caller disconnects without having connected, and no continuation returns |
| `ClientJoin.QuickDisconnectHangs` | src/cpp/ib/AsioEClientDriver.cpp:186-189 | a run: a lone caller connects successfully and disconnects before the event thread has tested the state, and no continuation returns |
| `InboundReactor.TurnStaysInSync` | src/cpp/ib/SocketConnectorBase.hpp:400-483 | one turn consumes exactly one message if and only if that message is handleable (unsupported; a lone key; a creator and one body); then the code is the message's |
| `InboundReactor.OtherTurns` | src/cpp/ib/SocketConnectorBase.hpp:431-478 | of any other message the loop reads the key alone and replies 503, or the key and the first body part and replies 400, and counts nothing |
| `InboundReactor.InSyncIffHandleable` | src/cpp/ib/SocketConnectorBase.hpp:393-494 | every loop head is at a message boundary if and only if every message of the stream is handleable |
| `InboundReactor.OneReplyPerMessage` | src/cpp/ib/SocketConnectorBase.hpp:393-494 | a stream of handleable messages is consumed whole with one response code each, in order |
| `InboundReactor.LoopIsBalanced` | src/cpp/ib/SocketConnectorBase.hpp:437-472 | on every stream of frames, at every loop head: one code per turn, requests = ok + errors with ok and errors the numbers of codes 200 and of 412 and 502, and no 412 because receiving already requires an initialised message |
| `InboundReactor.LoopEndsAtHead` | src/cpp/ib/SocketConnectorBase.hpp:400-483 | the run of the loop is the run from any of its heads, and where it blocks is its last head |
| `InboundReactor.Connector.AfterMessage` | src/cpp/ib/SocketConnectorBase.hpp:357-365 | one reply frame in REP mode and none otherwise |
| `InboundReactor.Connector.ReceiveBody` | src/cpp/ZmqProtoBuffer.hpp:63-83 | exactly one frame is consumed; a body announced with more parts, or not initialised, is refused |
| `InboundReactor.Connector.HandleOne` | src/cpp/ib/SocketConnectorBase.hpp:400-483 | frames, codes and counters change as the specified turn; replies sent equal codes produced |
| `InboundReactor.Connector.Handle` | src/cpp/ib/SocketConnectorBase.hpp:393-494 | the loop to the point where it would block is the specified run of turns; in REP mode one reply frame for each code, its text |
| `Expiry.ExpiryRoundTrip` | src/cpp/platform/contract_symbol.cpp:19-41 | parsing undoes formatting if and only if the year takes four characters and month and day two digits; it throws if and only if the year is padded with a blank; otherwise the text is refused |
| `ContractKeys.Marshal` | src/cpp/ib/api966/marshall_contract.cpp:10-70 | the target's fields after the call, refused contracts included; success if and only if an option with an id is complete |
| `ContractKeys.Unmarshal` | src/cpp/ib/api966/marshall_contract.cpp:72-109 | the protobuf read from an IB contract, defaults included; a date that does not parse as numbers throws |
| `ContractKeys.MarshalKeepsKey` | src/cpp/ib/TickerMap.cpp:71-87 | the IB contract's key is the protobuf's if and only if the contract is no option or has expiry and right |
| `ContractKeys.RoundTripKeepsKey` | src/cpp/ib/api966/marshall_contract.cpp:10-109 | marshalling to IB and back keeps the key if and only if an option's expiry is printable, and another contract's expiry, if any, does not throw |
| `ContractKeys.FieldsSurvive` | src/cpp/ib/api966/marshall_contract.cpp:10-109 | field by field, the IB contract and what comes back from it: exchange, local symbol, strike and multiplier take their defaults, an unprintable expiry is lost or throws |
| `ContractKeys.WholeContractSurvives` | src/cpp/ib/api966/marshall_contract.cpp:10-109 | a contract comes back as it was if and only if it has exchange, local symbol and strike, multiplier 100, and no expiry but a printable one |
| `ContractKeys.DocumentedKeys` | src/cpp/platform/contract_symbol.cpp:115 | the keys the documentation gives as examples |
| `ContractKeys.LineToRecord` | src/cpp/service/LogReaderInternal.hpp:58-78 | the map of the line's fields, a later field of the same name winning |
| `ContractKeys.PrintedKeyIsKept` | src/cpp/ib/api966/ostream.cpp:11-25 | the key read from a printed contract is the printed contract's key |
| `ContractKeys.ThreeKeysAgree` | src/cpp/ib/contract_symbol.hpp:20-44 | protobuf key, IB contract key and the key re-parsed at both levels out of any log line the contract was printed into are one string |
| `ContractKeys.ReaderLearnsProtoKey` | src/cpp/service/LogReaderInternal.hpp:161-213 | a line for a new id teaches the log reader the protobuf's own key |
| `ContractKeys.SymbolTable.MapIdToSymbols` | src/cpp/service/LogReaderInternal.hpp:161-213 | the table learns a new id, keeps every old entry, and aborts on a bad id, an unusable contract or a second symbol for an id |
| `ContractKeys.LookupIsEveryKey` | src/cpp/service/LogReaderInternal.hpp:149-213 | over every sequence of records that does not abort, looking an id up finds an entry if and only if some record refers to the id, and the entry is the key that each such record gives |
| `ContractKeys.AbortsIff` | src/cpp/service/LogReaderInternal.hpp:161-213 | the reader aborts on a sequence of records if and only if one has an unreadable id or a contract without a key, or two give one id different keys |
| `ContractKeys.KeyNeedsNames` | src/cpp/ib/contract_symbol.hpp:20-44 | a map has a key if and only if it has symbol and type and, for an option, expiry, strike and right |
| `TickerId.DigitsUndoBase27` | src/cpp/ib/ticker_id.cpp:45-80 | base-27 digits of any length are recovered from their number, zero-extended to any longer reading |
| `TickerId.SymbolToTickerId` | src/cpp/ib/ticker_id.cpp:45-58 | the encoding loop computes the positional value of the letters, shifted by 11 bits |
| `TickerId.SymbolFromTickerId` | src/cpp/ib/ticker_id.cpp:70-80 | the decoding loop gives the letters of the positive digits, for every int |
| `TickerId.StockRoundTrip` | src/cpp/ib/ticker_id.cpp:45-80 | decoding an encoded symbol of up to four letters gives its upper case, and the id fits a 32-bit int |
| `TickerId.OptionRoundTrip` | src/cpp/ib/ticker_id.cpp:61-65 | decoding an option id returns symbol, side and strike if and only if the strike is whole and from 1 to 1023 for a call, 0 to 1024 for a put |
| `TickerId.OptionIdsAreApart` | src/cpp/ib/ticker_id.cpp:111-128 | for strikes 1 to 1023 option ids fit an int, are recognised as such and never equal a stock id |
| `TickerId.PutAt1024IsStock` | src/cpp/ib/ticker_id.cpp:61-65 | the put at 1024 has its stock's id |
| `TickerMap.EveryRunIsConsistent` | src/cpp/ib/TickerMap.cpp:113-149 | after every run of registrations symbol-to-id then id-to-symbol is the identity, the two id maps have equal domains and agree on the symbol, and the known symbols are the ids' symbols |
| `TickerMap.SymbolsNeverChange` | src/cpp/ib/TickerMap.cpp:124-148 | an id keeps its symbol whatever is registered later |
| `TickerMap.IssuedIsKnown` | src/cpp/ib/TickerMap.cpp:113-149 | the id issued is known under the contract's key, or the result is -1 |
| `TickerMap.IssuedOverRuns` | src/cpp/ib/TickerMap.cpp:113-149 | after any registrations a contract is given its own id, or the number of ids issued so far plus one if it has none, and is refused if and only if that id was issued to a contract of another key |
| `TickerMap.KeptIsFirst` | src/cpp/ib/TickerMap.cpp:124-131 | the contract kept for an id is the first it was issued to, with that id |
| `TickerMap.ZeroIdsAreConsecutive` | src/cpp/ib/TickerMap.cpp:120-122 | runs using only id 0 are given 1, 2, 3, ..., even for a symbol seen before |
| `TickerMap.ZeroIdCanCollide` | src/cpp/ib/TickerMap.cpp:120-122 | a concrete run mixing ids in which id 0 is refused |
| `TickerMap.TickerMap.RegisterContract` | src/cpp/ib/TickerMap.cpp:113-149 | the three maps change as specified and the result is the specified id |
| `TickerMap.TickerMap.RegisterAll` | src/cpp/ib/TickerMap.cpp:113-149 | any registrations leave the maps, and are given the ids, that the specified run says |
| `TickerMap.TickerMap.GetSubscriptionKeyFromId` | src/cpp/ib/TickerMap.cpp:151-161 | the registered symbol, or the decoded ticker id when there is none |
| `TickerMap.TickerMap.GetTickerIdFromSubscriptionKey` | src/cpp/ib/TickerMap.cpp:163-173 | the registered id, or the encoded key when there is none |
| `ConnectorSpec.ParseSetting` | src/cpp/ib/SessionSetting.cpp:17-45 | the parts of one spec, or failure on an unreadable number |
| `ConnectorSpec.ParseSettings` | src/cpp/ib/SocketInitiator.cpp:35-57 | the settings of all specs in order; one failing spec fails the whole |
| `ConnectorSpec.AnySpec` | src/cpp/ib/SessionSetting.cpp:17-45 | any spec of the documented form denotes its host, endpoint and the numbers its texts read as, and fails if and only if one of them is unreadable |
| `ConnectorSpec.SpecRoundTrip` | src/cpp/main/global_defaults.hpp:30-39 | a built spec reads back if and only if its port is below 2^31 |
| `ConnectorSpec.ParsingUndoesPrinting` | src/cpp/ib/SocketInitiator.cpp:35-57 | joining built specs with commas and parsing gives the same list in order if and only if every port is below 2^31 |
| `SessionLogs.SymbolsAreIndependent` | src/cpp/main/historian_loader_main.cpp:411-465 | the logs of a symbol are the sessions of its own times, whatever other symbols do |
| `SessionLogs.EachEventInOneSession` | src/cpp/main/historian_loader_main.cpp:411-465 | for nondecreasing positive times, flushed logs plus the open one are ordered, disjoint and more than the configured minutes apart, each event lies in exactly one, and the open stop is 0 if and only if one event was seen |
| `SessionLogs.SplitIffMinutesExceed` | src/cpp/main/historian_loader_main.cpp:435-441 | a symbol's event splits its session if and only if it is at least the third and the minutes component of its gap exceeds the setting |
| `SessionLogs.FirstGapIsMissed` | src/cpp/main/historian_loader_main.cpp:435 | a symbol's first gap never splits, however long and whatever the setting |
| `SessionLogs.AnHourIsMissed` | src/cpp/main/historian_loader_main.cpp:441 | an hour's silence does not split a session under a five-minute setting |
| `SessionLogs.Loader.UpdateSessionLog` | src/cpp/main/historian_loader_main.cpp:411-465 | the table of open logs changes as specified, and a closed session is written to the database |
| `SessionLogs.Loader.Load` | src/cpp/main/historian_loader_main.cpp:411-465 | a whole run of events into an empty database leaves the tables, and the store, at their specified folds |
| `SessionLogs.LogsAreNamed` | src/cpp/main/historian_loader_main.cpp:446-450 | every flushed log names the log file, and an open one the input until its symbol's first flush |
| `SessionLogs.FlushedAreStored` | src/cpp/main/historian_loader_main.cpp:452-454 | every flushed log is found in the database under its own key |
| `GzipRecogniser.HeaderIsRecognised` | src/cpp/boost/iostreams/gzip.cpp:27-129 | a header of section 2.3 of RFC 1952 without an extra field is consumed to the done state with flags, OS, name and comment recovered, and the time if and only if it is below 2^31 |
| `GzipRecogniser.NotDoneEarlier` | src/cpp/boost/iostreams/gzip.cpp:27-129 | no proper prefix of such a header is done |
| `GzipRecogniser.DoneOnlyOnLayouts` | src/cpp/boost/iostreams/gzip.cpp:27-129 | every byte sequence on which the recogniser ends done is the layout of a well-formed header without an extra field |
| `GzipRecogniser.RecognisedIffNoExtra` | src/cpp/boost/iostreams/gzip.cpp:62-75 | a well-formed header ends in the done state if and only if it has no extra field |
| `GzipRecogniser.FooterIsRecognised` | src/cpp/boost/iostreams/gzip.cpp:142-164 | the footer recovers CRC32 and ISIZE from their little-endian bytes for all 32-bit values |
| `GzipRecogniser.GzipHeader.Process` | src/cpp/boost/iostreams/gzip.cpp:27-129 | one byte changes the fields as the specified machine; a bad byte throws and changes nothing |
| `GzipRecogniser.GzipHeader.ProcessAll` | src/cpp/boost/iostreams/gzip.cpp:27-129 | bytes one after the other: all consumed, done early with the rest untouched, or a bad byte, as the specified machine |
| `GzipRecogniser.RecogniseHeader` | src/cpp/boost/iostreams/gzip.cpp:27-138 | a new recogniser reads a whole header without an extra field and nothing of what follows it |
| `GzipRecogniser.GzipHeader.Reset` | src/cpp/boost/iostreams/gzip.cpp:131-138 | back to the initial state from any state |
| `GzipRecogniser.GzipFooter.Process` | src/cpp/boost/iostreams/gzip.cpp:142-164 | one byte changes the fields as the specified machine |
| `GzipRecogniser.GzipFooter.ProcessAll` | src/cpp/boost/iostreams/gzip.cpp:142-164 | bytes one after the other, up to the done state, as the specified machine |
| `GzipRecogniser.GzipFooter.Reset` | src/cpp/boost/iostreams/gzip.cpp:166-170 | back to the initial state from any state |

## Left out

- The bucket refinement for timestamps that go back: the clock itself moves back there. What holds in every time order is proved (`WindowSpec.CurrentIsFoldSinceOpen`, `Ohlc.CandlesStayInOrder`).
- MovingWindow.MovingWindow.Get: an index beyond the ring is undefined behaviour in the source and required away; so is a copy of length 0, which writes before the array.
- Ohlc.Ohlc.On: with a callback set, requires that no more buckets close than the ring holds, since the source then indexes outside the ring.
- DerivedSeries.SeriesWindow.On: functors are functions of the window, so the order between the three lists of operations is not seen; series derived from derived series are covered by `DerivedSeries.DerivedSeriesFollowsParent` only. Series ids, labels and the unused minimum sample count are left out.
- The window's own post-process callback: the same loop over closed buckets as the candle callback, on one window.
- The time zone and text format of printed rows; a row here is a time and four numbers.
- InboundReactor.Connector.HandleOne: on a REP socket, the exception for a reply sent before the whole request was read; such requests are exactly the ones that are not handleable.
- The wrap-around of the push counter, a size_t.
- Failures of LevelDB, serialisation, ZeroMQ and Asio: writes to the store and sends succeed.
- HistorianDb.SymbolQueryIsExact: holds for ':'-free fields and times of equal decimal length, as the key format needs; `HistorianDb.SymbolQueryScans` covers times of any length.
- RemoteQuery.ProcessCallback: a stream on which the source blocks for ever is required away, as is a reply that never arrives; `RemoteSession` shows that neither arises.
- TickerId.SymbolToTickerId: a symbol longer than four characters indexes outside the source's scale table and is required away.
- GzipRecogniser.HeaderIsRecognised: the field types are declared in a header that is not part of this repository; the time is taken as wide enough for a signed 32-bit sum and the extra length as unbounded.
- ClientDriver: socket contents, and the callbacks for opening and closing a socket; a message check either returns, throws, or has a send or receive in it fail.
- Data races as undefined behaviour in the driver's unlocked fields: steps are sequentially consistent.
- The final flush of open session logs at exit, and the loader's log parsing other than contract lines.
- The option branch of `parse_encoded_symbol`, which reads fields where the formatter does not write them, and `convert_to_contract`.
- Floating-point rounding, time zones, command-line flags, counters for monitoring, logging and `main` functions.
- The R bindings, the Go and C++ prototypes, the API logging adapters and event dispatchers, and the rest of boost/iostreams: wrappers, earlier copies and foreign calls.
