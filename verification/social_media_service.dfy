/** The stream consumer: exponential backoff with jitter, the reconnect
    counter shared by every stream of the service, the batch buffer that
    flushes at 25 records, the drain on stream end, and provider stamping.

    The connection, the clock and `Math.random()` are parameters: `ok(i)`
    says whether the i-th connection call of a run succeeds, `jitter(i)` is
    the random part of the sleep before that call, and `send(k)` is the
    outcome of the k-th batch write of an `addTweets` call. */
module SocialMediaService {
  import opened Common
  import opened SocialMediaData
  import opened TwitterAdapter
  import opened FrameExtractor
  import opened KeyValueStore
  import opened SocialMediaRepository

  const MaxReconnectAttempts: nat := 5
  const BaseDelay: nat := 1000
  const BatchSize: nat := 25
  const Provider: string := "twitter"

  /** `Math.random() * 1000`, taken as whole milliseconds. */
  type Jitter = j: nat | j < 1000

  /** `calculateBackoffDelay`: the base delay doubled once per attempt, plus
      jitter; it falls in the attempt's own doubling window. */
  function BackoffDelay(attempt: nat, jitter: Jitter): (d: nat)
    ensures BaseDelay * Pow2(attempt) <= d < BaseDelay * Pow2(attempt + 1)
    ensures d - BaseDelay * Pow2(attempt) == jitter
  {
    BaseDelay * Pow2(attempt) + jitter
  }

  /** With jitter fixed at 500, the delays for attempts 0 to 3. */
  lemma BackoffDelayAtHalf()
    ensures BackoffDelay(0, 500) == 1500
    ensures BackoffDelay(1, 500) == 2500
    ensures BackoffDelay(2, 500) == 4500
    ensures BackoffDelay(3, 500) == 8500
  {
    assert Pow2(1) == 2;
    assert Pow2(2) == 4;
    assert Pow2(3) == 8;
  }

  /** With jitter 0, every delay for attempts 0 to 4 lies in
      [1000 * 2^a, 1000 * 2^(a+1)). */
  lemma BackoffDelayAtZero(attempt: nat)
    requires attempt < 5
    ensures 1000 * Pow2(attempt) <= BackoffDelay(attempt, 0) < 1000 * Pow2(attempt + 1)
  {
  }

  /** The delay grows strictly with the attempt, whatever the jitter. */
  lemma BackoffIncreases(attempt: nat, j1: Jitter, j2: Jitter)
    ensures BackoffDelay(attempt, j1) < BackoffDelay(attempt + 1, j2)
  {
  }

  /** One retry: the sleep before a connection call and whether the call
      succeeded. */
  datatype Round = Round(delay: nat, connected: bool)

  /** Where a run of connect / reconnect calls leaves the shared counter,
      whether a stream is attached, and the retries it made in order. */
  datatype Session = Session(attempts: nat, connected: bool, rounds: seq<Round>)

  /** Retries left before the counter reaches the maximum. */
  function RetriesLeft(attempts: nat): nat
  {
    if attempts < MaxReconnectAttempts then MaxReconnectAttempts - attempts else 0
  }

  /** `connectToStream`: connection call `i` either attaches the stream and
      resets the counter, or hands over to `reconnectWithBackoff`. */
  function Connect(attempts: nat, i: nat, ok: nat -> bool, jitter: nat -> Jitter): (s: Session)
    ensures s.connected ==> s.attempts == 0
    ensures !s.connected ==> s.attempts == Max(attempts, MaxReconnectAttempts)
    ensures |s.rounds| <= RetriesLeft(attempts)
    decreases RetriesLeft(attempts), 1
  {
    if ok(i) then Session(0, true, [])
    else Reconnect(attempts, i + 1, ok, jitter)
  }

  /** `reconnectWithBackoff`: gives up once the counter is at the maximum;
      otherwise sleeps for the delay of the current count, counts one more
      attempt and makes connection call `i`. */
  function Reconnect(attempts: nat, i: nat, ok: nat -> bool, jitter: nat -> Jitter): (s: Session)
    ensures s.rounds == [] <==> attempts >= MaxReconnectAttempts
    ensures s.connected ==> s.attempts == 0
    ensures !s.connected ==> s.attempts == Max(attempts, MaxReconnectAttempts)
    ensures |s.rounds| <= RetriesLeft(attempts)
    decreases RetriesLeft(attempts), 0
  {
    if attempts >= MaxReconnectAttempts then Session(attempts, false, [])
    else
      var next := Connect(attempts + 1, i, ok, jitter);
      Session(next.attempts, next.connected, [Round(BackoffDelay(attempts, jitter(i)), ok(i))] + next.rounds)
  }

  /** One step of a reconnect run below the maximum: a sleep for the
      current count, then call `i`; on failure the run goes on from the
      next count and the next call. */
  lemma ReconnectStep(attempts: nat, i: nat, ok: nat -> bool, jitter: nat -> Jitter)
    requires attempts < MaxReconnectAttempts
    ensures ok(i) ==>
      Reconnect(attempts, i, ok, jitter) == Session(0, true, [Round(BackoffDelay(attempts, jitter(i)), true)])
    ensures !ok(i) ==>
      (var t := Reconnect(attempts + 1, i + 1, ok, jitter);
       Reconnect(attempts, i, ok, jitter)
         == Session(t.attempts, t.connected, [Round(BackoffDelay(attempts, jitter(i)), false)] + t.rounds))
  {
  }

  /** Round m sleeps for the delay of count `attempts + m` and makes call
      `i + m`; every round but the last failed. */
  ghost predicate RoundsFrom(rounds: seq<Round>, attempts: nat, i: nat, ok: nat -> bool, jitter: nat -> Jitter)
  {
    && (forall m :: 0 <= m < |rounds| ==>
          rounds[m] == Round(BackoffDelay(attempts + m, jitter(i + m)), ok(i + m)))
    && (forall m :: 0 <= m < |rounds| - 1 ==> !rounds[m].connected)
  }

  lemma RoundsCons(rounds: seq<Round>, attempts: nat, i: nat, ok: nat -> bool, jitter: nat -> Jitter)
    requires !ok(i) && RoundsFrom(rounds, attempts + 1, i + 1, ok, jitter)
    ensures RoundsFrom([Round(BackoffDelay(attempts, jitter(i)), false)] + rounds, attempts, i, ok, jitter)
  {
    var all := [Round(BackoffDelay(attempts, jitter(i)), false)] + rounds;
    forall m | 1 <= m < |all|
      ensures all[m] == Round(BackoffDelay(attempts + m, jitter(i + m)), ok(i + m))
    {
      assert all[m] == rounds[m - 1];
      assert attempts + 1 + (m - 1) == attempts + m;
    }
  }

  /** The rounds of a reconnect run, against the calls it makes. */
  lemma {:induction false} ReconnectRounds(attempts: nat, i: nat, ok: nat -> bool, jitter: nat -> Jitter)
    ensures RoundsFrom(Reconnect(attempts, i, ok, jitter).rounds, attempts, i, ok, jitter)
    decreases RetriesLeft(attempts)
  {
    if attempts < MaxReconnectAttempts {
      ReconnectStep(attempts, i, ok, jitter);
      if !ok(i) {
        ReconnectRounds(attempts + 1, i + 1, ok, jitter);
        RoundsCons(Reconnect(attempts + 1, i + 1, ok, jitter).rounds, attempts, i, ok, jitter);
      }
    }
  }

  /** How a reconnect run ends: it makes no call exactly when the counter
      is already at the maximum; it attaches a stream exactly when its last
      call succeeded, which resets the counter; otherwise it has used up
      every retry and left the counter at the maximum. */
  lemma {:induction false} ReconnectOutcome(attempts: nat, i: nat, ok: nat -> bool, jitter: nat -> Jitter)
    ensures var s := Reconnect(attempts, i, ok, jitter);
      && (s.rounds == [] <==> attempts >= MaxReconnectAttempts)
      && |s.rounds| <= RetriesLeft(attempts)
      && (s.connected <==> s.rounds != [] && s.rounds[|s.rounds| - 1].connected)
      && (s.connected ==> s.attempts == 0)
      && (!s.connected ==> s.attempts == Max(attempts, MaxReconnectAttempts))
      && (!s.connected ==> |s.rounds| == RetriesLeft(attempts))
    decreases RetriesLeft(attempts)
  {
    if attempts < MaxReconnectAttempts {
      ReconnectStep(attempts, i, ok, jitter);
      if !ok(i) {
        ReconnectOutcome(attempts + 1, i + 1, ok, jitter);
      }
    }
  }

  /** The counter never leaves 0..5 when it starts inside it. */
  lemma CounterStaysBounded(attempts: nat, i: nat, ok: nat -> bool, jitter: nat -> Jitter)
    requires attempts <= MaxReconnectAttempts
    ensures Reconnect(attempts, i, ok, jitter).attempts <= MaxReconnectAttempts
    ensures Connect(attempts, i, ok, jitter).attempts <= MaxReconnectAttempts
  {
    ReconnectOutcome(attempts, i, ok, jitter);
    ReconnectOutcome(attempts, i + 1, ok, jitter);
  }

  /** From a fresh counter and a connection that always fails: exactly five
      sleeps, for attempts 0 to 4 in order, then the service gives up with
      the counter at 5. */
  lemma AlwaysFailingGivesUpAfterFive(ok: nat -> bool, jitter: nat -> Jitter)
    requires forall i :: !ok(i)
    ensures var s := Connect(0, 0, ok, jitter);
      && !s.connected && s.attempts == 5
      && |s.rounds| == 5
      && forall m :: 0 <= m < 5 ==> s.rounds[m] == Round(BackoffDelay(m, jitter(1 + m)), false)
  {
    ReconnectOutcome(0, 1, ok, jitter);
    ReconnectRounds(0, 1, ok, jitter);
  }

  /** The counter is one field for the whole service: once any stream has
      used up the retries, a later stream end on any hashtag gives up at
      once, with no sleep and no connection call, unless a connection
      succeeded in between. */
  lemma SharedCounterExhausted(i: nat, ok: nat -> bool, jitter: nat -> Jitter,
                               j: nat, ok2: nat -> bool, jitter2: nat -> Jitter)
    requires forall k :: !ok(k)
    ensures Reconnect(Connect(0, i, ok, jitter).attempts, j, ok2, jitter2) == Session(5, false, [])
  {
    ReconnectOutcome(0, i + 1, ok, jitter);
  }

  /** After any connect or reconnect run that ends with a stream attached,
      whatever the counter was before, the counter is back at 0: the next
      stream end, on any hashtag, has all five retries, and uses every one of
      them unless one connects. */
  lemma {:induction false} SuccessRestoresRetries(attempts: nat, i: nat, ok: nat -> bool, jitter: nat -> Jitter,
                                                  j: nat, ok2: nat -> bool, jitter2: nat -> Jitter)
    requires Connect(attempts, i, ok, jitter).connected
    ensures Connect(attempts, i, ok, jitter).attempts == 0
    ensures var s := Reconnect(Connect(attempts, i, ok, jitter).attempts, j, ok2, jitter2);
      && 1 <= |s.rounds| <= MaxReconnectAttempts
      && (!s.connected ==> |s.rounds| == MaxReconnectAttempts)
  {
    if !ok(i) {
      ReconnectOutcome(attempts, i + 1, ok, jitter);
    }
    ReconnectOutcome(0, j, ok2, jitter2);
  }

  /** `addTweets`: each record stamped with provider "twitter". */
  function AddTweets(dataArray: seq<TweetData>): (r: seq<SocialMediaRecord>)
    ensures |r| == |dataArray|
    ensures forall i :: 0 <= i < |r| ==> r[i].provider == Provider
  {
    seq(|dataArray|, i requires 0 <= i < |dataArray| => WithProvider(dataArray[i], Provider))
  }

  /** Records with their provider dropped. */
  function StripAll(records: seq<SocialMediaRecord>): seq<TweetData>
  {
    seq(|records|, i requires 0 <= i < |records| => WithoutProvider(records[i]))
  }

  /** Stamping changes nothing but the provider: same records, same order. */
  lemma AddTweetsKeepsRecords(dataArray: seq<TweetData>)
    ensures StripAll(AddTweets(dataArray)) == dataArray
  {
  }

  lemma StripAllAppend(a: seq<SocialMediaRecord>, b: seq<SocialMediaRecord>)
    ensures StripAll(a + b) == StripAll(a) + StripAll(b)
  {
  }

  /** The `tweets` argument of `handleDataEvent`: an array of raw objects,
      or the number the event wiring actually binds there. */
  datatype Payload = Counter(n: int) | Tweets(items: seq<RawTweet>)

  /** One `addTweets` call: the stamped records it was given, split into
      those its `batchCreate` got into the store and those after a rethrown
      batch write. The call resolves exactly when `unstored` is empty. */
  datatype WriteCall = WriteCall(stored: seq<SocialMediaRecord>, unstored: seq<SocialMediaRecord>)

  /** `addTweets(dataArray)`, its k-th batch write having outcome `send(k)`:
      the stamped records are cut where `batchCreate` stops, after whole
      batches of 25. */
  function AddTweetsCall(dataArray: seq<TweetData>, send: nat -> Option<StoreError>): (w: WriteCall)
    ensures w.stored + w.unstored == AddTweets(dataArray)
    ensures w.unstored == [] <==> FirstRethrown(send, 0, (|dataArray| + 24) / 25).None?
    ensures |w.stored| == Delivered(|dataArray|, send)
    ensures w.unstored != [] ==> |w.stored| % BatchWriteLimit == 0
  {
    var records := AddTweets(dataArray);
    var n := Delivered(|dataArray|, send);
    assert records[..n] + records[n..] == records;
    WriteCall(records[..n], records[n..])
  }

  datatype DataEventResult = DataEventResult(buffer: seq<TweetData>, write: Option<WriteCall>)

  /** Records a write call got into the store. */
  function Stored(w: Option<WriteCall>): seq<SocialMediaRecord>
  {
    if w.Some? then w.value.stored else []
  }

  /** `handleDataEvent`. A number has no `map`, so the call throws and the
      catch block swallows it. Otherwise the adapted tweets join the buffer;
      once it holds at least `batchSize` records all of them go to one
      `addTweets` call, and the buffer is emptied only if that call resolves.
      A rejection is swallowed by the same catch block and leaves the whole
      buffer in place, the records already stored included. */
  function HandleDataEvent(buffer: seq<TweetData>, batchSize: nat, tweets: Payload,
                           send: nat -> Option<StoreError>): (r: DataEventResult)
    ensures tweets.Counter? ==> r == DataEventResult(buffer, None)
    ensures tweets.Tweets? ==>
      var all := buffer + AdaptAll(tweets.items);
      && (r.write.Some? <==> |buffer| + |tweets.items| >= batchSize)
      && (r.write.Some? ==> r.write.value == AddTweetsCall(all, send))
      && (r.write.Some? && r.write.value.unstored == [] ==> r.buffer == [])
      && (r.write.Some? && r.write.value.unstored != [] ==> r.buffer == all)
      && (r.write.None? ==> r.buffer == all)
  {
    match tweets
    case Counter(_) => DataEventResult(buffer, None)
    case Tweets(items) =>
      var all := buffer + AdaptAll(items);
      if |all| >= batchSize then
        var w := AddTweetsCall(all, send);
        DataEventResult(if w.unstored == [] then [] else all, Some(w))
      else DataEventResult(all, None)
  }

  /** After a data event whose write, if any, resolved, fewer than
      `batchSize` records are buffered. */
  lemma DataEventBoundsBuffer(buffer: seq<TweetData>, batchSize: nat, items: seq<RawTweet>,
                              send: nat -> Option<StoreError>)
    requires batchSize > 0
    ensures var r := HandleDataEvent(buffer, batchSize, Tweets(items), send);
      r.write.None? || r.write.value.unstored == [] ==> |r.buffer| < batchSize
  {
  }

  /** The discrepancy: when a flush gets its first batches into the store
      and a later batch write is rethrown, the stored records stay buffered,
      so the stored records followed by the buffer no longer match what was
      received, and the next flush hands them to `addTweets` again. */
  lemma RejectedFlushIsRewritten(buffer: seq<TweetData>, batchSize: nat, items: seq<RawTweet>,
                                 send: nat -> Option<StoreError>, more: seq<RawTweet>,
                                 send2: nat -> Option<StoreError>)
    requires |buffer| + |items| >= batchSize
    requires AddTweetsCall(buffer + AdaptAll(items), send).stored != []
    requires AddTweetsCall(buffer + AdaptAll(items), send).unstored != []
    ensures var r := HandleDataEvent(buffer, batchSize, Tweets(items), send);
      && r.buffer == buffer + AdaptAll(items)
      && StripAll(Stored(r.write)) == r.buffer[..|Stored(r.write)|]
      && StripAll(Stored(r.write)) + r.buffer != buffer + AdaptAll(items)
    ensures var r := HandleDataEvent(buffer, batchSize, Tweets(items), send);
      var next := HandleDataEvent(r.buffer, batchSize, Tweets(more), send2);
      && next.write.Some?
      && (next.write.value.unstored == [] ==>
            StripAll(next.write.value.stored)[..|Stored(r.write)|] == StripAll(Stored(r.write)))
  {
    var all := buffer + AdaptAll(items);
    var w := AddTweetsCall(all, send);
    AddTweetsKeepsRecords(all);
    StripAllAppend(w.stored, w.unstored);
    assert StripAll(w.stored) == all[..|w.stored|];
    var all2 := all + AdaptAll(more);
    AddTweetsKeepsRecords(all2);
    assert all2[..|w.stored|] == all[..|w.stored|];
  }

  /** A concrete case: 24 buffered tweets and an event of 26 give two
      batches; the first is written and the second rethrown, so 25 records
      are stored and all 50 stay buffered. */
  lemma RejectedFlushExample(t: TweetData, raw: RawTweet)
    ensures var send := (k: nat) => if k == 1 then Some(ServiceError("ServiceUnavailable")) else None;
      var r := HandleDataEvent(seq(24, _ => t), BatchSize, Tweets(seq(26, _ => raw)), send);
      && |Stored(r.write)| == 25
      && |r.buffer| == 50
  {
    var send := (k: nat) => if k == 1 then Some(ServiceError("ServiceUnavailable")) else None;
    assert FirstRethrown(send, 0, 2) == Some(1) by {
      assert !Rethrown(send(0)) && Rethrown(send(1));
      assert FirstRethrown(send, 0, 2) == FirstRethrown(send, 1, 2);
    }
  }

  /** Dropping the provider commutes with slicing. */
  lemma StripAllDrop(records: seq<SocialMediaRecord>, n: nat)
    requires n <= |records|
    ensures StripAll(records[n..]) == StripAll(records)[n..]
  {
  }

  /** The data handler as evidently intended: as `HandleDataEvent` on an
      array, except that a rejected write leaves buffered only the records
      it did not get into the store. It makes the same write, and its buffer
      is always a suffix of the one the code keeps. */
  function HandleDataEventOnce(buffer: seq<TweetData>, batchSize: nat, items: seq<RawTweet>,
                               send: nat -> Option<StoreError>): (r: DataEventResult)
    ensures var src := HandleDataEvent(buffer, batchSize, Tweets(items), send);
      && r.write == src.write
      && |r.buffer| <= |src.buffer|
      && r.buffer == src.buffer[|src.buffer| - |r.buffer|..]
      && (r.write.None? || r.write.value.unstored == [] || Stored(r.write) == [] ==> r == src)
  {
    var all := buffer + AdaptAll(items);
    if |all| >= batchSize then
      var w := AddTweetsCall(all, send);
      AddTweetsKeepsRecords(all);
      StripAllDrop(w.stored + w.unstored, |w.stored|);
      assert (w.stored + w.unstored)[|w.stored|..] == w.unstored;
      DataEventResult(StripAll(w.unstored), Some(w))
    else DataEventResult(all, None)
  }

  /** No record is lost or written twice by one data event of the intended
      handler, whatever the write's outcome: what was stored, followed by
      what stays buffered, is the old buffer followed by the new tweets, in
      order. */
  lemma DataEventConserves(buffer: seq<TweetData>, batchSize: nat, items: seq<RawTweet>,
                           send: nat -> Option<StoreError>)
    ensures var r := HandleDataEventOnce(buffer, batchSize, items, send);
      StripAll(Stored(r.write)) + r.buffer == buffer + AdaptAll(items)
  {
    var all := buffer + AdaptAll(items);
    if |all| >= batchSize {
      var w := AddTweetsCall(all, send);
      AddTweetsKeepsRecords(all);
      StripAllAppend(w.stored, w.unstored);
    }
  }

  /** A sequence of data events through the intended handler: the final
      buffer and every record stored along the way; `sends(k)` gives the
      batch outcomes of event k's write. */
  function DataEvents(buffer: seq<TweetData>, batchSize: nat, events: seq<seq<RawTweet>>,
                      sends: nat -> nat -> Option<StoreError>, k: nat): (r: (seq<TweetData>, seq<SocialMediaRecord>))
    ensures events == [] ==> r == (buffer, [])
    ensures forall i :: 0 <= i < |r.1| ==> r.1[i].provider == Provider
    decreases |events|
  {
    if events == [] then (buffer, [])
    else
      var r := HandleDataEventOnce(buffer, batchSize, events[0], sends(k));
      var rest := DataEvents(r.buffer, batchSize, events[1..], sends, k + 1);
      assert forall i :: 0 <= i < |Stored(r.write)| ==> Stored(r.write)[i].provider == Provider by {
        if r.write.Some? {
          var w := r.write.value;
          forall i | 0 <= i < |w.stored| ensures w.stored[i].provider == Provider {
            assert w.stored[i] == (w.stored + w.unstored)[i];
          }
        }
      }
      (rest.0, Stored(r.write) + rest.1)
  }

  lemma DataEventsStep(buffer: seq<TweetData>, batchSize: nat, events: seq<seq<RawTweet>>,
                       sends: nat -> nat -> Option<StoreError>, k: nat)
    requires events != []
    ensures var r := HandleDataEventOnce(buffer, batchSize, events[0], sends(k));
      var rest := DataEvents(r.buffer, batchSize, events[1..], sends, k + 1);
      DataEvents(buffer, batchSize, events, sends, k) == (rest.0, Stored(r.write) + rest.1)
  {
  }

  /** All tweets of the arrays in order, adapted. */
  function AdaptEvents(events: seq<seq<RawTweet>>): seq<TweetData>
    decreases |events|
  {
    if events == [] then [] else AdaptAll(events[0]) + AdaptEvents(events[1..])
  }

  lemma ChainConservation<T>(stored: seq<T>, buffered: seq<T>, start: seq<T>, arrived: seq<T>,
                              laterStored: seq<T>, final: seq<T>, laterArrived: seq<T>)
    requires stored + buffered == start + arrived
    requires laterStored + final == buffered + laterArrived
    ensures (stored + laterStored) + final == start + (arrived + laterArrived)
  {
    calc {
      (stored + laterStored) + final;
      stored + (laterStored + final);
      stored + (buffered + laterArrived);
      (stored + buffered) + laterArrived;
      (start + arrived) + laterArrived;
      start + (arrived + laterArrived);
    }
  }

  /** Over any run of data events of the intended handler, whatever each
      batch write returns: everything stored, followed by the final buffer,
      is exactly the starting buffer followed by every tweet received, in
      arrival order, so each tweet is stored at most once. */
  lemma {:induction false} DataEventsConserve(buffer: seq<TweetData>, batchSize: nat,
                                              events: seq<seq<RawTweet>>,
                                              sends: nat -> nat -> Option<StoreError>, k: nat)
    ensures var r := DataEvents(buffer, batchSize, events, sends, k);
      StripAll(r.1) + r.0 == buffer + AdaptEvents(events)
    decreases |events|
  {
    if events != [] {
      var r := HandleDataEventOnce(buffer, batchSize, events[0], sends(k));
      var rest := DataEvents(r.buffer, batchSize, events[1..], sends, k + 1);
      DataEventsStep(buffer, batchSize, events, sends, k);
      DataEventConserves(buffer, batchSize, events[0], sends(k));
      DataEventsConserve(r.buffer, batchSize, events[1..], sends, k + 1);
      StripAllAppend(Stored(r.write), rest.1);
      assert AdaptEvents(events) == AdaptAll(events[0]) + AdaptEvents(events[1..]);
      ChainConservation(StripAll(Stored(r.write)), r.buffer, buffer, AdaptAll(events[0]),
                        StripAll(rest.1), rest.0, AdaptEvents(events[1..]));
    }
  }

  /** What `handleStreamEnd` leads to: the flush it made, the buffer it
      leaves, and the reconnect run, absent when the flush rejected. */
  datatype StreamEndResult = StreamEndResult(write: Option<WriteCall>, buffer: seq<TweetData>, reconnect: Option<Session>)

  /** `handleStreamEnd` (reached from both the end and the error event): a
      non-empty buffer is written first; a rejected write propagates, so the
      buffer stays and no reconnect happens; otherwise the buffer is emptied
      and the reconnect run starts from the shared counter with call 0. */
  function HandleStreamEnd(buffer: seq<TweetData>, attempts: nat, send: nat -> Option<StoreError>,
                           ok: nat -> bool, jitter: nat -> Jitter): (r: StreamEndResult)
    ensures r.write.Some? <==> |buffer| > 0
    ensures r.write.Some? ==> r.write.value.stored + r.write.value.unstored == AddTweets(buffer)
    ensures r.write.Some? ==> r.write.value == AddTweetsCall(buffer, send)
    ensures r.write.Some? ==> StripAll(r.write.value.stored + r.write.value.unstored) == buffer
    ensures r.reconnect.Some? <==> (|buffer| == 0 || r.write.value.unstored == [])
    ensures r.reconnect.Some? ==> r.buffer == [] && r.reconnect.value == Reconnect(attempts, 0, ok, jitter)
    ensures r.reconnect.None? ==> r.buffer == buffer
  {
    if |buffer| > 0 then
      AddTweetsKeepsRecords(buffer);
      var w := AddTweetsCall(buffer, send);
      if w.unstored == [] then StreamEndResult(Some(w), [], Some(Reconnect(attempts, 0, ok, jitter)))
      else StreamEndResult(Some(w), buffer, None)
    else StreamEndResult(None, [], Some(Reconnect(attempts, 0, ok, jitter)))
  }

  /** The stream's text so far and the record buffer. */
  datatype StreamState = StreamState(text: string, buffer: seq<TweetData>)

  /** The data handler as the service wires it: the bound `counter` (0)
      fills the `tweets` slot and the emitted chunk lands in an extra
      argument the handler never reads. */
  function OnDataAsWired(st: StreamState, chunk: string, send: nat -> Option<StoreError>): (r: (StreamState, Option<WriteCall>))
    ensures r.0 == st && r.1 == None
  {
    var d := HandleDataEvent(st.buffer, BatchSize, Counter(0), send);
    (StreamState(st.text, d.buffer), d.write)
  }

  /** As wired, no chunk ever reaches the buffer or the store, whatever a
      stream sends. */
  lemma AsWiredDropsEveryChunk(st: StreamState, chunks: seq<string>, send: nat -> Option<StoreError>)
    ensures forall c :: c in chunks ==> OnDataAsWired(st, c, send) == (st, None)
  {
  }

  /** The data handler as evidently intended: the chunk is appended to the
      stream text, complete arrays are extracted from it, and their tweets
      are what the intended handler receives. */
  function OnData(st: StreamState, chunk: string, parse: Parser<RawTweet>,
                  send: nat -> Option<StoreError>): (r: (StreamState, Option<WriteCall>))
    ensures r.1 == HandleDataEvent(st.buffer, BatchSize, Tweets(Extract(st.text + chunk, parse).items), send).write
  {
    var e := Extract(st.text + chunk, parse);
    var d := HandleDataEventOnce(st.buffer, BatchSize, e.items, send);
    (StreamState(e.rest, d.buffer), d.write)
  }

  /** With the chunk delivered, every tweet of every complete array in the
      stream text is stored or buffered, exactly once and in order, and the
      text kept is exactly what extraction could not consume. */
  lemma OnDataDeliversTweets(st: StreamState, chunk: string, parse: Parser<RawTweet>,
                             send: nat -> Option<StoreError>)
    ensures var r := OnData(st, chunk, parse, send);
      && StripAll(Stored(r.1)) + r.0.buffer == st.buffer + AdaptAll(Extract(st.text + chunk, parse).items)
      && Accounts(st.text + chunk, Extract(st.text + chunk, parse), parse)
      && r.0.text == Extract(st.text + chunk, parse).rest
  {
    DataEventConserves(st.buffer, BatchSize, Extract(st.text + chunk, parse).items, send);
    ExtractSound(st.text + chunk, parse);
  }

  /** The discrepancy on one chunk: a complete one-tweet array reaches the
      buffer through the intended handler but not through the wired one. */
  lemma WiringLosesTweet(parse: Parser<RawTweet>, tweet: RawTweet, send: nat -> Option<StoreError>)
    requires parse("[" + "{}" + "]") == Some([tweet])
    ensures OnDataAsWired(StreamState("", []), "[{}]", send).0.buffer == []
    ensures OnData(StreamState("", []), "[{}]", parse, send).0.buffer == [ToSocialMediaData(tweet)]
  {
    OneTweetArray(parse, tweet);
    assert AdaptAll([tweet]) == [ToSocialMediaData(tweet)];
  }

  /** The chunk "[{}]" on an empty stream text is one complete array. */
  lemma OneTweetArray(parse: Parser<RawTweet>, tweet: RawTweet)
    requires parse("[" + "{}" + "]") == Some([tweet])
    ensures Extract("" + "[{}]", parse).items == [tweet]
  {
    var s: string := "[{}]";
    assert "" + "[{}]" == s;
    assert NextFrame(s, parse) == Some((0, 3)) by {
      assert s == "[" + "{}" + "]";
      assert IndexOf(s, '[', 0) == Some(0);
      assert CloseFrom(s, 1, 1) == Some(3);
      assert s[0..4] == s;
    }
    ExtractStep(s, parse);
    assert s[4..] == "";
    assert Extract("", parse).items == [];
  }



}
