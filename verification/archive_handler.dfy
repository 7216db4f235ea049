/** The archival Lambda handler: when the count query on a partition reports
    more than 100 000 items, it reads the surplus oldest-first in pages, and for every
    accumulated batch writes one JSON object to the archive bucket and then
    deletes the batch's items in requests of at most 25 keys.

    The environment (table, key attribute names, partition value, bucket) is
    a `Config`; the store is the partition's rows in ascending sort-key
    order; `clock(b)` is the ISO timestamp read for archive call b; and
    `callOk(k)` is the outcome of the k-th bucket or delete call. */
module ArchiveHandler {
  import opened Common
  import opened KeyValueStore

  const ArchiveThreshold: nat := 100000
  const MaxItemsPerBatch: nat := 1000
  const JsonContentType: string := "application/json"

  /** An item as the document client returns it. */
  type Item = map<string, string>

  /** The key of one delete request; a missing attribute is `undefined`. */
  type DeleteKey = map<string, Option<string>>

  datatype Config = Config(tableName: string, pkName: string, skName: string,
                           partitionValue: string, bucket: string)

  /** A call with an effect outside the Lambda, in the order made. */
  datatype Effect =
    | PutObject(bucket: string, key: string, body: seq<Item>, contentType: string)
    | DeleteBatch(table: string, keys: seq<DeleteKey>)

  /** `archive/{partition}/{timestamp}.json`. */
  function ArchiveKey(partitionValue: string, timestamp: string): (k: string)
    ensures |k| == 14 + |partitionValue| + |timestamp|
    ensures k[..8] == "archive/" && k[|k| - 5..] == ".json"
    ensures k[8..8 + |partitionValue|] == partitionValue && k[8 + |partitionValue|] == '/'
    ensures k[9 + |partitionValue|..|k| - 5] == timestamp
  {
    "archive/" + partitionValue + "/" + timestamp + ".json"
  }

  /** Archive calls with distinct timestamps write distinct objects. */
  lemma ArchiveKeyInjective(partitionValue: string, t1: string, t2: string)
    requires ArchiveKey(partitionValue, t1) == ArchiveKey(partitionValue, t2)
    ensures t1 == t2
  {
  }

  /** `{[PK]: item[PK], [SK]: item[SK]}`: the sort key wins when the two
      attribute names coincide. */
  function DeleteKeyOf(cfg: Config, item: Item): (k: DeleteKey)
    ensures k.Keys == {cfg.pkName, cfg.skName}
    ensures k[cfg.skName] == Lookup(item, cfg.skName)
    ensures cfg.pkName != cfg.skName ==> k[cfg.pkName] == Lookup(item, cfg.pkName)
  {
    map[cfg.pkName := Lookup(item, cfg.pkName)][cfg.skName := Lookup(item, cfg.skName)]
  }

  function DeleteKeys(cfg: Config, items: seq<Item>): (ks: seq<DeleteKey>)
    ensures |ks| == |items|
    ensures forall i :: 0 <= i < |items| ==> ks[i] == DeleteKeyOf(cfg, items[i])
  {
    seq(|items|, i requires 0 <= i < |items| => DeleteKeyOf(cfg, items[i]))
  }

  /** `deleteItemsFromDynamoDB`: one batch-write per chunk of 25 items. */
  function DeleteCalls(cfg: Config, items: seq<Item>): (calls: seq<Effect>)
    ensures |calls| == (|items| + 24) / 25
    ensures forall k :: 0 <= k < |calls| ==>
      calls[k].DeleteBatch? && calls[k].table == cfg.tableName && 1 <= |calls[k].keys| <= BatchWriteLimit
  {
    var chunks := Chunks(items, BatchWriteLimit);
    ChunkCount(items);
    seq(|chunks|, i requires 0 <= i < |chunks| => DeleteBatch(cfg.tableName, DeleteKeys(cfg, chunks[i])))
  }

  /** The keys of a sequence of delete calls, in order. */
  function KeysOf(calls: seq<Effect>): seq<DeleteKey>
  {
    if |calls| == 0 then []
    else (if calls[0].DeleteBatch? then calls[0].keys else []) + KeysOf(calls[1..])
  }

  lemma DeleteKeysAppend(cfg: Config, a: seq<Item>, b: seq<Item>)
    ensures DeleteKeys(cfg, a + b) == DeleteKeys(cfg, a) + DeleteKeys(cfg, b)
  {
  }

  lemma {:induction false} KeysOfChunks(cfg: Config, chunks: seq<seq<Item>>)
    ensures KeysOf(seq(|chunks|, i requires 0 <= i < |chunks| => DeleteBatch(cfg.tableName, DeleteKeys(cfg, chunks[i]))))
      == DeleteKeys(cfg, Flatten(chunks))
    decreases |chunks|
  {
    var calls := seq(|chunks|, i requires 0 <= i < |chunks| => DeleteBatch(cfg.tableName, DeleteKeys(cfg, chunks[i])));
    if |chunks| > 0 {
      var tail := seq(|chunks[1..]|, i requires 0 <= i < |chunks[1..]| => DeleteBatch(cfg.tableName, DeleteKeys(cfg, chunks[1..][i])));
      assert calls[1..] == tail;
      KeysOfChunks(cfg, chunks[1..]);
      DeleteKeysAppend(cfg, chunks[0], Flatten(chunks[1..]));
    }
  }

  /** The delete calls of a batch hold at most 25 keys each and, in order,
      exactly the keys of the batch's items: every item is deleted once. */
  lemma DeletesCoverBatch(cfg: Config, items: seq<Item>)
    ensures |DeleteCalls(cfg, items)| == (|items| + 24) / 25
    ensures forall c :: c in DeleteCalls(cfg, items) ==>
      c.DeleteBatch? && c.table == cfg.tableName && 1 <= |c.keys| <= BatchWriteLimit
    ensures KeysOf(DeleteCalls(cfg, items)) == DeleteKeys(cfg, items)
  {
    var chunks := Chunks(items, BatchWriteLimit);
    ChunkCount(items);
    forall c | c in DeleteCalls(cfg, items)
      ensures c.DeleteBatch? && c.table == cfg.tableName && 1 <= |c.keys| <= BatchWriteLimit
    {
      var i :| 0 <= i < |DeleteCalls(cfg, items)| && DeleteCalls(cfg, items)[i] == c;
      assert |chunks[i]| <= BatchWriteLimit;
    }
    assert DeleteCalls(cfg, items)
      == seq(|chunks|, i requires 0 <= i < |chunks| => DeleteBatch(cfg.tableName, DeleteKeys(cfg, chunks[i])));
    KeysOfChunks(cfg, chunks);
  }

  /** What processing one batch does, in order: the archive object first,
      then the deletes. */
  function BatchScript(cfg: Config, items: seq<Item>, timestamp: string): (s: seq<Effect>)
    ensures |s| >= 1
    ensures s[0].PutObject? && s[0].body == items
  {
    [PutObject(cfg.bucket, ArchiveKey(cfg.partitionValue, timestamp), items, JsonContentType)]
      + DeleteCalls(cfg, items)
  }

  /** Within a batch the archive object is written first, under the
      batch's key and with the batch as body; every later call is a delete,
      and the deletes remove exactly the batch's items, in order, 25 keys at
      most per call. */
  lemma ArchiveBeforeDelete(cfg: Config, items: seq<Item>, timestamp: string)
    ensures var s := BatchScript(cfg, items, timestamp);
      && s[0] == PutObject(cfg.bucket, ArchiveKey(cfg.partitionValue, timestamp), items, JsonContentType)
      && (forall k :: 1 <= k < |s| ==> s[k].DeleteBatch? && 1 <= |s[k].keys| <= BatchWriteLimit)
      && KeysOf(s[1..]) == DeleteKeys(cfg, items)
  {
    var s := BatchScript(cfg, items, timestamp);
    assert s[1..] == DeleteCalls(cfg, items);
    DeletesCoverBatch(cfg, items);
    forall k | 1 <= k < |s| ensures s[k].DeleteBatch? && 1 <= |s[k].keys| <= BatchWriteLimit {
      assert s[k] in DeleteCalls(cfg, items) by { assert s[k] == s[1..][k - 1]; }
    }
  }

  /** The calls of processing `batches` in order, batch b archived under
      timestamp `clock(b)`. */
  function Script(cfg: Config, batches: seq<seq<Item>>, clock: nat -> string): (s: seq<Effect>)
    ensures |s| >= |batches|
    ensures |batches| > 0 ==> s[0].PutObject? && s[0].body == batches[0]
    decreases |batches|
  {
    if |batches| == 0 then [] else
      Script(cfg, batches[..|batches| - 1], clock) + BatchScript(cfg, batches[|batches| - 1], clock(|batches| - 1))
  }

  lemma ScriptSnoc(cfg: Config, batches: seq<seq<Item>>, items: seq<Item>, clock: nat -> string)
    ensures Script(cfg, batches + [items], clock)
      == Script(cfg, batches, clock) + BatchScript(cfg, items, clock(|batches|))
  {
    assert (batches + [items])[..|batches|] == batches;
  }

  /** `a` is a prefix of `b`. */
  ghost predicate IsPrefix<T>(a: seq<T>, b: seq<T>)
  {
    |a| <= |b| && a == b[..|a|]
  }

  /** The outcome of making the calls of `script` from global call position
      `base` on: at least one call made, in order; every call but the last
      succeeded; the last one succeeded exactly when all of them were made
      and `ok` holds. */
  ghost predicate Attempted(script: seq<Effect>, done: seq<Effect>, ok: bool, callOk: nat -> bool, base: nat)
  {
    && 1 <= |done| && IsPrefix(done, script)
    && (forall k :: base <= k < base + |done| - 1 ==> callOk(k))
    && (ok ==> done == script && callOk(base + |done| - 1))
    && (!ok ==> !callOk(base + |done| - 1))
  }

  /** `archiveItemsToS3` then `deleteItemsFromDynamoDB` on one batch: the
      calls go out in order until one throws, and then nothing more.
      `callOk(base + k)` is the outcome of the batch's k-th call. */
  method ProcessBatch(cfg: Config, items: seq<Item>, timestamp: string, callOk: nat -> bool, base: nat)
    returns (done: seq<Effect>, ok: bool)
    ensures Attempted(BatchScript(cfg, items, timestamp), done, ok, callOk, base)
  {
    var script := BatchScript(cfg, items, timestamp);
    var n;
    n, ok := Perform(script, callOk, base);
    done := script[..n];
    if ok {
      assert done == script;
    }
  }

  /** Batch sizes the handler produces: never empty, below two pages. */
  ghost predicate Sized(batches: seq<seq<Item>>)
  {
    forall b :: b in batches ==> 0 < |b| < 2 * MaxItemsPerBatch
  }

  /** Every call made so far succeeded. */
  ghost predicate AllOk(log: seq<Effect>, callOk: nat -> bool)
  {
    forall k :: 0 <= k < |log| ==> callOk(k)
  }

  /** A run that has not thrown: `log` is the calls of processing `batches`
      in order, and every one succeeded. */
  ghost predicate Ran(cfg: Config, batches: seq<seq<Item>>, clock: nat -> string, callOk: nat -> bool, log: seq<Effect>)
  {
    log == Script(cfg, batches, clock) && AllOk(log, callOk)
  }

  /** How a run that threw ends: inside the last batch's calls, at the
      first call that failed. */
  ghost predicate FailedIn(cfg: Config, batches: seq<seq<Item>>, clock: nat -> string,
                           callOk: nat -> bool, log: seq<Effect>)
  {
    && |batches| >= 1
    && |Script(cfg, batches[..|batches| - 1], clock)| < |log|
    && IsPrefix(log, Script(cfg, batches, clock))
    && (forall k :: 0 <= k < |log| - 1 ==> callOk(k))
    && !callOk(|log| - 1)
  }

  lemma PrefixAppend<T>(a: seq<T>, b: seq<T>, c: seq<T>)
    requires IsPrefix(b, c)
    ensures IsPrefix(a + b, a + c)
  {
    assert (a + c)[..|a + b|] == a + c[..|b|];
  }

  lemma ExtendAllOk(log: seq<Effect>, done: seq<Effect>, callOk: nat -> bool)
    requires AllOk(log, callOk) && 1 <= |done|
    requires forall k :: |log| <= k < |log| + |done| - 1 ==> callOk(k)
    requires callOk(|log| + |done| - 1)
    ensures AllOk(log + done, callOk)
  {
  }

  lemma ExtendFailed(log: seq<Effect>, done: seq<Effect>, callOk: nat -> bool)
    requires AllOk(log, callOk) && 1 <= |done|
    requires forall k :: |log| <= k < |log| + |done| - 1 ==> callOk(k)
    requires !callOk(|log| + |done| - 1)
    ensures forall k :: 0 <= k < |log + done| - 1 ==> callOk(k)
    ensures !callOk(|log + done| - 1)
  {
  }

  /** A batch whose calls all succeeded extends the script. */
  lemma FlushSucceeded(cfg: Config, batches: seq<seq<Item>>, pending: seq<Item>, clock: nat -> string,
                       callOk: nat -> bool, log: seq<Effect>, done: seq<Effect>)
    requires Ran(cfg, batches, clock, callOk, log)
    requires Attempted(BatchScript(cfg, pending, clock(|batches|)), done, true, callOk, |log|)
    ensures Ran(cfg, batches + [pending], clock, callOk, log + done)
  {
    ScriptSnoc(cfg, batches, pending, clock);
    ExtendAllOk(log, done, callOk);
  }

  /** A batch whose calls stopped at a failure leaves the log inside it. */
  lemma FlushFailed(cfg: Config, batches: seq<seq<Item>>, pending: seq<Item>, clock: nat -> string,
                    callOk: nat -> bool, log: seq<Effect>, done: seq<Effect>)
    requires Ran(cfg, batches, clock, callOk, log)
    requires Attempted(BatchScript(cfg, pending, clock(|batches|)), done, false, callOk, |log|)
    ensures FailedIn(cfg, batches + [pending], clock, callOk, log + done)
  {
    var batches' := batches + [pending];
    ScriptSnoc(cfg, batches, pending, clock);
    assert batches'[..|batches'| - 1] == batches;
    ExtendFailed(log, done, callOk);
    PrefixAppend(log, done, BatchScript(cfg, pending, clock(|batches|)));
  }

  /** Processing the accumulated items as the next batch, archived under
      the clock's reading for that batch. */
  method Flush(cfg: Config, batches: seq<seq<Item>>, pending: seq<Item>, clock: nat -> string,
               callOk: nat -> bool, log: seq<Effect>)
    returns (log': seq<Effect>, ok: bool)
    requires Ran(cfg, batches, clock, callOk, log)
    ensures ok ==> Ran(cfg, batches + [pending], clock, callOk, log')
    ensures !ok ==> FailedIn(cfg, batches + [pending], clock, callOk, log')
  {
    var done;
    done, ok := ProcessBatch(cfg, pending, clock(|batches|), callOk, |log|);
    if ok {
      FlushSucceeded(cfg, batches, pending, clock, callOk, log, done);
    } else {
      FlushFailed(cfg, batches, pending, clock, callOk, log, done);
    }
    log' := log + done;
  }

  /** The query step: the next page of at most `min(1000, remaining)` rows
      from position `retrieved`, ascending, with a `LastEvaluatedKey` when
      rows remain or the page is full. */
  method FetchPage(rows: seq<Item>, retrieved: nat, numberToArchive: nat, cap: nat)
    returns (items: seq<Item>, lastEvaluatedKey: Option<nat>)
    requires retrieved < numberToArchive && retrieved <= |rows|
    ensures |items| <= numberToArchive - retrieved && |items| <= MaxItemsPerBatch
    ensures retrieved + |items| <= |rows|
    ensures items == rows[retrieved..retrieved + |items|]
    ensures lastEvaluatedKey.Some? <==>
      retrieved + |items| < |rows| || |items| == Min(MaxItemsPerBatch, numberToArchive - retrieved)
    ensures lastEvaluatedKey.None? ==> retrieved + |items| == |rows|
    ensures lastEvaluatedKey.Some? ==> lastEvaluatedKey.value == retrieved + |items| && |items| >= 1
  {
    var limit := Min(MaxItemsPerBatch, numberToArchive - retrieved);
    var page := QueryPage(rows, retrieved, limit, cap).value;
    items := page.items;
    lastEvaluatedKey := page.lastEvaluatedKey;
  }

  /** The handler's loop state: batches processed, calls made, items read
      but not yet processed, and how many rows have been read. */
  datatype Progress = Progress(batches: seq<seq<Item>>, log: seq<Effect>, pending: seq<Item>, retrieved: nat)

  /** What holds between iterations: the processed batches followed by the
      pending items are exactly the rows read so far, in order; no more than
      `numberToArchive` rows have been read; every call made succeeded. */
  ghost predicate Healthy(cfg: Config, rows: seq<Item>, clock: nat -> string, callOk: nat -> bool,
                          numberToArchive: nat, p: Progress)
  {
    && p.retrieved <= numberToArchive && p.retrieved <= |rows|
    && Flatten(p.batches) + p.pending == rows[..p.retrieved]
    && |p.pending| < MaxItemsPerBatch
    && Sized(p.batches)
    && Ran(cfg, p.batches, clock, callOk, p.log)
  }

  /** How a failed run leaves the state: the batches hold some of the rows
      meant for archiving, in order, and the log stops at the failing call. */
  ghost predicate Stopped(cfg: Config, rows: seq<Item>, clock: nat -> string, callOk: nat -> bool,
                          numberToArchive: nat, p: Progress)
  {
    && IsPrefix(Flatten(p.batches), rows[..Min(numberToArchive, |rows|)])
    && Sized(p.batches)
    && FailedIn(cfg, p.batches, clock, callOk, p.log)
  }

  lemma PageExtends(rows: seq<Item>, retrieved: nat, items: seq<Item>, done: seq<Item>, pending: seq<Item>)
    requires retrieved + |items| <= |rows| && items == rows[retrieved..retrieved + |items|]
    requires done + pending == rows[..retrieved]
    ensures done + (pending + items) == rows[..retrieved + |items|]
  {
    assert rows[..retrieved + |items|] == rows[..retrieved] + items;
  }

  /** Processing the pending items keeps the batches' contents and sizes
      in step with the rows read. */
  lemma FlushKeepsRows(rows: seq<Item>, retrieved: nat, batches: seq<seq<Item>>, pending: seq<Item>)
    requires retrieved <= |rows| && Flatten(batches) + pending == rows[..retrieved] && Sized(batches)
    requires 0 < |pending| < 2 * MaxItemsPerBatch
    ensures Flatten(batches + [pending]) + [] == rows[..retrieved] && Sized(batches + [pending])
  {
    FlattenSnoc(batches, pending);
  }

  lemma PrefixOfPrefix<T>(rows: seq<T>, a: nat, b: nat)
    requires a <= b <= |rows|
    ensures IsPrefix(rows[..a], rows[..b])
  {
  }

  /** After a page is read and before the pending items are processed:
      as `Healthy`, except that up to two pages may be pending. */
  ghost predicate Read(cfg: Config, rows: seq<Item>, clock: nat -> string, callOk: nat -> bool,
                       numberToArchive: nat, p: Progress)
  {
    && p.retrieved <= numberToArchive && p.retrieved <= |rows|
    && Flatten(p.batches) + p.pending == rows[..p.retrieved]
    && |p.pending| < 2 * MaxItemsPerBatch
    && Sized(p.batches)
    && Ran(cfg, p.batches, clock, callOk, p.log)
  }

  /** Reading a page of the rows that follow keeps the state in step. */
  lemma ReadPage(cfg: Config, rows: seq<Item>, clock: nat -> string, callOk: nat -> bool,
                 numberToArchive: nat, p: Progress, items: seq<Item>)
    requires Healthy(cfg, rows, clock, callOk, numberToArchive, p)
    requires p.retrieved + |items| <= |rows| && p.retrieved + |items| <= numberToArchive
    requires |items| <= MaxItemsPerBatch && items == rows[p.retrieved..p.retrieved + |items|]
    ensures Read(cfg, rows, clock, callOk, numberToArchive,
                 Progress(p.batches, p.log, p.pending + items, p.retrieved + |items|))
  {
    PageExtends(rows, p.retrieved, items, Flatten(p.batches), p.pending);
  }

  /** The flush step of the loop: the pending items are processed once they
      reach 1000 or the count to archive has been read. */
  method FlushIfDue(cfg: Config, rows: seq<Item>, clock: nat -> string, callOk: nat -> bool,
                    numberToArchive: nat, p: Progress)
    returns (p': Progress, ok: bool)
    requires Read(cfg, rows, clock, callOk, numberToArchive, p)
    requires |p.pending| >= MaxItemsPerBatch || p.retrieved >= numberToArchive ==> |p.pending| > 0
    ensures p'.retrieved == p.retrieved
    ensures |p.pending| >= MaxItemsPerBatch || p.retrieved >= numberToArchive ==>
      p'.batches == p.batches + [p.pending] && p'.pending == [] && |p'.log| > |p.log|
    ensures |p.pending| < MaxItemsPerBatch && p.retrieved < numberToArchive ==> p' == p && ok
    ensures ok ==> Healthy(cfg, rows, clock, callOk, numberToArchive, p')
    ensures !ok ==> Stopped(cfg, rows, clock, callOk, numberToArchive, p')
  {
    if |p.pending| < MaxItemsPerBatch && p.retrieved < numberToArchive {
      return p, true;
    }
    var log;
    log, ok := Flush(cfg, p.batches, p.pending, clock, callOk, p.log);
    FlushKeepsRows(rows, p.retrieved, p.batches, p.pending);
    p' := Progress(p.batches + [p.pending], log, [], p.retrieved);
    if !ok {
      PrefixOfPrefix(rows, p.retrieved, Min(numberToArchive, |rows|));
    }
  }

  /** One pass of the handler's do-while loop: fetch the next page, then
      the flush step. */
  method Iteration(cfg: Config, rows: seq<Item>, cap: nat, clock: nat -> string, callOk: nat -> bool,
                   numberToArchive: nat, p: Progress)
    returns (p': Progress, lastEvaluatedKey: Option<nat>, ok: bool)
    requires Healthy(cfg, rows, clock, callOk, numberToArchive, p) && p.retrieved < numberToArchive
    ensures ok ==> Healthy(cfg, rows, clock, callOk, numberToArchive, p')
    ensures ok && lastEvaluatedKey.Some? ==> lastEvaluatedKey.value == p'.retrieved > p.retrieved
    ensures ok && lastEvaluatedKey.None? ==> p'.retrieved == |rows|
    ensures !ok ==> Stopped(cfg, rows, clock, callOk, numberToArchive, p')
  {
    var items;
    items, lastEvaluatedKey := FetchPage(rows, p.retrieved, numberToArchive, cap);
    ReadPage(cfg, rows, clock, callOk, numberToArchive, p, items);
    p', ok := FlushIfDue(cfg, rows, clock, callOk, numberToArchive,
                         Progress(p.batches, p.log, p.pending + items, p.retrieved + |items|));
  }

  /** The do-while loop: pages are read until the store reports no more
      rows or `numberToArchive` rows have been read. */
  method ReadAll(cfg: Config, rows: seq<Item>, cap: nat -> nat, clock: nat -> string, callOk: nat -> bool,
                 numberToArchive: nat)
    returns (p: Progress, ok: bool)
    requires 0 < numberToArchive
    ensures ok ==> Healthy(cfg, rows, clock, callOk, numberToArchive, p)
    ensures ok ==> p.retrieved == Min(numberToArchive, |rows|)
    ensures !ok ==> Stopped(cfg, rows, clock, callOk, numberToArchive, p)
  {
    p := Progress([], [], [], 0);
    var q: nat := 0;
    var more := true;
    while more
      invariant Healthy(cfg, rows, clock, callOk, numberToArchive, p)
      invariant more ==> p.retrieved < numberToArchive
      invariant !more ==> p.retrieved == Min(numberToArchive, |rows|)
      decreases (if more then 1 else 0) + numberToArchive - p.retrieved
    {
      var lastEvaluatedKey;
      p, lastEvaluatedKey, ok := Iteration(cfg, rows, cap(q), clock, callOk, numberToArchive, p);
      q := q + 1;
      if !ok {
        return;
      }
      more := lastEvaluatedKey.Some? && p.retrieved < numberToArchive;
    }
    ok := true;
  }

  /** After the loop: the items still pending, if any, are processed as a
      last batch. */
  method Finish(cfg: Config, rows: seq<Item>, clock: nat -> string, callOk: nat -> bool,
                numberToArchive: nat, p: Progress)
    returns (batches: seq<seq<Item>>, log: seq<Effect>, r: Result<(), Effect>)
    requires Healthy(cfg, rows, clock, callOk, numberToArchive, p)
    ensures Sized(batches)
    ensures |p.pending| == 0 ==> batches == p.batches && log == p.log && r.Ok?
    ensures |p.pending| > 0 ==> batches == p.batches + [p.pending] && |log| > |p.log|
    ensures r.Ok? ==> Flatten(batches) == rows[..p.retrieved] && Ran(cfg, batches, clock, callOk, log)
    ensures r.Err? ==> IsPrefix(Flatten(batches), rows[..p.retrieved])
    ensures r.Err? ==> FailedIn(cfg, batches, clock, callOk, log) && r.error == log[|log| - 1]
  {
    if |p.pending| == 0 {
      assert Flatten(p.batches) == Flatten(p.batches) + p.pending;
      return p.batches, p.log, Ok(());
    }
    var ok;
    log, ok := Flush(cfg, p.batches, p.pending, clock, callOk, p.log);
    FlushKeepsRows(rows, p.retrieved, p.batches, p.pending);
    batches := p.batches + [p.pending];
    if !ok {
      return batches, log, Err(log[|log| - 1]);
    }
    r := Ok(());
  }

  /** The archiving branch of `handler`: read, then flush what is left.
      Only the first `numberToArchive` rows are ever archived. */
  method Archive(cfg: Config, rows: seq<Item>, cap: nat -> nat, clock: nat -> string,
                 callOk: nat -> bool, numberToArchive: nat)
    returns (batches: seq<seq<Item>>, log: seq<Effect>, r: Result<(), Effect>)
    requires 0 < numberToArchive
    ensures Sized(batches)
    ensures r.Ok? ==> Flatten(batches) == rows[..Min(numberToArchive, |rows|)]
    ensures r.Err? ==> IsPrefix(Flatten(batches), rows[..Min(numberToArchive, |rows|)])
    ensures r.Ok? ==> Ran(cfg, batches, clock, callOk, log)
    ensures r.Err? ==> FailedIn(cfg, batches, clock, callOk, log) && r.error == log[|log| - 1]
  {
    var p, ok := ReadAll(cfg, rows, cap, clock, callOk, numberToArchive);
    if ok {
      batches, log, r := Finish(cfg, rows, clock, callOk, numberToArchive, p);
    } else {
      batches, log, r := p.batches, p.log, Err(p.log[|p.log| - 1]);
    }
  }

  /** `handler`. `count` is the `Count` of the first query (`undefined`
      counts as 0) and `cap(q)` the size cap of page query q. `batches` lists
      the batches processed, the last one possibly cut short by a failing
      call; `log` lists the bucket and delete calls made. */
  method Handler(cfg: Config, count: Option<nat>, rows: seq<Item>, cap: nat -> nat,
                 clock: nat -> string, callOk: nat -> bool)
    returns (batches: seq<seq<Item>>, log: seq<Effect>, r: Result<(), Effect>)
    ensures count.GetOr(0) <= ArchiveThreshold ==> batches == [] && log == [] && r.Ok?
    ensures Sized(batches)
    ensures count.GetOr(0) > ArchiveThreshold ==>
      var oldest := rows[..Min(count.GetOr(0) - ArchiveThreshold, |rows|)];
      && (r.Ok? ==> Flatten(batches) == oldest)
      && (r.Err? ==> IsPrefix(Flatten(batches), oldest))
    ensures r.Ok? ==> Ran(cfg, batches, clock, callOk, log)
    ensures r.Err? ==> FailedIn(cfg, batches, clock, callOk, log) && r.error == log[|log| - 1]
  {
    var itemCount := count.GetOr(0);
    if itemCount <= ArchiveThreshold {
      batches, log, r := [], [], Ok(());
    } else {
      batches, log, r := Archive(cfg, rows, cap, clock, callOk, itemCount - ArchiveThreshold);
    }
  }

  /** The count query: one `Select: "COUNT"` Query on the partition with no
      Limit (a Limit above the row count never fills a page). Its `Count`
      is the number of rows its single page reads under the size cap `cap`;
      its `LastEvaluatedKey` is not followed. */
  function CountQuery(rows: seq<Item>, cap: nat): (count: nat)
    ensures count <= |rows| && count <= Max(1, cap)
    ensures count == |rows| <==> |rows| <= Max(1, cap)
  {
    var page := QueryPage(rows, 0, |rows| + 1, cap);
    assert page.Ok?;
    |page.value.items|
  }

  /** `handler` as written, count query included: the count is the first
      count page's. A partition whose first count page is capped at or below
      100 000 rows is never archived, however many rows it holds. */
  method HandlerWithCountPage(cfg: Config, rows: seq<Item>, countCap: nat, cap: nat -> nat,
                              clock: nat -> string, callOk: nat -> bool)
    returns (batches: seq<seq<Item>>, log: seq<Effect>, r: Result<(), Effect>)
    ensures Max(1, countCap) <= ArchiveThreshold ==> batches == [] && log == [] && r.Ok?
    ensures |rows| <= Max(1, countCap) && |rows| > ArchiveThreshold && r.Ok? ==>
      Flatten(batches) == rows[..|rows| - ArchiveThreshold]
    ensures r.Ok? ==> Ran(cfg, batches, clock, callOk, log)
    ensures r.Err? ==> FailedIn(cfg, batches, clock, callOk, log) && r.error == log[|log| - 1]
  {
    batches, log, r := Handler(cfg, Some(CountQuery(rows, countCap)), rows, cap, clock, callOk);
  }

  /** The count the handler means: the partition's size, summed over count
      pages while each returns a `LastEvaluatedKey`; `cap(q)` is the size cap
      of count page q. */
  method CountAll(rows: seq<Item>, cap: nat -> nat) returns (count: nat, queries: nat)
    ensures count == |rows|
    ensures 1 <= queries <= Max(1, |rows|)
  {
    count, queries := 0, 0;
    var more := true;
    while more
      invariant count <= |rows|
      invariant queries == 0 ==> more && count == 0
      invariant more && queries > 0 ==> queries <= count < |rows|
      invariant !more ==> count == |rows| && 1 <= queries <= Max(1, |rows|)
      decreases |rows| - count + (if more then 1 else 0)
    {
      var page := QueryPage(rows, count, |rows| + 1, cap(queries)).value;
      count, queries := count + |page.items|, queries + 1;
      more := page.lastEvaluatedKey.Some?;
    }
  }

  /** `handler` with the count taken over the whole partition: exactly the
      rows beyond the newest 100 000 are archived, oldest first. */
  method HandlerCountingAll(cfg: Config, rows: seq<Item>, countCap: nat -> nat, cap: nat -> nat,
                            clock: nat -> string, callOk: nat -> bool)
    returns (batches: seq<seq<Item>>, log: seq<Effect>, r: Result<(), Effect>)
    ensures |rows| <= ArchiveThreshold ==> batches == [] && log == [] && r.Ok?
    ensures |rows| > ArchiveThreshold ==>
      var oldest := rows[..|rows| - ArchiveThreshold];
      && (r.Ok? ==> Flatten(batches) == oldest)
      && (r.Err? ==> IsPrefix(Flatten(batches), oldest))
    ensures r.Ok? ==> Ran(cfg, batches, clock, callOk, log)
    ensures r.Err? ==> FailedIn(cfg, batches, clock, callOk, log) && r.error == log[|log| - 1]
  {
    var count, _ := CountAll(rows, countCap);
    batches, log, r := Handler(cfg, Some(count), rows, cap, clock, callOk);
  }
}
