/** The tweets table as the archival Lambda's table helper sees it: the
    oldest rows of a partition read page by page and cut to a prefix, and
    archived items deleted by key in batch writes of at most 25.

    The partition is its rows in ascending `ID` order, `cap(q)` is the size
    cap of page query q, and `send(k)` is the outcome of the k-th batch write
    (`None` when it succeeds). */
module SocialMediaTable {
  import opened Common
  import opened KeyValueStore

  const PartitionAttribute: string := "PROVIDER#CRITERIA"
  const SortAttribute: string := "ID"

  /** `TweetItem`: partition key, ULID sort key and the stored tweet. */
  datatype TweetItem = TweetItem(partition: string, id: string, tweetId: string, text: string,
                                 authorId: string, createdAt: string,
                                 extraData: map<string, string>, timestamp: int)

  /** The key of one delete request: the item's partition key and ID, and
      no other attribute. */
  function ItemKey(item: TweetItem): (k: map<string, string>)
    ensures k.Keys == {PartitionAttribute, SortAttribute}
    ensures k[PartitionAttribute] == item.partition && k[SortAttribute] == item.id
  {
    map[PartitionAttribute := item.partition, SortAttribute := item.id]
  }

  /** A delete key names exactly one row: equal keys mean equal partition
      and ID. */
  lemma ItemKeyIdentifies(a: TweetItem, b: TweetItem)
    requires ItemKey(a) == ItemKey(b)
    ensures a.partition == b.partition && a.id == b.id
  {
    assert ItemKey(a)[PartitionAttribute] == ItemKey(b)[PartitionAttribute];
    assert ItemKey(a)[SortAttribute] == ItemKey(b)[SortAttribute];
  }

  /** The keys of `items`, in order. */
  function Keys(items: seq<TweetItem>): (ks: seq<map<string, string>>)
    ensures |ks| == |items|
    ensures forall i :: 0 <= i < |items| ==> ks[i] == ItemKey(items[i])
  {
    seq(|items|, i requires 0 <= i < |items| => ItemKey(items[i]))
  }

  lemma KeysAppend(a: seq<TweetItem>, b: seq<TweetItem>)
    ensures Keys(a + b) == Keys(a) + Keys(b)
  {
  }

  /** One query of the loop, from `ExclusiveStartKey` = the number of rows
      gathered so far: the page read is appended, and `more` says whether a
      `LastEvaluatedKey` came back (rows remain, or the page is full). */
  method QueryNext(rows: seq<TweetItem>, fetched: seq<TweetItem>, numToArchive: int, cap: nat)
    returns (fetched': seq<TweetItem>, more: bool, err: Option<StoreError>)
    requires |fetched| <= |rows| && fetched == rows[..|fetched|]
    ensures err.Some? <==> numToArchive < 1
    ensures err.Some? ==> err.value.ValidationError? && fetched' == fetched
    ensures err.None? ==>
      && |fetched| <= |fetched'| <= |rows| && fetched' == rows[..|fetched'|]
      && |fetched'| <= |fetched| + numToArchive
      && (|fetched| < |rows| ==> |fetched| < |fetched'|)
      && (more <==> |fetched'| < |rows| || |fetched'| == |fetched| + numToArchive)
      && (more ==> |fetched| < |fetched'|)
      && (!more ==> |fetched'| == |rows|)
  {
    var page := QueryPage(rows, |fetched|, numToArchive, cap);
    if page.Err? {
      return fetched, false, Some(page.error);
    }
    assert rows[..|fetched| + |page.value.items|] == fetched + page.value.items;
    fetched' := fetched + page.value.items;
    more := page.value.lastEvaluatedKey.Some?;
    err := None;
  }

  /** `queryExeceededItems`. The query is repeated from each
      `LastEvaluatedKey` until none is returned, every page with `Limit` =
      `numToArchive`; the rows gathered are then cut to the first
      `numToArchive`. `fetched` is what was gathered before the cut and
      `queries` the number of query calls. */
  method QueryExceededItems(rows: seq<TweetItem>, numToArchive: int, cap: nat -> nat)
    returns (fetched: seq<TweetItem>, queries: nat, r: Result<seq<TweetItem>, StoreError>)
    ensures r.Err? <==> numToArchive < 1
    ensures r.Err? ==> fetched == [] && queries == 1 && r.error.ValidationError?
    ensures r.Ok? ==> fetched == rows
    ensures r.Ok? ==> r.value == rows[..Min(numToArchive, |rows|)]
    ensures r.Ok? ==> |r.value| == Min(numToArchive, |rows|)
    ensures r.Ok? ==> 1 <= queries <= |rows| + 1 && |rows| <= queries * numToArchive
  {
    fetched := [];
    queries := 0;
    var more := true;
    while more
      invariant |fetched| <= |rows| && fetched == rows[..|fetched|]
      invariant queries == 0 ==> more && fetched == []
      invariant queries > 0 ==> numToArchive >= 1
      invariant more ==> queries <= |fetched|
      invariant !more ==> queries <= |fetched| + 1
      invariant |fetched| <= queries * numToArchive
      invariant !more ==> fetched == rows
      decreases (if more then 1 else 0) + |rows| - |fetched|
    {
      var err;
      MulSucc(queries, numToArchive);
      fetched, more, err := QueryNext(rows, fetched, numToArchive, cap(queries));
      queries := queries + 1;
      if err.Some? {
        return fetched, queries, Err(err.value);
      }
    }
    var items := fetched;
    if |items| > numToArchive {
      items := items[..numToArchive];
    }
    r := Ok(items);
  }

  /** One `batchWrite` of delete requests on `table`. */
  datatype BatchDelete = BatchDelete(table: string, keys: seq<map<string, string>>)

  function DeleteRequest(table: string, batch: seq<TweetItem>): (w: BatchDelete)
    ensures w.table == table && w.keys == Keys(batch)
  {
    BatchDelete(table, Keys(batch))
  }

  /** The batch writes `deleteArchivedItems` issues, one per slice
      `items[i..i + 25]`. */
  function DeleteBatches(table: string, items: seq<TweetItem>): (ws: seq<BatchDelete>)
    ensures |ws| == (|items| + 24) / 25
    ensures forall k :: 0 <= k < |ws| ==> ws[k] == DeleteRequest(table, Chunks(items, BatchWriteLimit)[k])
  {
    var chunks := Chunks(items, BatchWriteLimit);
    ChunkCount(items);
    seq(|chunks|, k requires 0 <= k < |chunks| => DeleteRequest(table, chunks[k]))
  }

  /** The keys of a sequence of batch writes, in order. */
  function AllKeys(ws: seq<BatchDelete>): seq<map<string, string>>
  {
    if |ws| == 0 then [] else ws[0].keys + AllKeys(ws[1..])
  }

  lemma {:induction false} AllKeysOfChunks(table: string, chunks: seq<seq<TweetItem>>)
    ensures AllKeys(seq(|chunks|, k requires 0 <= k < |chunks| => DeleteRequest(table, chunks[k])))
      == Keys(Flatten(chunks))
    decreases |chunks|
  {
    var ws := seq(|chunks|, k requires 0 <= k < |chunks| => DeleteRequest(table, chunks[k]));
    if |chunks| > 0 {
      var tail := seq(|chunks[1..]|, k requires 0 <= k < |chunks[1..]| => DeleteRequest(table, chunks[1..][k]));
      assert ws[1..] == tail;
      AllKeysOfChunks(table, chunks[1..]);
      KeysAppend(chunks[0], Flatten(chunks[1..]));
    }
  }

  /** The batch writes delete every item exactly once, in order, with at
      most 25 keys per write, and none for no items. */
  lemma DeletesCoverItems(table: string, items: seq<TweetItem>)
    ensures AllKeys(DeleteBatches(table, items)) == Keys(items)
    ensures forall w :: w in DeleteBatches(table, items) ==>
      w.table == table && 1 <= |w.keys| <= BatchWriteLimit
    ensures |items| == 0 <==> DeleteBatches(table, items) == []
  {
    var chunks := Chunks(items, BatchWriteLimit);
    assert DeleteBatches(table, items)
      == seq(|chunks|, k requires 0 <= k < |chunks| => DeleteRequest(table, chunks[k]));
    AllKeysOfChunks(table, chunks);
    forall w | w in DeleteBatches(table, items)
      ensures w.table == table && 1 <= |w.keys| <= BatchWriteLimit
    {
      var k :| 0 <= k < |DeleteBatches(table, items)| && DeleteBatches(table, items)[k] == w;
      assert 0 < |chunks[k]| <= BatchWriteLimit;
    }
  }

  /** `deleteArchivedItems`: the batch writes go out one at a time, each
      awaited; the first that throws ends the call with its error, and no
      later batch is sent. */
  method DeleteArchivedItems(table: string, items: seq<TweetItem>, send: nat -> Option<StoreError>)
    returns (sent: seq<BatchDelete>, r: Result<(), StoreError>)
    ensures var ws := DeleteBatches(table, items);
      && |sent| <= |ws| && sent == ws[..|sent|]
      && (r.Ok? <==> |sent| == |ws| && forall k :: 0 <= k < |sent| ==> send(k).None?)
      && (forall k :: 0 <= k < |sent| - 1 ==> send(k).None?)
      && (r.Err? ==> 1 <= |sent| && send(|sent| - 1) == Some(r.error))
    ensures |items| == 0 ==> sent == [] && r.Ok?
    ensures r.Ok? ==> AllKeys(sent) == Keys(items)
  {
    var ws := DeleteBatches(table, items);
    sent := [];
    var k := 0;
    while k < |ws|
      invariant 0 <= k <= |ws|
      invariant sent == ws[..k]
      invariant forall m :: 0 <= m < k ==> send(m).None?
    {
      sent := sent + [ws[k]];
      var outcome := send(k);
      if outcome.Some? {
        return sent, Err(outcome.value);
      }
      k := k + 1;
    }
    assert ws[..k] == ws;
    DeletesCoverItems(table, items);
    return sent, Ok(());
  }
}
