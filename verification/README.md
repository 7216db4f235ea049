# Social media monitoring: a Dafny model of the ingestion and archival cores

The system ingests a live stream of tweets for a hashtag and stores them in a
key-value table. Separately, an archival Lambda moves a partition's oldest
items to an object bucket once a single count query on the partition reports
more than 100 000 items.
This project models the decision logic of both pipelines as pure functions
and small methods over sequences, strings and maps, and proves what that
logic promises.

- **Stream consumer** (`SocialMediaService`, `FrameExtractor`):
  - the backoff delay and the reconnect counter shared by every stream;
  - the 25-record buffer and the drain when a stream ends;
  - provider stamping;
  - the extractor that takes complete JSON arrays off the front of the text
    a stream has sent so far.
- **Write path** (`TwitterAdapter`, `SocialMediaRepository`): field mapping,
  partition and sort key construction, chunking into batch writes of at most
  25 requests, and the classification of per-batch errors.
- **Archival handler** (`ArchiveHandler`): the one-page count query, the
  threshold, oldest-first paging, archive-then-delete for every accumulated
  batch, and 25-key delete requests.
- **Table helpers of the archival Lambda** (`SocialMediaTable`,
  `ItemCountTable`, `Database`): full pagination with truncation, the strict
  count filter on a single scan, the unguarded subtraction, table-name
  resolution, key merging, and the `SET` expression builder.

The key-value store, the object bucket, the network, the clock and
`Math.random()` are parameters:

- a page query reads its rows from a sequence in ascending sort-key order,
  and a size cap decides how many it returns (`KeyValueStore.QueryPage`);
- the outcome of the k-th write or call is an oracle `nat -> ...`;
- the ISO timestamp of archive call b is `clock(b)`;
- `ulid()` is the `requestId` argument;
- JSON parsing is the oracle `parse: string -> Option<seq<T>>`.

Files, one module each (`common.dfy` and `key_value_store.dfy` are shared):
`common.dfy`, `key_value_store.dfy`, `social_media_data.dfy`,
`twitter_adapter.dfy`, `frame_extractor.dfy`,
`frame_extractor_scenarios.dfy`, `social_media_service.dfy`,
`social_media_repository.dfy`, `archive_handler.dfy`,
`social_media_table.dfy`, `item_count_table.dfy`, `database.dfy`.

## Model

| member | source | states |
|---|---|---|
| SocialMediaService.BackoffDelay | src/recent-tweets-monitor/src/social-media/social-media.service.ts:125-129 | the delay for attempt a with jitter j is 1000·2^a plus exactly j, so it lies in [1000·2^a, 1000·2^(a+1)) |
| SocialMediaService.BackoffIncreases | src/recent-tweets-monitor/src/social-media/social-media.service.ts:125-129 | whatever the jitters, the delay for attempt a+1 is strictly larger than the delay for attempt a |
| SocialMediaService.BackoffDelayAtHalf | src/recent-tweets-monitor/src/social-media/social-media.service.spec.ts:29-36 | with jitter 500, attempts 0 to 3 give 1500, 2500, 4500 and 8500 ms |
| SocialMediaService.BackoffDelayAtZero | src/recent-tweets-monitor/src/social-media/social-media.service.spec.ts:38-45 | with jitter 0, attempts 0 to 4 give delays in [1000·2^a, 1000·2^(a+1)) |
| SocialMediaService.ReconnectStep | src/recent-tweets-monitor/src/social-media/social-media.service.ts:55-59 | below the maximum, a reconnect sleeps for the pre-increment count. A successful call resets the counter to 0 and ends the run. A failed call continues the run from count+1 with the next call |
| SocialMediaService.Connect | src/recent-tweets-monitor/src/social-media/social-media.service.ts:20-59 | a connect run that attaches a stream leaves the counter at 0; one that does not leaves it at the larger of its start and 5; it makes at most the retries left |
| SocialMediaService.Reconnect | src/recent-tweets-monitor/src/social-media/social-media.service.ts:113-123 | a reconnect run makes no call exactly when the counter is at 5 or above; it ends connected with the counter at 0, or unconnected with the counter at the larger of its start and 5, after at most the retries left |
| SocialMediaService.ReconnectRounds | src/recent-tweets-monitor/src/social-media/social-media.service.ts:113-123 | retry m of a run sleeps for the delay of count attempts+m before connection call i+m; every retry but the last failed |
| SocialMediaService.ReconnectOutcome | src/recent-tweets-monitor/src/social-media/social-media.service.ts:113-123 | a run makes no call exactly when the counter is already at 5 or above. It attaches a stream exactly when its last call succeeded, and then the counter is 0. Otherwise it made exactly the retries left and the counter ends at 5 |
| SocialMediaService.CounterStaysBounded | src/recent-tweets-monitor/src/social-media/social-media.service.ts:11-12 | a counter that starts in 0..5 stays in 0..5 through connect and reconnect runs |
| SocialMediaService.AlwaysFailingGivesUpAfterFive | src/recent-tweets-monitor/src/social-media/social-media.service.ts:20-23 | from a fresh counter with a connection that always fails, there are exactly five sleeps, for attempts 0 to 4 in order. The service then gives up with the counter at 5 |
| SocialMediaService.SharedCounterExhausted | src/recent-tweets-monitor/src/social-media/social-media.service.ts:11 | the counter is one field for the whole service: after one stream has exhausted it, a later reconnect for any hashtag gives up with no sleep and no call |
| SocialMediaService.SuccessRestoresRetries | src/recent-tweets-monitor/src/social-media/social-media.service.ts:55 | whatever the counter was, a connect run that attaches a stream leaves it at 0. The next stream end then has all five retries: it makes 1 to 5 calls, and exactly 5 unless one connects |
| SocialMediaService.AddTweets | src/recent-tweets-monitor/src/social-media/social-media.service.ts:131-139 | one record per input record, each stamped with provider "twitter" |
| SocialMediaService.AddTweetsKeepsRecords | src/recent-tweets-monitor/src/social-media/social-media.service.ts:134-138 | dropping the provider again gives back exactly the input records, in order |
| SocialMediaService.AddTweetsCall | src/recent-tweets-monitor/src/social-media/social-media.service.ts:131-139 | the records handed to the store and those left unwritten together are exactly the stamped input, in order. The split is where `batchCreate` stops: after the batches before the first rethrown batch write, a multiple of 25, and the call resolves exactly when no batch write is rethrown |
| SocialMediaService.HandleDataEvent | src/recent-tweets-monitor/src/social-media/social-media.service.ts:62-79 | a value without `map` leaves the buffer untouched and writes nothing. Otherwise a write happens iff buffer plus adapted tweets reach the batch size, and it is the `addTweets` call on all of them. A resolved write empties the buffer; a rejected one, even after some batches were stored, leaves all of them buffered; with no write the buffer is the old buffer plus the new tweets |
| SocialMediaService.DataEventConserves | src/recent-tweets-monitor/src/social-media/social-media.service.ts:68-75 | with the intended handler, whatever each batch write returns, the records stored followed by the records still buffered are exactly the old buffer followed by the adapted tweets |
| SocialMediaService.DataEventBoundsBuffer | src/recent-tweets-monitor/src/social-media/social-media.service.ts:72-75 | after an event with no write or a resolved write, fewer than batch-size records stay buffered |
| SocialMediaService.RejectedFlushIsRewritten | src/recent-tweets-monitor/src/social-media/social-media.service.ts:72-78 | when a flush stores some batches and a later batch write is rethrown, the whole buffer stays, the stored records are its first records, stored plus buffered no longer equals what was received, and the next flush hands the stored records to `addTweets` again |
| SocialMediaService.RejectedFlushExample | src/recent-tweets-monitor/src/social-media/social-media.service.ts:72-78 | 24 buffered tweets and an event of 26, with the second batch write rethrown: 25 records stored and all 50 still buffered |
| SocialMediaService.HandleDataEventOnce | src/recent-tweets-monitor/src/social-media/social-media.service.ts:72-78 | the intended handler makes the same write as the code. Its buffer is always a suffix of the code's buffer, and the two agree unless the write is rejected after storing something |
| SocialMediaService.DataEvents | src/recent-tweets-monitor/src/social-media/social-media.service.ts:62-79 | a run of data events through the intended handler: with no events the buffer is unchanged and nothing is stored, and every record stored carries provider "twitter" |
| SocialMediaService.DataEventsConserve | src/recent-tweets-monitor/src/social-media/social-media.service.ts:62-79 | over any sequence of data events through the intended handler, whatever each batch write returns, everything stored followed by the final buffer is the starting buffer followed by every tweet received, in arrival order |
| SocialMediaService.HandleStreamEnd | src/recent-tweets-monitor/src/social-media/social-media.service.ts:100-111 | a write happens iff the buffer is non-empty; it is the `addTweets` call on the buffer, its records being exactly the buffer stamped "twitter". A reconnect run happens iff there was no write or the write resolved; it then starts from the shared counter and the buffer is emptied. A rejected write keeps the buffer and propagates |
| SocialMediaService.OnDataAsWired | src/recent-tweets-monitor/src/social-media/social-media.service.ts:35-40 | the handler as bound leaves the stream state unchanged and makes no write, for any chunk |
| SocialMediaService.AsWiredDropsEveryChunk | src/recent-tweets-monitor/src/social-media/social-media.service.ts:35-40 | with the handler bound as the service binds it, no chunk ever changes the stream state or causes a write |
| SocialMediaService.OnDataDeliversTweets | src/recent-tweets-monitor/src/social-media/social-media.service.ts:62-79 | the chunk is appended to the stream text, complete arrays are extracted, and their tweets are what the handler receives. Every tweet of those arrays ends up stored or buffered, exactly once and in order, and the text kept is what extraction could not consume |
| SocialMediaService.OnData | src/recent-tweets-monitor/src/social-media/social-media.service.ts:62-79 | the intended data handler makes the write the code's handler makes on the tweets extracted from the stream text plus the chunk |
| SocialMediaService.WiringLosesTweet | src/recent-tweets-monitor/src/social-media/social-media.service.ts:35-40 | for the one-tweet chunk "[{}]", the wired handler leaves the buffer empty while the intended one buffers the tweet |
| FrameExtractor.CloseFromBalance | src/recent-tweets-monitor/src/social-media/social-media.service.spec.ts:52-138 | the closing bracket found is the first position where the bracket depth returns to zero. When none is found, the depth stays positive to the end of the text |
| FrameExtractor.SpanIsBalanced | src/recent-tweets-monitor/src/social-media/social-media.service.spec.ts:52-138 | a span taken off the buffer is balanced and no proper prefix of it is |
| FrameExtractor.NextFrame | src/recent-tweets-monitor/src/social-media/social-media.service.spec.ts:52-138 | a frame found is a span of at least two characters inside the buffer, and the span parses |
| FrameExtractor.Extract | src/recent-tweets-monitor/src/social-media/social-media.service.spec.ts:52-138 | the buffer left is never longer than the buffer given |
| FrameExtractor.Feed | src/recent-tweets-monitor/src/social-media/social-media.service.spec.ts:121-137 | the buffer left after feeding chunks is never longer than the starting buffer plus all chunks |
| FrameExtractor.ExtractSound | src/recent-tweets-monitor/src/social-media/social-media.service.spec.ts:52-138 | the buffer is the concatenation of the consumed frames and the rest. Each frame is bracket-free skipped text plus one balanced span that parses. The items are the parsed elements in order. The rest contains no complete parsable array at its first '[' |
| FrameExtractor.NothingConsumedKeepsBuffer | src/recent-tweets-monitor/src/social-media/social-media.service.spec.ts:68-74 | when no frame is taken, the rest is the whole buffer and no item is returned |
| FrameExtractor.ExtractAppend | src/recent-tweets-monitor/src/social-media/social-media.service.spec.ts:121-137 | extracting from a buffer with more text appended equals extracting the buffer, then extracting again from its rest plus the new text |
| FrameExtractor.FeedIsBatch | src/recent-tweets-monitor/src/social-media/social-media.service.spec.ts:121-137 | feeding chunks one at a time and extracting after each yields the same items and rest as extracting once from the concatenation |
| FrameExtractor.ExtractIsStuck | src/recent-tweets-monitor/src/social-media/social-media.service.spec.ts:52-138 | extracting again from the rest consumes nothing |
| FrameExtractorScenarios.TwoArraysThenText | src/recent-tweets-monitor/src/social-media/social-media.service.spec.ts:53-66 | two complete arrays then text without '[': the elements of both in order, and the rest is exactly the text |
| FrameExtractorScenarios.ThreeArrays | src/recent-tweets-monitor/src/social-media/social-media.service.spec.ts:76-89 | three back-to-back arrays: all elements in order and an empty rest |
| FrameExtractorScenarios.UnclosedStops | src/recent-tweets-monitor/src/social-media/social-media.service.spec.ts:68-74 | an array that is never closed yields nothing and leaves the buffer unchanged |
| FrameExtractorScenarios.MalformedStops | src/recent-tweets-monitor/src/social-media/social-media.service.spec.ts:91-101 | a balanced span that does not parse stops extraction: earlier elements are returned, and the rest keeps the bad span and the valid array after it |
| FrameExtractorScenarios.EmptyBuffer | src/recent-tweets-monitor/src/social-media/social-media.service.spec.ts:103-110 | the empty buffer yields nothing and stays empty |
| FrameExtractorScenarios.CompletedLater | src/recent-tweets-monitor/src/social-media/social-media.service.spec.ts:121-137 | an unclosed array yields nothing; once its tail is appended, its elements are returned and the rest is the text after the closing bracket |
| FrameExtractorScenarios.TestTwoArraysThenIncomplete | src/recent-tweets-monitor/src/social-media/social-media.service.spec.ts:53-66 | the first test's buffer gives the two tweets and leaves "Incomplete" |
| FrameExtractorScenarios.TestIncompleteArray | src/recent-tweets-monitor/src/social-media/social-media.service.spec.ts:68-74 | the second test's buffer gives nothing and is left as it was |
| FrameExtractorScenarios.TestThreeArrays | src/recent-tweets-monitor/src/social-media/social-media.service.spec.ts:76-89 | the third test's buffer gives the three tweets and leaves "" |
| FrameExtractorScenarios.TestMalformed | src/recent-tweets-monitor/src/social-media/social-media.service.spec.ts:91-101 | the fourth test's buffer gives the first tweet and leaves the malformed span and what follows |
| FrameExtractorScenarios.TestIncompleteWithComma | src/recent-tweets-monitor/src/social-media/social-media.service.spec.ts:112-119 | a buffer ending in an unclosed array with a trailing comma gives nothing and is left as it was |
| FrameExtractorScenarios.TestMultipleCalls | src/recent-tweets-monitor/src/social-media/social-media.service.spec.ts:121-137 | the last test's two calls give nothing, then both tweets with "ExtraData" left |
| TwitterAdapter.ToSocialMediaData | src/recent-tweets-monitor/src/social-media/adapters/twitter.adapter.ts:4-16 | id, text, author_id and created_at are copied from the fields of the same name, and are absent exactly when the input lacks them. extraData is empty, and the result has no provider |
| TwitterAdapter.AdapterIgnoresOtherFields | src/recent-tweets-monitor/src/social-media/adapters/twitter.adapter.ts:5-15 | two tweets that agree on the four read fields adapt to the same record |
| TwitterAdapter.AdaptAll | src/recent-tweets-monitor/src/social-media/social-media.service.ts:68 | one adapted record per tweet, in order |
| SocialMediaRepository.ConstructPK | src/recent-tweets-monitor/src/social-media/social-media.repository.ts:24-26 | the key is the provider, then '#', then the request id |
| SocialMediaRepository.ConstructSK | src/recent-tweets-monitor/src/social-media/social-media.repository.ts:28-30 | the key is the criteria, then '#', then the id |
| SocialMediaRepository.PKInjective | src/recent-tweets-monitor/src/social-media/social-media.repository.ts:24-26 | for providers without '#', equal partition keys mean equal provider and equal request id |
| SocialMediaRepository.SKInjective | src/recent-tweets-monitor/src/social-media/social-media.repository.ts:38 | equal sort keys under "CRITERIA" mean equal ids |
| SocialMediaRepository.WriteRequest | src/recent-tweets-monitor/src/social-media/social-media.repository.ts:34-44 | each request carries the record, the insert-if-absent condition, PK provider#requestId and SK "CRITERIA#" + id |
| SocialMediaRepository.WriteRequests | src/recent-tweets-monitor/src/social-media/social-media.repository.ts:34-44 | one request per record, in input order, all with the call's one request id |
| SocialMediaRepository.BatchesShareRequestId | src/recent-tweets-monitor/src/social-media/social-media.repository.ts:33-52 | every request in every batch sent has a PK built from the one request id, and every batch has 1 to 25 requests |
| SocialMediaRepository.Rethrown | src/recent-tweets-monitor/src/social-media/social-media.repository.ts:63 | a batch write that succeeded or whose condition failed throws nothing; a service or validation error is rethrown |
| SocialMediaData.TemplateText | src/recent-tweets-monitor/src/social-media/social-media.repository.ts:38 | a missing id renders as "undefined", so a record without an id and one whose id is the text "undefined" get the same sort key; a present id renders as itself |
| SocialMediaRepository.FirstRethrown | src/recent-tweets-monitor/src/social-media/social-media.repository.ts:54-68 | the result is the first batch from k on whose error is rethrown, every earlier one being swallowed or successful; none means no batch in range rethrows |
| SocialMediaRepository.Delivered | src/recent-tweets-monitor/src/social-media/social-media.repository.ts:54-68 | the records written are all of them exactly when no batch write is rethrown, and otherwise 25 per batch before the rethrown one, fewer than the input |
| SocialMediaRepository.DeliveredRequests | src/recent-tweets-monitor/src/social-media/social-media.repository.ts:46-68 | the requests of the batches before the stopping point are exactly the requests of the delivered records |
| SocialMediaRepository.BatchCreate | src/recent-tweets-monitor/src/social-media/social-media.repository.ts:32-69 | the batches sent are a prefix of the 25-chunks of the requests, in order. A failed condition is swallowed and later batches still go out. Any other error stops the call at that batch and is passed on. An empty input sends nothing. The call succeeds iff every record is delivered; on success the batches concatenate to exactly the request list, and on failure the batches before the failing one hold exactly the delivered records' requests |
| Common.Chunks | src/recent-tweets-monitor/src/social-media/social-media.repository.ts:46-52 | chunks concatenate to the input. Every chunk has 1 to `size` elements, all but the last exactly `size`, and there are ceil(n/size) of them |
| Common.ChunkCount | src/archive-lambda/index.ts:148-150 | there are (n+24)/25 chunks of 25 |
| Common.ChunksUnique | src/recent-tweets-monitor/src/social-media/social-media.repository.ts:49-52 | any chunking with those properties is the one the loop builds |
| Common.Join | src/archive-lambda/db/index.ts:121-123 | no parts join to ""; otherwise the result starts with the first part and its length is the parts' lengths plus one separator between each two parts |
| Common.ChunksPrefix | src/recent-tweets-monitor/src/social-media/social-media.repository.ts:46-52 | the first f chunks, for f below the chunk count, hold exactly the first f·size elements |
| KeyValueStore.QueryPage | src/archive-lambda/index.ts:63-72 | a Limit below 1 is rejected. Otherwise the page is the next rows in ascending order: at most Limit of them, at least one while rows remain. A LastEvaluatedKey comes back exactly when rows remain after the page or the page holds Limit rows, and then points just past the page; its absence means the partition is exhausted |
| KeyValueStore.FullLastPageHasKey | src/archive-lambda/db/social-media-table.ts:33-41 | a one-row partition queried with Limit 1 gives a full page with a LastEvaluatedKey, then an empty page without one: two queries |
| KeyValueStore.Perform | src/archive-lambda/index.ts:168-174 | calls go out in order until one throws: all but the last made succeeded, and success means every call was made and succeeded |
| ArchiveHandler.ArchiveKey | src/archive-lambda/index.ts:126-127 | the object key is "archive/", then the partition value, "/", the timestamp and ".json" |
| ArchiveHandler.ArchiveKeyInjective | src/archive-lambda/index.ts:127 | within a partition, distinct timestamps give distinct object keys |
| ArchiveHandler.DeleteKeyOf | src/archive-lambda/index.ts:153-160 | a delete key holds exactly the PK and SK attributes, with the item's values (undefined when missing; SK wins when the two names coincide) |
| ArchiveHandler.DeletesCoverBatch | src/archive-lambda/index.ts:145-176 | (n+24)/25 delete calls on the table, each of 1 to 25 keys, whose keys in order are exactly the batch's keys |
| ArchiveHandler.DeleteCalls | src/archive-lambda/index.ts:145-176 | (n+24)/25 calls, each a batch delete on the table of 1 to 25 keys |
| ArchiveHandler.BatchScript | src/archive-lambda/index.ts:121-176 | a batch's calls start with the archive object whose body is the batch |
| ArchiveHandler.Script | src/archive-lambda/index.ts:84-107 | processing batches makes at least one call per batch, the first being the archive object of the first batch |
| ArchiveHandler.ArchiveBeforeDelete | src/archive-lambda/index.ts:90-94 | for each batch the archive object comes first, under the batch's key with the batch as body and JSON content type; every later call is a delete covering the batch in order |
| ArchiveHandler.ProcessBatch | src/archive-lambda/index.ts:121-176 | the calls of one batch go out in order until one throws, so an archive failure means no delete of that batch |
| ArchiveHandler.Flush | src/archive-lambda/index.ts:84-98 | from a run where every call so far succeeded, processing the pending list either extends it by exactly that batch's calls, all successful, or ends inside that batch at its first failing call |
| ArchiveHandler.FetchPage | src/archive-lambda/index.ts:53-72 | the page has at most min(1000, numberToArchive − retrieved) rows and is the next slice of the partition. A LastEvaluatedKey comes back exactly when rows remain or the page is full, pointing past the page; with none the partition is exhausted |
| ArchiveHandler.FlushIfDue | src/archive-lambda/index.ts:84-98 | with 1000 or more pending or everything retrieved, the pending list becomes one more batch, its calls are made and it is cleared; otherwise nothing changes. The items processed plus the pending list are still exactly the rows retrieved |
| ArchiveHandler.Iteration | src/archive-lambda/index.ts:52-98 | one pass of the loop keeps every retrieved row either processed once or pending, in order, with retrieved ≤ numberToArchive. A LastEvaluatedKey means progress, and its absence means the partition is exhausted |
| ArchiveHandler.ReadAll | src/archive-lambda/index.ts:52-99 | the loop ends with exactly min(numberToArchive, partition size) rows retrieved, all processed or pending in order, unless a call threw |
| ArchiveHandler.Archive | src/archive-lambda/index.ts:41-107 | on success the batches processed are exactly the oldest min(numberToArchive, partition size) rows in order, every call having succeeded; a failure leaves a prefix of them and is the first failing call |
| ArchiveHandler.Finish | src/archive-lambda/index.ts:101-107 | an empty remainder makes no call and succeeds; a non-empty one becomes one last batch and its calls are made. On success the batches are exactly the rows retrieved |
| ArchiveHandler.Handler | src/archive-lambda/index.ts:20-119 | a count of 100 000 or less causes no call. Otherwise, on success, the batches processed are exactly the oldest min(count − 100 000, partition size) rows, each once, in order, every batch under 2000 items. The calls made are the batches' archive-then-delete calls in order. A failure is the first failing call, ends the run inside the last batch, and is rethrown |
| ArchiveHandler.CountQuery | src/archive-lambda/index.ts:23-36 | the count is the size of the count query's one page: never above the partition size nor the page cap, and equal to the partition size exactly when the partition fits in that page |
| ArchiveHandler.HandlerWithCountPage | src/archive-lambda/index.ts:20-119 | with the count taken from one count page, a page cap of 100 000 rows or less means no call at all, whatever the partition size; a partition that fits in the count page loses exactly its oldest size − 100 000 rows |
| ArchiveHandler.CountAll | src/archive-lambda/index.ts:23-36 | following every count page's LastEvaluatedKey sums to exactly the partition size, in 1 to max(1, size) queries |
| ArchiveHandler.HandlerCountingAll | src/archive-lambda/index.ts:20-119 | with the whole partition counted, a partition of 100 000 rows or less causes no call; a larger one has exactly its oldest size − 100 000 rows archived and deleted in order on success, a prefix of them on failure |
| SocialMediaTable.ItemKey | src/archive-lambda/db/social-media-table.ts:57-64 | a delete key is exactly {PROVIDER#CRITERIA, ID} with the item's values |
| SocialMediaTable.ItemKeyIdentifies | src/archive-lambda/db/social-media-table.ts:57-64 | equal delete keys mean the same partition and ID |
| SocialMediaTable.QueryNext | src/archive-lambda/db/social-media-table.ts:24-40 | one query appends the next at most numToArchive rows; more pages are signalled exactly when rows remain or the page is full, and then the query made progress; none means every row is gathered |
| SocialMediaTable.DeleteRequest | src/archive-lambda/db/social-media-table.ts:57-70 | the batch write targets the table with the items' delete keys |
| SocialMediaTable.QueryExceededItems | src/archive-lambda/db/social-media-table.ts:19-49 | a Limit below 1 fails on the first query. Otherwise paging continues until no LastEvaluatedKey, so everything gathered is the whole partition in ascending order. The result is its first min(numToArchive, size) rows. The number of queries is between 1 and size + 1 (a full last page costs one more, empty, query) and at least size/numToArchive |
| SocialMediaTable.DeleteBatches | src/archive-lambda/db/social-media-table.ts:54-64 | one batch write per 25-slice of the items, (n+24)/25 of them |
| SocialMediaTable.DeletesCoverItems | src/archive-lambda/db/social-media-table.ts:51-74 | the batch writes' keys, in order, are exactly the items' keys; each write holds 1 to 25 keys on the table; no items means no writes |
| SocialMediaTable.DeleteArchivedItems | src/archive-lambda/db/social-media-table.ts:51-74 | the writes go out in order and the first error ends the call and is passed on, with no later write. On success every write was sent and every item deleted once |
| ItemCountTable.Exceeding | src/archive-lambda/db/item-count-table.ts:8 | a record is kept iff its count is strictly above the threshold |
| ItemCountTable.ExceedingAppend | src/archive-lambda/db/item-count-table.ts:8 | filtering keeps scan order: filtering a concatenation filters each part |
| ItemCountTable.SearchExceedHashtags | src/archive-lambda/db/item-count-table.ts:5-18 | the records returned are exactly those of the first scan page strictly above the threshold. Every qualifying record of the table is returned when no LastEvaluatedKey comes back, and one comes back exactly when the table exceeds the first scan page |
| ItemCountTable.EqualIsExcluded | src/archive-lambda/db/item-count-table.ts:8 | a record whose count equals the threshold is never returned |
| ItemCountTable.LaterPagesAreMissed | src/archive-lambda/db/item-count-table.ts:17 | for every table, a record that occurs only after the first scan page is not returned, whatever its count |
| ItemCountTable.OneRecordPageMissesSecond | src/archive-lambda/db/item-count-table.ts:17 | with a one-record page, a table whose only qualifying record is the second yields nothing |
| ItemCountTable.SubtractDeletedItems | src/archive-lambda/db/item-count-table.ts:20-37 | a missing partition is a validation error. Otherwise only that partition's count changes, and it becomes old − amount |
| ItemCountTable.SubtractCanGoNegative | src/archive-lambda/db/item-count-table.ts:27 | subtracting more than the count leaves a negative count |
| ItemCountTable.SubtractInverse | src/archive-lambda/db/item-count-table.ts:27 | subtracting −n undoes subtracting n |
| ItemCountTable.SubtractTwice | src/archive-lambda/db/item-count-table.ts:27 | two subtractions on one partition equal one subtraction of the sum |
| Database.ResolveTable | src/archive-lambda/db/index.ts:47 | the explicit table if present and non-empty, else the instance table; the result is empty exactly when both are |
| Database.MergeKey | src/archive-lambda/db/index.ts:86-89 | the key has the attributes of both objects, sk's value winning on a name clash |
| Database.DefaultSortKey | src/archive-lambda/db/index.ts:74 | with the default empty sort key the key is the partition key alone |
| Database.Send | src/archive-lambda/db/index.ts:46-71 | an empty table name gives a ConfigError and no request; otherwise the request is made and the store's result or error comes back unchanged |
| Database.Save | src/archive-lambda/db/index.ts:46-72 | an empty table name throws a ConfigError before any request. Otherwise the item is put as given on the resolved table, and the store's result or error comes back unchanged |
| Database.Read | src/archive-lambda/db/index.ts:74-100 | an empty table name throws a ConfigError before any request. Otherwise a get by the merged key, with the result or error unchanged |
| Database.Remove | src/archive-lambda/db/index.ts:144-169 | an empty table name throws a ConfigError before any request. Otherwise a delete by the merged key, with the result or error unchanged |
| Database.UpdateItem | src/archive-lambda/db/index.ts:102-142 | an empty table name throws a ConfigError before any request. Otherwise the update request built from the item's keys, with the result or error unchanged |
| Database.UpdateRequest | src/archive-lambda/db/index.ts:112-131 | the update targets the merged key, returns ALL_NEW and uses the expression for n keys. #field{i} resolves to the i-th key, :value{i} to that key's value, and no other placeholder is defined |
| Database.PlaceholdersDistinct | src/archive-lambda/db/index.ts:121-130 | distinct indexes give distinct placeholders, and a name placeholder never equals a value placeholder |
| Database.UpdateExpression | src/archive-lambda/db/index.ts:121-123 | the expression starts with "SET ", followed by the clause for placeholder 0 when there is a key |
| Database.EmptyUpdateExpression | src/archive-lambda/db/index.ts:121-123 | an item with no keys gives the bare expression "SET " |
| Database.SingleUpdateExpression | src/archive-lambda/db/index.ts:121-123 | one key gives "SET #field0 = :value0" |
| Database.UpdateExpressionStep | src/archive-lambda/db/index.ts:121-123 | each further key appends ", #field{n} = :value{n}" |
| Database.FromEntries | src/archive-lambda/db/index.ts:124-130 | the object's names are exactly the entries' names |
| Database.FromEntriesLookup | src/archive-lambda/db/index.ts:124-130 | an entry whose name no later entry repeats is what `Object.fromEntries` maps that name to |
| Database.NamesResolve | src/archive-lambda/db/index.ts:124-126 | the names map is defined exactly on #field0..#field{n-1} and sends #field{i} to the i-th key |
| Database.ValuesResolve | src/archive-lambda/db/index.ts:127-130 | the values map is defined exactly on :value0..:value{n-1} and sends :value{i} to the value of the i-th key |

## Left out

- Logging, metrics, the NestJS wiring and bootstrap, the HTTP controllers, the mock streaming server and the CDK stack carry no logic that this model states.
- The extractor `extractCompleteArraysFromBuffer` and its `dataBuffer` field do not appear in `social-media.service.ts`. `FrameExtractor.Extract` is the simplest definition that agrees with every test in `social-media.service.spec.ts`. Its choices: scanning starts at the first '[', brackets inside JSON strings count toward the depth, and text before a consumed span is dropped.
- JSON parsing (RFC 8259) is the oracle `parse`; `JSON.stringify` of an archive body is the item sequence itself.
- SocialMediaService.BackoffDelay: `Math.random() * 1000` is a real number, and the model takes the jitter in whole milliseconds (0..999).
- `setTimeout` sleeps are recorded as the delay of each retry, and the event emitter's interleavings are not modelled. Data events are handled one after another. The concurrency between ingestion and archival is out of scope.
- `ulid()` is the `requestId` argument, and its uniqueness across calls is not modelled.
- `new Date().toISOString()` is the `clock` parameter; distinct object keys are proved for distinct timestamps only.
- ArchiveHandler.Handler: its `count` is a parameter, the `Count` of the count query (`Count || 0` is `GetOr(0)`). That query is one unpaginated page: past the 1 MB page limit its `Count` covers only the first page, so a larger partition may never be archived. `HandlerWithCountPage` models the query as written; see "## Findings".
- A failure of the count query or of a page query (which the handler would rethrow) is not modelled: pages always come back, and only bucket and delete calls can fail.
- Whether the store honours `ConditionExpression` inside a batch write is not modelled; the condition is recorded on every request.
- Attribute values are abstract: strings for items and keys, a type parameter in `Database`. DynamoDB marshalling and `removeUndefinedValues` are not modelled.
- The archive handler's environment variables (table, PK and SK names, partition value, bucket) are the `Config` parameter. Whether the deployment sets them is not modelled.
- The partition attribute differs between the pipelines: the repository writes `PK`/`SK`, while the table helper reads `PROVIDER#CRITERIA`/`ID`. The two are kept as written.
- SocialMediaTable.QueryExceededItems: a store that returns a `LastEvaluatedKey` forever would loop forever. The model's store always makes progress, so that case is not represented.
- ItemCountTable.SubtractDeletedItems: an absent record is reported as a validation error. The exact message and error class of the store are not modelled.
- The code's choices, kept as written: the reconnect counter is one field of the service, not one per stream; batches are written one at a time; the count scan reads a single page and does not follow continuation; no count is updated after a write; the archive threshold is a strict "more than 100 000".
- KeyValueStore.QueryPage: when a page stops at the 1 MB response limit exactly on the partition's last row, the model returns no LastEvaluatedKey; DynamoDB may return one there, followed by an empty page. A page stopped by Limit is modelled with its LastEvaluatedKey.
- ItemCountTable.SearchExceedHashtags: the same 1 MB rule applies to the scan (which has no Limit): the model returns a LastEvaluatedKey exactly when records remain beyond the page.
- A batch write's unprocessed items are not modelled: a batch write either succeeds or throws as a whole.

## Findings

| source | as written | input that shows it | evidently intended | confidence | as-written member | corrected member |
|---|---|---|---|---|---|---|
| src/recent-tweets-monitor/src/social-media/social-media.service.ts:35-40 | `handleDataEvent` is bound with `counter` (0) in its `tweets` slot, and the emitted chunk lands in an extra argument it never reads; `0.map` throws and the catch at lines 76-78 swallows it | any data event, e.g. the chunk "[{}]" holding one tweet | the chunk is appended to the stream text, complete arrays are extracted, and their tweets reach the buffer and the store | not executed | SocialMediaService.WiringLosesTweet | SocialMediaService.OnDataDeliversTweets |
| src/recent-tweets-monitor/src/social-media/social-media.service.ts:72-78 | a rejected `addTweets` is swallowed and the buffer is kept whole; `batchCreate` (repository lines 54-68) has already stored the batches before the rethrown one, under this call's request id | 24 buffered tweets and an event of 26 tweets; the first batch write succeeds and the second throws a service error: 25 records are stored and all 50 stay buffered, so the next flush writes those 25 again under a new request id, which the insert-if-absent condition cannot catch | a rejected flush keeps buffered only the records it did not store, so every tweet is stored exactly once | not executed | SocialMediaService.RejectedFlushIsRewritten | SocialMediaService.DataEventsConserve |
| src/archive-lambda/index.ts:23-36 | the item count is the `Count` of one `Select: "COUNT"` query whose LastEvaluatedKey is never followed; DynamoDB stops a query page at 1 MB read, so the count covers only the first page | a partition of 150 000 items whose first 1 MB page holds 4 000 of them: the count is 4 000, and nothing is archived | the whole partition is counted, so the items beyond the newest 100 000 are archived | not executed | ArchiveHandler.HandlerWithCountPage | ArchiveHandler.HandlerCountingAll |
