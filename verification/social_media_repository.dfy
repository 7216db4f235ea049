/** The write path into the key-value store: one PutRequest per record, keyed
    by provider and request id (partition key) and by criteria and record id
    (sort key), sent in batches of at most 25, one batch at a time. */
module SocialMediaRepository {
  import opened Common
  import opened SocialMediaData
  import opened KeyValueStore

  const Criteria: string := "CRITERIA"
  /** Written on every request; whether the store honours it inside a batch
      write is not modelled. */
  const InsertIfAbsent: string := "attribute_not_exists(SK)"

  /** `constructPK`: provider, '#', request id. */
  function ConstructPK(provider: string, requestId: string): (k: string)
    ensures |k| == |provider| + 1 + |requestId|
    ensures k[..|provider|] == provider && k[|provider|] == '#'
    ensures k[|provider| + 1..] == requestId
  {
    provider + "#" + requestId
  }

  /** `constructSK`: criteria, '#', record id. */
  function ConstructSK(criteria: string, id: string): (k: string)
    ensures |k| == |criteria| + 1 + |id|
    ensures k[..|criteria|] == criteria && k[|criteria|] == '#'
    ensures k[|criteria| + 1..] == id
  {
    criteria + "#" + id
  }

  /** Position of the first '#' at or after `from`, or `|s|` when none. */
  function HashIndex(s: string, from: nat): (i: nat)
    requires from <= |s|
    ensures from <= i <= |s|
    decreases |s| - from
  {
    if from == |s| || s[from] == '#' then from else HashIndex(s, from + 1)
  }

  lemma {:induction false} HashIndexOfPK(p: string, r: string, from: nat)
    requires from <= |p|
    requires forall k :: 0 <= k < |p| ==> p[k] != '#'
    ensures HashIndex(ConstructPK(p, r), from) == |p|
    decreases |p| - from
  {
    var key := ConstructPK(p, r);
    if from < |p| {
      assert key[from] == p[from];
      HashIndexOfPK(p, r, from + 1);
    }
  }

  /** A partition key gives back its provider and request id when the
      provider holds no '#'. */
  lemma PKInjective(p1: string, r1: string, p2: string, r2: string)
    requires forall k :: 0 <= k < |p1| ==> p1[k] != '#'
    requires forall k :: 0 <= k < |p2| ==> p2[k] != '#'
    requires ConstructPK(p1, r1) == ConstructPK(p2, r2)
    ensures p1 == p2 && r1 == r2
  {
    HashIndexOfPK(p1, r1, 0);
    HashIndexOfPK(p2, r2, 0);
  }

  /** Under the fixed criteria, two sort keys are equal only for equal ids. */
  lemma SKInjective(id1: string, id2: string)
    requires ConstructSK(Criteria, id1) == ConstructSK(Criteria, id2)
    ensures id1 == id2
  {
    assert id1 == ConstructSK(Criteria, id1)[|Criteria| + 1..];
  }

  /** One `PutRequest` of the batch write: the keys, then the record's own
      attributes, and the insert-if-absent condition. */
  datatype PutRequest = PutRequest(pk: string, sk: string, record: SocialMediaRecord, condition: string)

  function WriteRequest(data: SocialMediaRecord, requestId: string): (w: PutRequest)
    ensures w.record == data && w.condition == InsertIfAbsent
    ensures w.pk == ConstructPK(data.provider, requestId)
    ensures w.sk == ConstructSK(Criteria, TemplateText(data.id))
  {
    PutRequest(ConstructPK(data.provider, requestId), ConstructSK(Criteria, TemplateText(data.id)),
               data, InsertIfAbsent)
  }

  /** `dataArray.map(...)`: one request per record, in order, all under the
      same request id. */
  function WriteRequests(dataArray: seq<SocialMediaRecord>, requestId: string): (ws: seq<PutRequest>)
    ensures |ws| == |dataArray|
    ensures forall i :: 0 <= i < |ws| ==> ws[i] == WriteRequest(dataArray[i], requestId)
  {
    seq(|dataArray|, i requires 0 <= i < |dataArray| => WriteRequest(dataArray[i], requestId))
  }

  /** Every request of every batch carries the call's request id. */
  lemma BatchesShareRequestId(dataArray: seq<SocialMediaRecord>, requestId: string, sent: seq<seq<PutRequest>>)
    requires |sent| <= |Chunks(WriteRequests(dataArray, requestId), BatchWriteLimit)|
    requires sent == Chunks(WriteRequests(dataArray, requestId), BatchWriteLimit)[..|sent|]
    ensures forall b, w :: 0 <= b < |sent| && w in sent[b] ==>
      w.pk == ConstructPK(w.record.provider, requestId) && 1 <= |sent[b]| <= BatchWriteLimit
  {
    var batches := Chunks(WriteRequests(dataArray, requestId), BatchWriteLimit);
    forall b, w | 0 <= b < |sent| && w in sent[b]
      ensures w.pk == ConstructPK(w.record.provider, requestId) && 1 <= |sent[b]| <= BatchWriteLimit
    {
      assert sent[b] == batches[b];
      InFlatten(batches, b, w);
    }
  }

  /** An error the catch block rethrows: anything but a failed condition.
      A write that succeeded (`None`) throws nothing. */
  function Rethrown(outcome: Option<StoreError>): (b: bool)
    ensures outcome.None? ==> !b
    ensures outcome == Some(ConditionalCheckFailed) ==> !b
    ensures outcome.Some? && (outcome.value.ServiceError? || outcome.value.ValidationError?) ==> b
  {
    outcome.Some? && !outcome.value.ConditionalCheckFailed?
  }

  /** The first batch from `k` on, below `n`, whose write is rethrown. */
  function FirstRethrown(send: nat -> Option<StoreError>, k: nat, n: nat): (f: Option<nat>)
    ensures f.Some? ==> k <= f.value < n && Rethrown(send(f.value))
    ensures f.Some? ==> forall j :: k <= j < f.value ==> !Rethrown(send(j))
    ensures f.None? ==> forall j :: k <= j < n ==> !Rethrown(send(j))
    decreases n - k
  {
    if k >= n then None
    else if Rethrown(send(k)) then Some(k)
    else FirstRethrown(send, k + 1, n)
  }

  /** How many of `n` records `batchCreate` gets into the store: all of
      them when no batch write is rethrown, otherwise the whole batches
      before the rethrown one, which is never the full count. */
  function Delivered(n: nat, send: nat -> Option<StoreError>): (c: nat)
    ensures c <= n
    ensures c == n <==> FirstRethrown(send, 0, (n + 24) / 25).None?
    ensures FirstRethrown(send, 0, (n + 24) / 25).Some? ==>
      c == FirstRethrown(send, 0, (n + 24) / 25).value * BatchWriteLimit
  {
    match FirstRethrown(send, 0, (n + 24) / 25)
    case None => n
    case Some(f) => f * BatchWriteLimit
  }

  /** The requests of the batches written before the stopping point are
      those of the delivered records. */
  lemma DeliveredRequests(dataArray: seq<SocialMediaRecord>, requestId: string, send: nat -> Option<StoreError>)
    ensures var batches := Chunks(WriteRequests(dataArray, requestId), BatchWriteLimit);
      var f := FirstRethrown(send, 0, |batches|);
      && (f.None? ==> Flatten(batches) == WriteRequests(dataArray, requestId)[..Delivered(|dataArray|, send)])
      && (f.Some? ==> Flatten(batches[..f.value]) == WriteRequests(dataArray, requestId)[..Delivered(|dataArray|, send)])
  {
    var ws := WriteRequests(dataArray, requestId);
    var batches := Chunks(ws, BatchWriteLimit);
    ChunkCount(ws);
    var f := FirstRethrown(send, 0, |batches|);
    if f.Some? {
      ChunksPrefix(ws, BatchWriteLimit, f.value);
    } else {
      assert ws[..|ws|] == ws;
    }
  }

  /** `batchCreate`. `requestId` stands for the one `ulid()` of the call and
      `send(k)` for the outcome of the k-th batch write (`None` when it
      succeeds). Batches go out in order; a failed condition is swallowed;
      any other error stops the call, leaving earlier batches written, and is
      passed on. `sent` lists the batches handed to the store. */
  method BatchCreate(dataArray: seq<SocialMediaRecord>, requestId: string, send: nat -> Option<StoreError>)
    returns (sent: seq<seq<PutRequest>>, r: Result<(), StoreError>)
    ensures var batches := Chunks(WriteRequests(dataArray, requestId), BatchWriteLimit);
      && |sent| <= |batches|
      && sent == batches[..|sent|]
      && (r.Ok? ==> |sent| == |batches|)
      && (|sent| < |batches| ==> r.Err?)
      && (forall k :: 0 <= k < |sent| - 1 ==> !Rethrown(send(k)))
      && (r.Ok? ==> forall k :: 0 <= k < |sent| ==> !Rethrown(send(k)))
      && (r.Err? ==> 1 <= |sent| && Rethrown(send(|sent| - 1)) && r.error == send(|sent| - 1).value)
    ensures |dataArray| == 0 ==> sent == [] && r.Ok?
    ensures r.Ok? <==> Delivered(|dataArray|, send) == |dataArray|
    ensures r.Ok? ==> Flatten(sent) == WriteRequests(dataArray, requestId)
    ensures r.Err? ==>
      Flatten(sent[..|sent| - 1]) == WriteRequests(dataArray, requestId)[..Delivered(|dataArray|, send)]
    ensures forall b, w :: 0 <= b < |sent| && w in sent[b] ==>
      w.pk == ConstructPK(w.record.provider, requestId) && 1 <= |sent[b]| <= BatchWriteLimit
  {
    var batches := Chunks(WriteRequests(dataArray, requestId), BatchWriteLimit);
    sent := [];
    var k := 0;
    while k < |batches|
      invariant 0 <= k <= |batches|
      invariant sent == batches[..k]
      invariant forall m :: 0 <= m < k ==> !Rethrown(send(m))
      invariant FirstRethrown(send, 0, |batches|) == FirstRethrown(send, k, |batches|)
    {
      sent := sent + [batches[k]];
      var outcome := send(k);
      if Rethrown(outcome) {
        BatchesShareRequestId(dataArray, requestId, sent);
        DeliveredRequests(dataArray, requestId, send);
        ChunkCount(WriteRequests(dataArray, requestId));
        assert sent[..|sent| - 1] == batches[..k];
        return sent, Err(outcome.value);
      }
      k := k + 1;
    }
    assert batches[..k] == batches;
    BatchesShareRequestId(dataArray, requestId, sent);
    DeliveredRequests(dataArray, requestId, send);
    ChunkCount(WriteRequests(dataArray, requestId));
    return sent, Ok(());
  }
}
