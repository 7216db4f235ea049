/** The key-value store as the archival code sees it: the rows of one
    partition in ascending sort-key order, read page by page with `Limit` and
    `ExclusiveStartKey`, and the outcome of a store call. A row's position in
    the ascending order stands for its key, so `LastEvaluatedKey` is the
    position of the next unread row. */
module KeyValueStore {
  import opened Common

  /** Errors a store call can raise. */
  datatype StoreError =
    | ValidationError(message: string)
    | ConditionalCheckFailed
    | ServiceError(name: string)

  /** One page of a Query response. */
  datatype Page<T> = Page(items: seq<T>, lastEvaluatedKey: Option<nat>)

  /** Number of rows a Query page returns: at most `limit`, at most the rows
      left, and at least one while rows are left (the store's size cap `cap`,
      which stands for its 1 MB response limit, never yields an empty page). */
  function PageLength(remaining: nat, limit: nat, cap: nat): (n: nat)
    ensures n <= limit && n <= remaining
    ensures remaining > 0 && limit > 0 ==> n >= 1
  {
    Min(limit, Min(remaining, Max(1, cap)))
  }

  /** A Query with `Limit` = `limit` starting at row `start` of the ascending
      partition `rows`. A `Limit` below 1 is rejected by the store. The
      response carries a `LastEvaluatedKey` when rows remain after the page,
      and also when the page stopped at `Limit`, even on the partition's last
      row; only its absence means the partition is exhausted. */
  function QueryPage<T>(rows: seq<T>, start: nat, limit: int, cap: nat): (r: Result<Page<T>, StoreError>)
    ensures r.Err? <==> limit < 1
    ensures r.Ok? ==>
      && |r.value.items| <= limit
      && (start < |rows| ==>
            && 1 <= |r.value.items|
            && start + |r.value.items| <= |rows|
            && r.value.items == rows[start..start + |r.value.items|])
      && (start >= |rows| ==> r.value.items == [])
      && (r.value.lastEvaluatedKey.Some? <==> start + |r.value.items| < |rows| || |r.value.items| == limit)
      && (r.value.lastEvaluatedKey.None? ==> start + |r.value.items| >= |rows|)
      && (r.value.lastEvaluatedKey.Some? ==>
            r.value.lastEvaluatedKey.value == start + |r.value.items| && 1 <= |r.value.items|)
  {
    if limit < 1 then Err(ValidationError("Limit must be greater than or equal to 1"))
    else if start >= |rows| then Ok(Page([], None))
    else
      var n := PageLength(|rows| - start, limit, cap);
      Ok(Page(rows[start..start + n], if start + n < |rows| || n == limit then Some(start + n) else None))
  }

  /** A one-row partition queried with Limit 1: the first page is full and
      so carries a `LastEvaluatedKey` although no row remains; the query
      from it returns an empty page without one. */
  lemma FullLastPageHasKey<T>(x: T, cap: nat)
    ensures QueryPage([x], 0, 1, cap) == Ok(Page([x], Some(1)))
    ensures QueryPage([x], 1, 1, cap) == Ok(Page([], None))
  {
    assert [x][0..1] == [x];
  }

  /** Sends `calls` one at a time, awaiting each, until one throws:
      `callOk(base + k)` is the outcome of the k-th call. Returns how many
      calls were sent; when one failed it is the last one sent. */
  method Perform<C>(calls: seq<C>, callOk: nat -> bool, base: nat) returns (n: nat, ok: bool)
    ensures n <= |calls|
    ensures forall k :: base <= k < base + n - 1 ==> callOk(k)
    ensures ok ==> n == |calls| && forall k :: base <= k < base + n ==> callOk(k)
    ensures !ok ==> 1 <= n && !callOk(base + n - 1)
  {
    n := 0;
    while n < |calls|
      invariant n <= |calls|
      invariant forall k :: base <= k < base + n ==> callOk(k)
    {
      n := n + 1;
      if !callOk(base + n - 1) {
        return n, false;
      }
    }
    return n, true;
  }
}
