/** The item-count table: one record per partition (`PROVIDER#CRITERIA`)
    holding how many items the tweets table keeps for it. Searching for the
    partitions over a threshold is one Scan with a filter; subtracting
    archived items is one unguarded update. */
module ItemCountTable {
  import opened Common
  import opened KeyValueStore

  /** A record of the table: partition key and `ItemCount`. */
  datatype CountRecord = CountRecord(partition: string, itemCount: int)

  /** `#ItemCount > :threshold` applied to `records`, in scan order. */
  function Exceeding(records: seq<CountRecord>, threshold: int): (r: seq<CountRecord>)
    ensures |r| <= |records|
    ensures forall x :: x in r <==> x in records && x.itemCount > threshold
  {
    if |records| == 0 then []
    else
      var rest := Exceeding(records[1..], threshold);
      assert forall x :: x in records <==> x == records[0] || x in records[1..];
      if records[0].itemCount > threshold then [records[0]] + rest else rest
  }

  /** Filtering a concatenation filters each part: the filter keeps the scan
      order. */
  lemma {:induction false} ExceedingAppend(a: seq<CountRecord>, b: seq<CountRecord>, threshold: int)
    ensures Exceeding(a + b, threshold) == Exceeding(a, threshold) + Exceeding(b, threshold)
    decreases |a|
  {
    if |a| > 0 {
      assert (a + b)[1..] == a[1..] + b;
      ExceedingAppend(a[1..], b, threshold);
    } else {
      assert a + b == b;
    }
  }

  /** `searchExceedHashtags`: a single Scan call. The store reads at most
      `max(1, cap)` records of `table` (its 1 MB response limit), applies the
      filter to those, and reports where it stopped; the response is returned
      as is and its `LastEvaluatedKey` is never followed. */
  function SearchExceedHashtags(table: seq<CountRecord>, threshold: int, cap: nat): (r: Page<CountRecord>)
    ensures forall x :: x in r.items ==> x in table && x.itemCount > threshold
    ensures r.lastEvaluatedKey.None? ==>
      forall x :: x in table && x.itemCount > threshold ==> x in r.items
    ensures r.lastEvaluatedKey.Some? <==> Max(1, cap) < |table|
    ensures forall x :: x in r.items <==>
      x in table[..Min(|table|, Max(1, cap))] && x.itemCount > threshold
  {
    var scanned := Min(|table|, Max(1, cap));
    assert forall x :: x in table[..scanned] ==> x in table;
    if scanned < |table| then Page(Exceeding(table[..scanned], threshold), Some(scanned))
    else
      assert table[..scanned] == table;
      Page(Exceeding(table, threshold), None)
  }

  /** The boundary is strict: a record whose count equals the threshold is
      never returned. */
  lemma EqualIsExcluded(table: seq<CountRecord>, threshold: int, cap: nat, x: CountRecord)
    requires x.itemCount == threshold
    ensures x !in SearchExceedHashtags(table, threshold, cap).items
  {
  }

  /** Records beyond the first scanned page are never seen: a record that
      only occurs after the first `max(1, cap)` records is missing from the
      result whatever its count. */
  lemma LaterPagesAreMissed(table: seq<CountRecord>, threshold: int, cap: nat, x: CountRecord)
    requires Max(1, cap) < |table|
    requires x in table[Max(1, cap)..] && x !in table[..Max(1, cap)]
    ensures x in table && x !in SearchExceedHashtags(table, threshold, cap).items
  {
    assert table == table[..Max(1, cap)] + table[Max(1, cap)..];
  }

  /** An instance: the only record over the threshold is the second, and a
      page of one record misses it. */
  lemma OneRecordPageMissesSecond(threshold: int)
    ensures var table := [CountRecord("a", threshold), CountRecord("b", threshold + 1)];
      && SearchExceedHashtags(table, threshold, 1).items == []
      && CountRecord("b", threshold + 1) in table
  {
    var table := [CountRecord("a", threshold), CountRecord("b", threshold + 1)];
    assert table[..1] == [CountRecord("a", threshold)];
  }

  /** The table of counts keyed by partition. */
  type Counts = map<string, int>

  /** `subtractDeletedItems`: `SET #ItemCount = #ItemCount - :decrement` on
      the record keyed by `pk`. The store rejects the update when the record
      (and so the attribute) does not exist. */
  function SubtractDeletedItems(counts: Counts, pk: string, itemsAmount: int): (r: Result<Counts, StoreError>)
    ensures r.Err? <==> pk !in counts
    ensures r.Err? ==> r.error.ValidationError?
    ensures r.Ok? ==> r.value.Keys == counts.Keys
    ensures r.Ok? ==> r.value[pk] + itemsAmount == counts[pk]
    ensures r.Ok? ==> forall k :: k in counts && k != pk ==> r.value[k] == counts[k]
  {
    if pk !in counts then
      Err(ValidationError("The provided expression refers to an attribute that does not exist in the item"))
    else
      Ok(counts[pk := counts[pk] - itemsAmount])
  }

  /** Nothing bounds the result below: subtracting more than the count
      leaves a negative count. */
  lemma SubtractCanGoNegative(counts: Counts, pk: string, itemsAmount: int)
    requires pk in counts && itemsAmount > counts[pk]
    ensures SubtractDeletedItems(counts, pk, itemsAmount).Ok?
    ensures SubtractDeletedItems(counts, pk, itemsAmount).value[pk] < 0
  {
  }

  /** Subtracting `-n` undoes subtracting `n`. */
  lemma SubtractInverse(counts: Counts, pk: string, itemsAmount: int)
    requires pk in counts
    ensures var once := SubtractDeletedItems(counts, pk, itemsAmount);
      && once.Ok?
      && SubtractDeletedItems(once.value, pk, -itemsAmount) == Ok(counts)
  {
    var once := SubtractDeletedItems(counts, pk, itemsAmount).value;
    assert once[pk := once[pk] + itemsAmount] == counts;
  }

  /** Two subtractions on one partition are one subtraction of the sum. */
  lemma SubtractTwice(counts: Counts, pk: string, a: int, b: int)
    requires pk in counts
    ensures var once := SubtractDeletedItems(counts, pk, a);
      && once.Ok?
      && SubtractDeletedItems(once.value, pk, b) == SubtractDeletedItems(counts, pk, a + b)
  {
    var once := SubtractDeletedItems(counts, pk, a).value;
    assert once[pk := once[pk] - b] == counts[pk := counts[pk] - (a + b)];
  }
}
