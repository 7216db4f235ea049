/** The generic table wrapper of the archival Lambda: save, read, update and
    delete on a table chosen per call or per instance, with the key built by
    merging the partition-key and sort-key objects and the update built as a
    `SET` expression over numbered placeholders.

    Attribute values are of an abstract type `V`; the store's answer to the
    one call a method makes is the parameter `outcome`. */
module Database {
  import opened Common
  import opened KeyValueStore

  type Attributes<V> = map<string, V>

  /** What a wrapper call throws. */
  datatype DbError = ConfigError(operation: string) | Store(error: StoreError)

  /** The request handed to the store. */
  datatype Request<V> =
    | Put(table: string, item: Attributes<V>)
    | Get(table: string, key: Attributes<V>)
    | Update(table: string, key: Attributes<V>, returnValues: string, expression: string,
             names: map<string, string>, values: Attributes<V>)
    | Delete(table: string, key: Attributes<V>)

  /** A wrapper call: the request sent, if any, and what it returns or throws. */
  datatype Call<V, R> = Call(request: Option<Request<V>>, result: Result<R, DbError>)

  /** `table || this.table`: the explicit table unless it is absent or empty. */
  function ResolveTable(table: Option<string>, instance: string): (t: string)
    ensures table.Some? && table.value != "" ==> t == table.value
    ensures table.None? || table.value == "" ==> t == instance
    ensures t == "" <==> table.GetOr("") == "" && instance == ""
  {
    if table.Some? && table.value != "" then table.value else instance
  }

  /** `{...pk, ...sk}`: every attribute of either, the sort key's value
      winning on a shared name. */
  function MergeKey<V>(pk: Attributes<V>, sk: Attributes<V>): (k: Attributes<V>)
    ensures k.Keys == pk.Keys + sk.Keys
    ensures forall a :: a in sk ==> k[a] == sk[a]
    ensures forall a :: a in pk && a !in sk ==> k[a] == pk[a]
  {
    pk + sk
  }

  /** Without a sort key (`sk = {}`) the key is the partition key as given. */
  lemma DefaultSortKey<V>(pk: Attributes<V>)
    ensures MergeKey(pk, map[]) == pk
  {
  }

  /** The shared shape of the four wrappers: a missing table name throws a
      ConfigError before any store call; otherwise the one request is sent
      and the store's answer is returned, or its error rethrown unchanged. */
  function Send<V, R>(operation: string, tableName: string, request: Request<V>,
                      outcome: Result<R, StoreError>): (c: Call<V, R>)
    ensures tableName == "" ==> c == Call(None, Err(ConfigError(operation)))
    ensures tableName != "" ==> c.request == Some(request)
    ensures tableName != "" && outcome.Ok? ==> c.result == Ok(outcome.value)
    ensures tableName != "" && outcome.Err? ==> c.result == Err(Store(outcome.error))
  {
    if tableName == "" then Call(None, Err(ConfigError(operation)))
    else if outcome.Ok? then Call(Some(request), Ok(outcome.value))
    else Call(Some(request), Err(Store(outcome.error)))
  }

  /** `save`: the item is written as given. */
  function Save<V, R>(instance: string, item: Attributes<V>, table: Option<string>,
                      outcome: Result<R, StoreError>): (c: Call<V, R>)
    ensures var t := ResolveTable(table, instance);
      && (t == "" ==> c.request.None? && c.result == Err(ConfigError("save")))
      && (t != "" ==> c.request == Some(Put(t, item)))
      && (t != "" && outcome.Ok? ==> c.result == Ok(outcome.value))
      && (t != "" && outcome.Err? ==> c.result == Err(Store(outcome.error)))
  {
    var t := ResolveTable(table, instance);
    Send("save", t, Put(t, item), outcome)
  }

  /** `read`: a get by the merged key. */
  function Read<V, R>(instance: string, pk: Attributes<V>, sk: Attributes<V>, table: Option<string>,
                      outcome: Result<R, StoreError>): (c: Call<V, R>)
    ensures var t := ResolveTable(table, instance);
      && (t == "" ==> c.request.None? && c.result == Err(ConfigError("read")))
      && (t != "" ==> c.request == Some(Get(t, MergeKey(pk, sk))))
      && (t != "" && outcome.Ok? ==> c.result == Ok(outcome.value))
      && (t != "" && outcome.Err? ==> c.result == Err(Store(outcome.error)))
  {
    var t := ResolveTable(table, instance);
    Send("read", t, Get(t, MergeKey(pk, sk)), outcome)
  }

  /** `delete`: a delete by the merged key. */
  function Remove<V, R>(instance: string, pk: Attributes<V>, sk: Attributes<V>, table: Option<string>,
                        outcome: Result<R, StoreError>): (c: Call<V, R>)
    ensures var t := ResolveTable(table, instance);
      && (t == "" ==> c.request.None? && c.result == Err(ConfigError("delete")))
      && (t != "" ==> c.request == Some(Delete(t, MergeKey(pk, sk))))
      && (t != "" && outcome.Ok? ==> c.result == Ok(outcome.value))
      && (t != "" && outcome.Err? ==> c.result == Err(Store(outcome.error)))
  {
    var t := ResolveTable(table, instance);
    Send("delete", t, Delete(t, MergeKey(pk, sk)), outcome)
  }

  /** `#field{i}`. */
  function FieldName(i: nat): string
  {
    "#field" + NatToString(i)
  }

  /** `:value{i}`. */
  function ValueName(i: nat): string
  {
    ":value" + NatToString(i)
  }

  /** Distinct indices give distinct placeholders, and a field placeholder
      is never a value placeholder. */
  lemma PlaceholdersDistinct(i: nat, j: nat)
    ensures FieldName(i) == FieldName(j) ==> i == j
    ensures ValueName(i) == ValueName(j) ==> i == j
    ensures FieldName(i) != ValueName(j)
  {
    if FieldName(i) == FieldName(j) {
      PrefixCancel("#field", NatToString(i), NatToString(j));
      NatToStringInjective(i, j);
    }
    if ValueName(i) == ValueName(j) {
      PrefixCancel(":value", NatToString(i), NatToString(j));
      NatToStringInjective(i, j);
    }
    assert FieldName(i)[0] != ValueName(j)[0];
  }

  /** `#field{i} = :value{i}`. */
  function Clause(i: nat): string
  {
    FieldName(i) + " = " + ValueName(i)
  }

  /** The `UpdateExpression` for `n` keys: `SET ` and the clauses for
      0..n-1 joined by `, `. */
  function UpdateExpression(n: nat): (e: string)
    ensures "SET " <= e
    ensures n > 0 ==> "SET " + Clause(0) <= e
  {
    "SET " + Join(Clauses(n), ", ")
  }

  /** The clauses for placeholders 0..n-1. */
  function Clauses(n: nat): (cs: seq<string>)
    ensures |cs| == n && forall i :: 0 <= i < n ==> cs[i] == Clause(i)
  {
    seq(n, i requires 0 <= i < n => Clause(i))
  }

  /** An empty update item gives the bare `SET `, with no clause. */
  lemma EmptyUpdateExpression()
    ensures UpdateExpression(0) == "SET "
  {
    assert Clauses(0) == [];
  }

  /** One key gives the single clause for placeholder 0. */
  lemma SingleUpdateExpression()
    ensures UpdateExpression(1) == "SET #field0 = :value0"
  {
    assert NatToString(0) == "0";
    assert Clause(0) == "#field0 = :value0";
    assert Clauses(1) == [Clause(0)];
  }

  /** Each further key appends `, ` and its own clause, so the clauses come
      in key order. */
  lemma UpdateExpressionStep(n: nat)
    requires n >= 1
    ensures UpdateExpression(n + 1) == UpdateExpression(n) + ", " + Clause(n)
  {
    assert Clauses(n + 1)[..n] == Clauses(n);
  }

  /** `Object.fromEntries`: later entries win on a shared name. */
  function FromEntries<T>(entries: seq<(string, T)>): (m: map<string, T>)
    ensures forall i :: 0 <= i < |entries| ==> entries[i].0 in m
    ensures forall k :: k in m ==> exists i :: 0 <= i < |entries| && entries[i].0 == k
  {
    if |entries| == 0 then map[]
    else
      var last := entries[|entries| - 1];
      var m := FromEntries(entries[..|entries| - 1]);
      assert forall i :: 0 <= i < |entries| - 1 ==> entries[..|entries| - 1][i] == entries[i];
      m[last.0 := last.1]
  }

  /** An entry whose name no later entry repeats gives that name's value. */
  lemma {:induction false} FromEntriesLookup<T>(entries: seq<(string, T)>, i: nat)
    requires i < |entries|
    requires forall j :: i < j < |entries| ==> entries[j].0 != entries[i].0
    ensures FromEntries(entries)[entries[i].0] == entries[i].1
    decreases |entries|
  {
    if i < |entries| - 1 {
      var init := entries[..|entries| - 1];
      assert init[i] == entries[i];
      forall j | i < j < |init| ensures init[j].0 != init[i].0 {
        assert init[j] == entries[j];
      }
      FromEntriesLookup(init, i);
    }
  }

  /** Names paired with values, position by position. */
  function Zip<T>(names: seq<string>, vals: seq<T>): (z: seq<(string, T)>)
    requires |names| == |vals|
    ensures |z| == |names|
    ensures forall i :: 0 <= i < |z| ==> z[i] == (names[i], vals[i])
  {
    seq(|names|, i requires 0 <= i < |names| => (names[i], vals[i]))
  }

  /** Entries with pairwise distinct names give a map from exactly those
      names to their values. */
  lemma FromZip<T>(names: seq<string>, vals: seq<T>)
    requires |names| == |vals|
    requires forall i, j :: 0 <= i < j < |names| ==> names[i] != names[j]
    ensures forall n :: n in FromEntries(Zip(names, vals)) <==> n in names
    ensures forall i :: 0 <= i < |names| ==> FromEntries(Zip(names, vals))[names[i]] == vals[i]
  {
    var z := Zip(names, vals);
    forall i | 0 <= i < |names| ensures FromEntries(z)[names[i]] == vals[i] {
      FromEntriesLookup(z, i);
    }
    forall n | n in FromEntries(z) ensures n in names {
      var i :| 0 <= i < |z| && z[i].0 == n;
    }
  }

  /** `#field0`, ..., `#field{n-1}`. */
  function FieldNames(n: nat): (ns: seq<string>)
    ensures |ns| == n && forall i :: 0 <= i < n ==> ns[i] == FieldName(i)
  {
    seq(n, i requires 0 <= i < n => FieldName(i))
  }

  /** `:value0`, ..., `:value{n-1}`. */
  function ValueNames(n: nat): (ns: seq<string>)
    ensures |ns| == n && forall i :: 0 <= i < n ==> ns[i] == ValueName(i)
  {
    seq(n, i requires 0 <= i < n => ValueName(i))
  }

  /** `ExpressionAttributeNames`: `#field{i}` names the i-th key. */
  function Names(keys: seq<string>): map<string, string>
  {
    FromEntries(Zip(FieldNames(|keys|), keys))
  }

  /** The i-th key's value, for each key. */
  function ValuesOf<V>(keys: seq<string>, updateItem: Attributes<V>): (vs: seq<V>)
    requires forall k :: k in keys ==> k in updateItem
    ensures |vs| == |keys| && forall i :: 0 <= i < |keys| ==> vs[i] == updateItem[keys[i]]
  {
    seq(|keys|, i requires 0 <= i < |keys| => updateItem[keys[i]])
  }

  /** `ExpressionAttributeValues`: `:value{i}` holds the i-th key's value. */
  function Values<V>(keys: seq<string>, updateItem: Attributes<V>): map<string, V>
    requires forall k :: k in keys ==> k in updateItem
  {
    FromEntries(Zip(ValueNames(|keys|), ValuesOf(keys, updateItem)))
  }

  /** The field placeholders `Names` defines are exactly `#field0` ..
      `#field{n-1}`, and `#field{i}` resolves to the i-th key. */
  lemma NamesResolve(keys: seq<string>)
    ensures forall n :: n in Names(keys) <==> n in FieldNames(|keys|)
    ensures forall i :: 0 <= i < |keys| ==> FieldName(i) in Names(keys) && Names(keys)[FieldName(i)] == keys[i]
  {
    var ns := FieldNames(|keys|);
    forall i, j | 0 <= i < j < |ns| ensures ns[i] != ns[j] {
      PlaceholdersDistinct(i, j);
    }
    FromZip(ns, keys);
  }

  /** The value placeholders `Values` defines are exactly `:value0` ..
      `:value{n-1}`, and `:value{i}` resolves to the i-th key's value. */
  lemma ValuesResolve<V>(keys: seq<string>, updateItem: Attributes<V>)
    requires forall k :: k in keys ==> k in updateItem
    ensures forall n :: n in Values(keys, updateItem) <==> n in ValueNames(|keys|)
    ensures forall i :: 0 <= i < |keys| ==>
      ValueName(i) in Values(keys, updateItem) && Values(keys, updateItem)[ValueName(i)] == updateItem[keys[i]]
  {
    var ns := ValueNames(|keys|);
    forall i, j | 0 <= i < j < |ns| ensures ns[i] != ns[j] {
      PlaceholdersDistinct(i, j);
    }
    FromZip(ns, ValuesOf(keys, updateItem));
  }

  /** The request `update` builds for the keys of `updateItem` in
      `Object.keys` order. */
  function UpdateRequest<V>(table: string, pk: Attributes<V>, sk: Attributes<V>,
                            keys: seq<string>, updateItem: Attributes<V>): (q: Request<V>)
    requires forall k :: k in keys ==> k in updateItem
    ensures q.Update? && q.table == table && q.key == MergeKey(pk, sk) && q.returnValues == "ALL_NEW"
    ensures q.expression == UpdateExpression(|keys|)
    ensures forall n :: n in q.names <==> n in FieldNames(|keys|)
    ensures forall n :: n in q.values <==> n in ValueNames(|keys|)
    ensures forall i :: 0 <= i < |keys| ==>
      && FieldName(i) in q.names && q.names[FieldName(i)] == keys[i]
      && ValueName(i) in q.values && q.values[ValueName(i)] == updateItem[keys[i]]
  {
    NamesResolve(keys);
    ValuesResolve(keys, updateItem);
    Update(table, MergeKey(pk, sk), "ALL_NEW", UpdateExpression(|keys|), Names(keys), Values(keys, updateItem))
  }

  /** `update`. `keys` is `Object.keys(updateItem)`: every key of the item,
      each once, in the object's order. */
  function UpdateItem<V, R>(instance: string, pk: Attributes<V>, updateItem: Attributes<V>,
                            keys: seq<string>, sk: Attributes<V>, table: Option<string>,
                            outcome: Result<R, StoreError>): (c: Call<V, R>)
    requires forall k :: k in keys <==> k in updateItem
    ensures var t := ResolveTable(table, instance);
      && (t == "" ==> c.request.None? && c.result == Err(ConfigError("update")))
      && (t != "" ==> c.request == Some(UpdateRequest(t, pk, sk, keys, updateItem)))
      && (t != "" && outcome.Ok? ==> c.result == Ok(outcome.value))
      && (t != "" && outcome.Err? ==> c.result == Err(Store(outcome.error)))
  {
    var t := ResolveTable(table, instance);
    Send("update", t, UpdateRequest(t, pk, sk, keys, updateItem), outcome)
  }
}
