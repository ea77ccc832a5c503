/** The two stores: a map updated in place, and a table updated in transactions. */
module KvStores {
  import opened Common
  import opened Text
  import opened Order
  import opened Json
  import opened KvData
  import opened KvSpec

  /** The keys of a batch, or the error of its first invalid entry. */
  method ValidateEntries(entries: seq<Entry>) returns (keys: seq<string>, error: Option<StoreError>)
    ensures error == ValidationError(entries, 0)
    ensures error.None? ==> |keys| == |entries| && forall i :: 0 <= i < |keys| ==> keys[i] == entries[i].key
  {
    keys, error := [], None;
    var seen: set<string> := {};
    for i := 0 to |entries|
      invariant |keys| == i && forall k :: 0 <= k < i ==> keys[k] == entries[k].key
      invariant forall k :: k in seen <==> k in keys
      invariant ValidationError(entries, 0) == ValidationError(entries, i)
    {
      var key := entries[i].key;
      if Blank(key) { return [], Some(KeyRequired); }
      if key in seen {
        assert Invalid(entries, i);
        return [], Some(DuplicateKey(key));
      }
      assert forall j :: 0 <= j < i ==> keys[j] in keys;
      assert !Invalid(entries, i);
      seen := seen + {key};
      keys := keys + [key];
    }
  }

  class MemoryStore {
    var entries: Store

    constructor ()
      ensures entries == map[]
    { entries := map[]; }

    method Get(key: string) returns (entry: Option<Entry>)
      ensures entry == if key in entries then Some(entries[key]) else None
    {
      entry := if key in entries then Some(entries[key]) else None;
    }

    method Upsert(entry: Entry) returns (previous: Option<Entry>)
      modifies this
      ensures entries == old(entries)[entry.key := entry]
      ensures previous == if entry.key in old(entries) then Some(old(entries)[entry.key]) else None
    {
      previous := Get(entry.key);
      entries := entries[entry.key := entry];
    }

    method Create(entry: Entry) returns (ok: bool)
      modifies this
      ensures ok == (entry.key !in old(entries))
      ensures entries == if ok then old(entries)[entry.key := entry] else old(entries)
    {
      if entry.key in entries { return false; }
      entries := entries[entry.key := entry];
      return true;
    }

    method Delete(key: string) returns (previous: Option<Entry>)
      modifies this
      ensures entries == old(entries) - {key}
      ensures previous == if key in old(entries) then Some(old(entries)[key]) else None
    {
      previous := Get(key);
      if previous.Some? { entries := entries - {key}; }
    }

    method List(prefix: string, limit: int) returns (out: seq<Entry>)
      ensures out == Listing(entries, prefix, limit)
    {
      var keys: seq<string> := [];
      var todo := entries.Keys;
      while todo != {}
        invariant todo <= entries.Keys
        invariant forall k :: k in keys <==> k in entries.Keys - todo && HasPrefix(k, prefix)
        invariant Distinct(keys)
        decreases todo
      {
        var key :| key in todo;
        if HasPrefix(key, prefix) { keys := keys + [key]; }
        todo := todo - {key};
      }
      StringsOrdered();
      keys := Sort(Less, keys);
      AscendingUnique(Less, keys, SortedKeys(set k <- entries | HasPrefix(k, prefix)));
      out := Entries(entries, keys, limit);
    }

    /** Checks the whole batch first, then writes it entry by entry. */
    method BatchUpsert(batch: seq<Entry>, mode: string) returns (r: Batch)
      modifies this
      ensures (entries, r) == KvSpec.BatchUpsert(old(entries), batch, mode)
    {
      var keys, error := ValidateEntries(batch);
      if error.Some? { return Rejected(error.value); }
      var created := 0;
      for i := 0 to |keys|
        invariant created == NewKeys(entries, batch[..i])
        invariant mode == "create" ==> TakenKey(entries, batch, 0) == TakenKey(entries, batch, i)
      {
        var exists_ := keys[i] in entries;
        if mode == "create" && exists_ { return Rejected(KeyExists(keys[i])); }
        assert batch[..i + 1][..i] == batch[..i];
        if !exists_ { created := created + 1; }
      }
      assert batch[..|batch|] == batch;
      for i := 0 to |batch|
        invariant entries == Put(old(entries), batch[..i])
      {
        assert batch[..i + 1][..i] == batch[..i];
        entries := entries[batch[i].key := batch[i]];
      }
      return Stored(|batch|, created);
    }

    method ReplaceAll(batch: seq<Entry>, merge: bool) returns (n: nat)
      modifies this
      ensures entries == KvSpec.ReplaceAll(old(entries), batch, merge) && n == |batch|
    {
      if !merge { entries := map[]; }
      ghost var base := entries;
      for i := 0 to |batch|
        invariant entries == Put(base, batch[..i])
      {
        assert batch[..i + 1][..i] == batch[..i];
        entries := entries[batch[i].key := batch[i]];
      }
      assert batch[..|batch|] == batch;
      return |batch|;
    }
  }

  // ---------------------------------------------------------------- the table

  // One table row; the key is the primary key.
  datatype Row = Row(value: string, metadataJson: Json, updatedAt: string)

  type Table = map<string, Row>

  predicate Decodable(t: Table) { forall k <- t :: DecodeMetadata(t[k].metadataJson).Some? }

  function RowOf(e: Entry): Row { Row(e.value, EncodeMetadata(e.metadata), e.updatedAt) }

  /** The entries that a table holds. */
  function Contents(t: Table): (m: Store)
    requires Decodable(t)
    ensures m.Keys == t.Keys
  {
    map k <- t :: Entry(k, t[k].value, DecodeMetadata(t[k].metadataJson).value, t[k].updatedAt)
  }

  lemma RowHoldsEntry(t: Table, e: Entry)
    requires Decodable(t)
    ensures Decodable(t[e.key := RowOf(e)])
    ensures Contents(t[e.key := RowOf(e)]) == Contents(t)[e.key := e]
  {
    hide DecodeMetadata, EncodeMetadata;
    MetadataRoundTrip(e.metadata);
  }

  /** The keys of the entries that the store holds. */
  function FoundKeys(m: Store, entries: seq<Entry>): (found: set<string>)
    ensures forall k :: k in found <==> k in m && exists i :: 0 <= i < |entries| && entries[i].key == k
  {
    if entries == [] then {}
    else
      var key, front := entries[|entries| - 1].key, entries[..|entries| - 1];
      assert forall i :: 0 <= i < |front| ==> front[i] == entries[i];
      FoundKeys(m, front) + if key in m then {key} else {}
  }

  lemma LastIsOther(m: Store, entries: seq<Entry>)
    requires AllValid(entries) && entries != []
    ensures var last := |entries| - 1;
            AllValid(entries[..last]) && entries[last].key !in FoundKeys(m, entries[..last])
  {
    hide Blank;
    var last := |entries| - 1;
    var front := entries[..last];
    assert forall i :: 0 <= i < last ==> (Invalid(entries, i) <==> Invalid(front, i));
    assert !Invalid(entries, last);
  }

  /** Found keys and new keys make up a batch of distinct keys. */
  lemma {:induction false} FoundOrNew(m: Store, entries: seq<Entry>)
    requires AllValid(entries)
    ensures |FoundKeys(m, entries)| + NewKeys(m, entries) == |entries|
  {
    if entries != [] {
      hide Blank, Invalid, AllValid;
      var front := entries[..|entries| - 1];
      LastIsOther(m, entries);
      FoundOrNew(m, front);
    }
  }

  /** The keys in ascending order, as a query ordered by key gives them. */
  method OrderedKeys(of: set<string>) returns (keys: seq<string>)
    ensures keys == SortedKeys(of)
  {
    keys := [];
    var todo := of;
    while todo != {}
      invariant todo <= of && Distinct(keys)
      invariant forall k :: k in keys <==> k in of - todo
      decreases todo
    {
      var key :| key in todo;
      assert key !in keys;
      keys := keys + [key];
      todo := todo - {key};
    }
    StringsOrdered();
    keys := Sort(Less, keys);
    AscendingUnique(Less, keys, SortedKeys(of));
  }

  lemma SameKeys(m: Store, batch: seq<Entry>, keys: seq<string>, existing: set<string>)
    requires |keys| == |batch| && forall i :: 0 <= i < |keys| ==> keys[i] == batch[i].key
    requires existing == set k <- keys | k in m
    ensures existing == FoundKeys(m, batch)
  {
    assert forall i :: 0 <= i < |keys| ==> keys[i] in keys;
  }

  lemma NotYetPut(m: Store, batch: seq<Entry>, i: nat)
    requires AllValid(batch) && i < |batch|
    ensures batch[i].key in Put(m, batch[..i]) <==> batch[i].key in m
  {
    PutKeys(m, batch[..i], batch[i].key);
    assert !Invalid(batch, i);
  }

  /** INSERT OR IGNORE, or INSERT with the row overwritten on conflict; gives the number of rows affected. */
  method InsertRow(table: Table, entry: Entry, ignore: bool) returns (after: Table, affected: nat)
    requires Decodable(table)
    ensures Decodable(after) && affected == if ignore && entry.key in table then 0 else 1
    ensures Contents(after) == if affected == 0 then Contents(table) else Contents(table)[entry.key := entry]
  {
    hide Contents, Decodable;
    RowHoldsEntry(table, entry);
    if ignore && entry.key in table { return table, 0; }
    return table[entry.key := RowOf(entry)], 1;
  }

  /** Writes a checked batch into a transaction's view of the table. */
  method InsertBatch(table: Table, batch: seq<Entry>, create: bool) returns (tx: Table)
    requires Decodable(table) && AllValid(batch) && (create ==> AllNew(Contents(table), batch))
    ensures Decodable(tx) && Contents(tx) == Put(Contents(table), batch)
  {
    hide Contents, Decodable;
    tx := table;
    ghost var base := Contents(table);
    for i := 0 to |batch|
      invariant Decodable(tx) && Contents(tx) == Put(base, batch[..i])
    {
      var affected;
      NotYetPut(base, batch, i);
      tx, affected := InsertRow(tx, batch[i], create);
      // The row count is checked again in create mode; it is never zero here.
      if create && affected == 0 { assert false; }
      assert batch[..i + 1][..i] == batch[..i];
    }
    assert batch[..|batch|] == batch;
  }

  /** The entries of the rows under the given keys, decoded one by one. */
  method DecodeRows(table: Table, keys: seq<string>, limit: int) returns (out: seq<Entry>)
    requires Decodable(table) && forall k <- keys :: k in table
    ensures out == KvSpec.Entries(Contents(table), keys, limit)
  {
    out := [];
    var n := if 0 < limit < |keys| then limit else |keys|;
    for i := 0 to n
      invariant |out| == i && forall j :: 0 <= j < i ==> keys[j] in keys && out[j] == Contents(table)[keys[j]]
    {
      assert keys[i] in keys;
      var row := table[keys[i]];
      out := out + [Entry(keys[i], row.value, DecodeMetadata(row.metadataJson).value, row.updatedAt)];
    }
  }

  /** One batch transaction: the table to commit, unchanged when the batch is rejected. */
  method RunBatch(rows: Table, batch: seq<Entry>, mode: string) returns (tx: Table, r: Batch)
    requires Decodable(rows)
    ensures Decodable(tx) && (Contents(tx), r) == KvSpec.BatchUpsert(Contents(rows), batch, mode)
    ensures r.Rejected? ==> tx == rows
  {
    hide Contents, Decodable, Blank, Invalid, Put, NewKeys, ValidationError, FoundKeys;
    tx := rows;
    var keys, error := ValidateEntries(batch);
    if error.Some? { return tx, Rejected(error.value); }
    ghost var base := Contents(rows);
    var existing := set k <- keys | k in rows;
    assert existing == FoundKeys(base, batch) by { SameKeys(base, batch, keys, existing); }
    if mode == "create" && |existing| > 0 {
      for i := 0 to |batch|
        invariant TakenKey(base, batch, 0) == TakenKey(base, batch, i)
      {
        if batch[i].key in existing { return tx, Rejected(KeyExists(batch[i].key)); }
      }
    }
    assert mode == "create" ==> AllNew(base, batch);
    tx := InsertBatch(rows, batch, mode == "create");
    FoundOrNew(base, batch);
    return tx, Stored(|batch|, |batch| - |existing|);
  }

  class SqlStore {
    var rows: Table

    ghost predicate Valid() reads this { Decodable(rows) }

    ghost function Entries(): Store
      reads this
      requires Valid()
    { Contents(rows) }

    constructor ()
      ensures Valid() && Entries() == map[]
    { rows := map[]; }

    method Get(key: string) returns (entry: Option<Entry>)
      requires Valid()
      ensures entry == if key in Entries() then Some(Entries()[key]) else None
    {
      if key !in rows { return None; }
      var row := rows[key];
      return Some(Entry(key, row.value, DecodeMetadata(row.metadataJson).value, row.updatedAt));
    }

    method Upsert(entry: Entry) returns (previous: Option<Entry>)
      requires Valid()
      modifies this
      ensures Valid() && Entries() == old(Entries())[entry.key := entry]
      ensures previous == if entry.key in old(Entries()) then Some(old(Entries())[entry.key]) else None
    {
      previous := Get(entry.key);
      RowHoldsEntry(rows, entry);
      rows := rows[entry.key := RowOf(entry)];
    }

    method Create(entry: Entry) returns (ok: bool)
      requires Valid()
      modifies this
      ensures Valid() && ok == (entry.key !in old(Entries()))
      ensures Entries() == if ok then old(Entries())[entry.key := entry] else old(Entries())
    {
      var table, affected := InsertRow(rows, entry, true);
      rows := table;
      return affected > 0;
    }

    method Delete(key: string) returns (previous: Option<Entry>)
      requires Valid()
      modifies this
      ensures Valid() && Entries() == old(Entries()) - {key}
      ensures previous == if key in old(Entries()) then Some(old(Entries())[key]) else None
    {
      previous := Get(key);
      if previous.Some? { rows := rows - {key}; }
      assert Contents(rows) == old(Contents(rows)) - {key};
    }

    /** Works on a transaction's own view of the table, which is dropped on any error. */
    method BatchUpsert(batch: seq<Entry>, mode: string) returns (r: Batch)
      requires Valid()
      modifies this
      ensures Valid() && (Entries(), r) == KvSpec.BatchUpsert(old(Entries()), batch, mode)
    {
      hide KvSpec.BatchUpsert, Contents, Decodable;
      var tx;
      tx, r := RunBatch(rows, batch, mode);
      rows := tx;
    }

    method ReplaceAll(batch: seq<Entry>, merge: bool) returns (n: nat)
      requires Valid()
      modifies this
      ensures Valid() && Entries() == KvSpec.ReplaceAll(old(Entries()), batch, merge) && n == |batch|
    {
      var tx := rows;
      if !merge { tx := map[]; }
      ghost var base := Contents(tx);
      for i := 0 to |batch|
        invariant Decodable(tx) && Contents(tx) == Put(base, batch[..i])
      {
        var affected;
        tx, affected := InsertRow(tx, batch[i], false);
        assert batch[..i + 1][..i] == batch[..i];
      }
      assert batch[..|batch|] == batch;
      rows := tx;
      return |batch|;
    }

    /** The rows whose key is LIKE the prefix, in key order, at most `limit` of them when it is positive. */
    method List(prefix: string, limit: int) returns (out: seq<Entry>)
      requires Valid()
      ensures out == SqlListing(Entries(), prefix, limit)
    {
      hide SortedKeys, KvSpec.Entries, Contents, Like;
      var found := rows.Keys;
      if prefix != "" {
        found := set k <- rows | Like(prefix + "%", k);
      } else {
        forall k ensures Like(prefix + "%", k) { assert prefix + "%" == "%"; LikeAnything(k); }
      }
      assert found == set k <- Entries() | Like(prefix + "%", k);
      var keys := OrderedKeys(found);
      out := DecodeRows(rows, keys, limit);
    }
  }
}
