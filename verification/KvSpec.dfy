/** What every store operation does to the map from keys to entries, independent of how a store holds it. */
module KvSpec {
  import opened Common
  import opened Text
  import opened Order
  import opened KvData

  type Store = map<string, Entry>

  datatype StoreError = KeyRequired | DuplicateKey(key: string) | KeyExists(key: string)
  datatype Batch = Stored(stored: nat, created: int) | Rejected(error: StoreError)

  // ---------------------------------------------------------------- batches

  predicate Invalid(entries: seq<Entry>, i: nat)
    requires i < |entries|
  {
    Blank(entries[i].key) || exists j :: 0 <= j < i && entries[j].key == entries[i].key
  }

  predicate AllValid(entries: seq<Entry>) { forall i :: 0 <= i < |entries| ==> !Invalid(entries, i) }

  predicate AllNew(m: Store, entries: seq<Entry>) { forall i :: 0 <= i < |entries| ==> entries[i].key !in m }

  function WhyInvalid(key: string): StoreError { if Blank(key) then KeyRequired else DuplicateKey(key) }

  /** The error of the first invalid entry at or after `from`. */
  function ValidationError(entries: seq<Entry>, from: nat): (e: Option<StoreError>)
    requires from <= |entries|
    ensures e.None? <==> forall i :: from <= i < |entries| ==> !Invalid(entries, i)
    decreases |entries| - from
  {
    if from == |entries| then None
    else if Invalid(entries, from) then Some(WhyInvalid(entries[from].key))
    else ValidationError(entries, from + 1)
  }

  /** The first key at or after `from` that the store already holds. */
  function TakenKey(m: Store, entries: seq<Entry>, from: nat): (k: Option<string>)
    requires from <= |entries|
    ensures k.None? <==> forall i :: from <= i < |entries| ==> entries[i].key !in m
    decreases |entries| - from
  {
    if from == |entries| then None
    else if entries[from].key in m then Some(entries[from].key)
    else TakenKey(m, entries, from + 1)
  }

  /** The store after writing the entries one after the other. */
  function Put(m: Store, entries: seq<Entry>): Store {
    if entries == [] then m
    else var e := entries[|entries| - 1]; Put(m, entries[..|entries| - 1])[e.key := e]
  }

  /** How many of the entries have a key that the store does not hold. */
  function NewKeys(m: Store, entries: seq<Entry>): nat {
    if entries == [] then 0
    else NewKeys(m, entries[..|entries| - 1]) + if entries[|entries| - 1].key in m then 0 else 1
  }

  function BatchUpsert(m: Store, entries: seq<Entry>, mode: string): (Store, Batch) {
    var invalid := ValidationError(entries, 0);
    var taken := TakenKey(m, entries, 0);
    if invalid.Some? then (m, Rejected(invalid.value))
    else if mode == "create" && taken.Some? then (m, Rejected(KeyExists(taken.value)))
    else (Put(m, entries), Stored(|entries|, NewKeys(m, entries)))
  }

  function ReplaceAll(m: Store, entries: seq<Entry>, merge: bool): Store {
    Put(if merge then m else map[], entries)
  }

  lemma {:induction false} PutKeys(m: Store, entries: seq<Entry>, k: string)
    ensures k in Put(m, entries) <==> k in m || exists i :: 0 <= i < |entries| && entries[i].key == k
    ensures (forall i :: 0 <= i < |entries| ==> entries[i].key != k) && k in m ==> Put(m, entries)[k] == m[k]
  {
    if entries != [] {
      var front := entries[..|entries| - 1];
      PutKeys(m, front, k);
      assert forall i :: 0 <= i < |front| ==> front[i] == entries[i];
      assert (exists i :: 0 <= i < |entries| && entries[i].key == k)
        <==> entries[|front|].key == k || exists i :: 0 <= i < |front| && front[i].key == k;
    }
  }

  /** The last entry written under a key is the one found there. */
  lemma {:induction false} PutLookup(m: Store, entries: seq<Entry>, i: nat)
    requires i < |entries|
    requires forall j :: i < j < |entries| ==> entries[j].key != entries[i].key
    ensures entries[i].key in Put(m, entries) && Put(m, entries)[entries[i].key] == entries[i]
  {
    var last := |entries| - 1;
    if i < last {
      assert entries[last].key != entries[i].key;
      PutLookup(m, entries[..last], i);
    }
  }

  lemma {:induction false} PutSize(m: Store, entries: seq<Entry>)
    requires AllValid(entries)
    ensures |Put(m, entries)| == |m| + NewKeys(m, entries)
  {
    if entries != [] {
      var last := |entries| - 1;
      var front := entries[..last];
      assert forall i :: 0 <= i < last ==> (Invalid(entries, i) <==> Invalid(front, i));
      PutSize(m, front);
      PutKeys(m, front, entries[last].key);
      assert !Invalid(entries, last);
    }
  }

  /** The store as the stored entries make it: each found under its key, every other key as before. */
  ghost predicate Overlaid(m: Store, entries: seq<Entry>, n: Store) {
    && (forall i :: 0 <= i < |entries| ==> entries[i].key in n && n[entries[i].key] == entries[i])
    && (forall k :: k in n && (forall i :: 0 <= i < |entries| ==> entries[i].key != k) ==> k in m && n[k] == m[k])
    && (forall k <- m :: k in n)
  }

  lemma PutWrites(m: Store, entries: seq<Entry>)
    requires AllValid(entries)
    ensures Overlaid(m, entries, Put(m, entries))
  {
    forall i | 0 <= i < |entries| ensures entries[i].key in Put(m, entries) && Put(m, entries)[entries[i].key] == entries[i] {
      forall j | i < j < |entries| ensures entries[j].key != entries[i].key { assert !Invalid(entries, j); }
      PutLookup(m, entries, i);
    }
    forall k
      ensures k in m ==> k in Put(m, entries)
      ensures k in Put(m, entries) && (forall i :: 0 <= i < |entries| ==> entries[i].key != k) ==>
                k in m && Put(m, entries)[k] == m[k]
    {
      PutKeys(m, entries, k);
    }
  }

  /** A batch is valid exactly when no key is blank and no two are the same; an entry alone is invalid only for its key. */
  lemma ValidIff(entries: seq<Entry>)
    ensures AllValid(entries) <==>
            && (forall i :: 0 <= i < |entries| ==> !Blank(entries[i].key))
            && (forall i, j :: 0 <= i < j < |entries| ==> entries[i].key != entries[j].key)
    ensures entries != [] ==> (Invalid(entries, 0) <==> Blank(entries[0].key))
  {
    hide Blank;
    if AllValid(entries) {
      forall i, j | 0 <= i < j < |entries| ensures entries[i].key != entries[j].key { assert !Invalid(entries, j); }
      forall i | 0 <= i < |entries| ensures !Blank(entries[i].key) { assert !Invalid(entries, i); }
    }
  }

  /** A batch is stored exactly when its keys are non-blank and distinct and, in create mode, all new; then
      `created` is the growth of the store. A rejected batch changes nothing. */
  lemma BatchMeaning(m: Store, entries: seq<Entry>, mode: string)
    ensures var (n, r) := BatchUpsert(m, entries, mode);
            && (r.Stored? <==> AllValid(entries) && (mode == "create" ==> AllNew(m, entries)))
            && (r.Rejected? ==> n == m)
            && (r.Stored? ==> Overlaid(m, entries, n) && r == Stored(|entries|, |n| - |m|))
  {
    hide Overlaid;
    if BatchUpsert(m, entries, mode).1.Stored? {
      PutSize(m, entries);
      PutWrites(m, entries);
    }
  }

  ghost predicate FirstInvalid(entries: seq<Entry>, from: nat, i: nat) {
    from <= i < |entries| && Invalid(entries, i) && forall k :: from <= k < i ==> !Invalid(entries, k)
  }

  ghost predicate FirstTaken(m: Store, entries: seq<Entry>, from: nat, i: nat) {
    from <= i < |entries| && entries[i].key in m && forall k :: from <= k < i ==> entries[k].key !in m
  }

  /** The error of a rejected batch is that of its first offending entry. */
  lemma {:induction false} ErrorIsFirst(m: Store, entries: seq<Entry>, from: nat, i: nat)
    requires from <= |entries|
    ensures FirstInvalid(entries, from, i) ==> ValidationError(entries, from) == Some(WhyInvalid(entries[i].key))
    ensures FirstTaken(m, entries, from, i) ==> TakenKey(m, entries, from) == Some(entries[i].key)
    decreases |entries| - from
  {
    if from < i && from < |entries| { ErrorIsFirst(m, entries, from + 1, i); }
  }

  // ---------------------------------------------------------------- listing

  predicate IsLeast(k: string, keys: set<string>) { k in keys && forall j <- keys :: j == k || Less(k, j) }

  lemma {:induction false} LeastKey(keys: set<string>)
    requires keys != {}
    ensures exists k :: IsLeast(k, keys)
  {
    StringsOrdered();
    var k :| k in keys;
    if keys != {k} {
      LeastKey(keys - {k});
      var least :| IsLeast(least, keys - {k});
      assert IsLeast(if Less(least, k) then least else k, keys);
    } else {
      assert IsLeast(k, keys);
    }
  }

  /** The keys in ascending order. */
  ghost function SortedKeys(keys: set<string>): (s: seq<string>)
    ensures Ascending(Less, s) && (forall k :: k in s <==> k in keys) && |s| == |keys|
  {
    if keys == {} then [] else
    LeastKey(keys);
    var k :| IsLeast(k, keys);
    [k] + SortedKeys(keys - {k})
  }

  /** The entries under the given keys, in that order; at most `limit` of them when it is positive. */
  function Entries(m: Store, keys: seq<string>, limit: int): (r: seq<Entry>)
    requires forall k <- keys :: k in m
  {
    var n := if 0 < limit < |keys| then limit else |keys|;
    seq(n, i requires 0 <= i < n => assert keys[i] in keys; m[keys[i]])
  }

  ghost function Listing(m: Store, prefix: string, limit: int): seq<Entry> {
    Entries(m, SortedKeys(set k <- m | HasPrefix(k, prefix)), limit)
  }

  /** A listing holds entries of the store with the prefix, in key order and at most `limit` of them when it is positive;
      an entry with the prefix is missing only if the limit is used up by smaller keys. */
  lemma ListingMeaning(m: Store, prefix: string, limit: int, k: string)
    requires forall k <- m :: m[k].key == k
    ensures var out := Listing(m, prefix, limit);
            && (forall i :: 0 <= i < |out| ==>
                  out[i].key in m && m[out[i].key] == out[i] && HasPrefix(out[i].key, prefix))
            && (forall i, j :: 0 <= i < j < |out| ==> Less(out[i].key, out[j].key))
            && (limit > 0 ==> |out| <= limit)
            && (k in m && HasPrefix(k, prefix) ==>
                  m[k] in out || (0 < limit == |out| && forall i :: 0 <= i < |out| ==> Less(out[i].key, k)))
  {
    hide Less, HasPrefix;
    var found := set k <- m | HasPrefix(k, prefix);
    var keys, out := SortedKeys(found), Listing(m, prefix, limit);
    forall i | 0 <= i < |out| ensures keys[i] in found && out[i] == m[keys[i]] { assert keys[i] in keys; }
    if k in found {
      var p :| 0 <= p < |keys| && keys[p] == k;
      if p < |out| { assert out[p] == m[k]; }
    }
  }

  // ---------------------------------------------------------------- listing in SQL

  /** The LIKE operator: `%` stands for any text, `_` for any character, and ASCII letters match in either case. */
  predicate Like(pattern: string, s: string)
    decreases |pattern| + |s|
  {
    if pattern == "" then s == ""
    else if pattern[0] == '%' then Like(pattern[1..], s) || (s != "" && Like(pattern, s[1..]))
    else s != "" && MatchesOne(pattern[0], s[0]) && Like(pattern[1..], s[1..])
  }

  predicate MatchesOne(p: char, c: char) { p in {'%', '_'} || AsciiLower(p) == AsciiLower(c) }

  /** The entries whose key is LIKE the prefix followed by `%`. */
  ghost function SqlListing(m: Store, prefix: string, limit: int): seq<Entry> {
    Entries(m, SortedKeys(set k <- m | Like(prefix + "%", k)), limit)
  }

  predicate IsLetter(c: char) { 'a' <= c <= 'z' || 'A' <= c <= 'Z' }

  /** A prefix that LIKE takes literally: no wildcard and no ASCII letter. */
  predicate Literal(prefix: string) {
    forall i :: 0 <= i < |prefix| ==> prefix[i] !in {'%', '_'} && !IsLetter(prefix[i])
  }

  lemma {:induction false} LikeAnything(s: string)
    ensures Like("%", s)
  {
    assert "%"[1..] == "";
    if s != "" { LikeAnything(s[1..]); }
  }

  /** Text that matches a prefix character by character is LIKE it, whatever follows. */
  lemma {:induction false} PointwiseLike(prefix: string, s: string)
    requires |prefix| <= |s| && forall i :: 0 <= i < |prefix| ==> MatchesOne(prefix[i], s[i])
    ensures Like(prefix + "%", s)
  {
    if prefix == "" {
      assert prefix + "%" == "%";
      LikeAnything(s);
    } else {
      assert (prefix + "%")[1..] == prefix[1..] + "%";
      PointwiseLike(prefix[1..], s[1..]);
      if prefix[0] == '%' { assert Like(prefix[1..] + "%", s[1..]); LikeOneMore(prefix + "%", s); }
    }
  }

  lemma LikeOneMore(pattern: string, s: string)
    requires pattern != "" && pattern[0] == '%' && s != "" && Like(pattern[1..], s[1..])
    ensures Like(pattern, s)
  {
    assert Like(pattern, s[1..]);
  }

  lemma {:induction false} LiteralLike(prefix: string, s: string)
    requires Literal(prefix)
    ensures Like(prefix + "%", s) <==> HasPrefix(s, prefix)
  {
    if prefix == "" {
      assert prefix + "%" == "%";
      LikeAnything(s);
    } else if s != "" {
      assert (prefix + "%")[1..] == prefix[1..] + "%";
      LiteralLike(prefix[1..], s[1..]);
      assert MatchesOne(prefix[0], s[0]) <==> prefix[0] == s[0];
      assert HasPrefix(s, prefix) <==> s[0] == prefix[0] && HasPrefix(s[1..], prefix[1..]) by {
        assert prefix == [prefix[0]] + prefix[1..] && s == [s[0]] + s[1..];
        if HasPrefix(s, prefix) { assert s[0] == s[..|prefix|][0] && s[1..][..|prefix| - 1] == s[..|prefix|][1..]; }
      }
    }
  }

  /** Another character that LIKE takes for this one. */
  function Lookalike(c: char): char {
    if 'a' <= c <= 'z' then (c as int - 32) as char
    else if 'A' <= c <= 'Z' then (c as int + 32) as char
    else '0'
  }

  /** A prefix that is not literal is LIKE some key that does not start with it. */
  lemma NotLiteral(prefix: string) returns (k: string)
    requires !Literal(prefix)
    ensures Like(prefix + "%", k) && !HasPrefix(k, prefix)
  {
    var i :| 0 <= i < |prefix| && (prefix[i] in {'%', '_'} || IsLetter(prefix[i]));
    k := prefix[i := Lookalike(prefix[i])];
    PointwiseLike(prefix, k);
    assert k[i] != prefix[i];
  }

  /** Both stores list the same entries for a prefix, in every store and for every limit, exactly when it has no
      wildcard and no ASCII letter; the SQL store never misses an entry that has the prefix. */
  lemma ListingsAgreeIff(prefix: string)
    ensures (forall m, limit :: SqlListing(m, prefix, limit) == Listing(m, prefix, limit)) <==> Literal(prefix)
    ensures forall k :: HasPrefix(k, prefix) ==> Like(prefix + "%", k)
  {
    forall k | HasPrefix(k, prefix) ensures Like(prefix + "%", k) {
      assert forall i :: 0 <= i < |prefix| ==> k[i] == k[..|prefix|][i];
      PointwiseLike(prefix, k);
    }
    if Literal(prefix) {
      forall m, limit ensures SqlListing(m, prefix, limit) == Listing(m, prefix, limit) {
        forall k ensures Like(prefix + "%", k) <==> HasPrefix(k, prefix) { LiteralLike(prefix, k); }
        assert (set k <- m | Like(prefix + "%", k)) == set k <- m | HasPrefix(k, prefix);
      }
    } else {
      var k := NotLiteral(prefix);
      ListingsDiffer(prefix, k);
    }
  }

  lemma ListingsDiffer(prefix: string, k: string)
    requires Like(prefix + "%", k) && !HasPrefix(k, prefix)
    ensures var m: Store := map[k := Entry(k, "", NO_METADATA, "")];
            SqlListing(m, prefix, 0) != Listing(m, prefix, 0)
  {
    hide Like, HasPrefix;
    var m: Store := map[k := Entry(k, "", NO_METADATA, "")];
    assert (set j <- m | Like(prefix + "%", j)) == {k};
    assert (set j <- m | HasPrefix(j, prefix)) == {};
    assert |SqlListing(m, prefix, 0)| == 1 && |Listing(m, prefix, 0)| == 0;
  }
}
