/**
 * The embedding caches (internal/memory/embed.go and internal/suggestion/cache.go): a map of entries
 * and a slice of keys, oldest first.  The memory cache also gives its entries a time to live; the
 * suggestion cache is the same cache without one.
 */
module LruCache {
  import opened Std

  datatype Key = Key(text: string)
  datatype Embedding = Embedding(vector: seq<real>)

  datatype Put = Put(key: Key, embedding: Embedding, at: int)

  // ----- specification: what a log of puts leaves in the cache -----

  function Without(s: seq<Key>, k: Key): (r: seq<Key>) {
    if s == [] then []
    else
      var rest := Without(s[..|s| - 1], k);
      if s[|s| - 1] == k then rest else rest + [s[|s| - 1]]
  }

  /** The distinct keys put so far, the most recently put one last. */
  function Recency(puts: seq<Put>): (keys: seq<Key>) {
    if puts == [] then []
    else
      var k := puts[|puts| - 1].key;
      Without(Recency(puts[..|puts| - 1]), k) + [k]
  }

  function LastN(s: seq<Key>, n: nat): (r: seq<Key>) {
    if s == [] || n == 0 then [] else LastN(s[..|s| - 1], n - 1) + [s[|s| - 1]]
  }

  /** The latest put of every key. */
  function Latest(puts: seq<Put>): (m: map<Key, Put>) {
    if puts == [] then map[]
    else
      var p := puts[|puts| - 1];
      Latest(puts[..|puts| - 1])[p.key := p]
  }

  /** The distinct keys put after the latest put of `k`. */
  function PutAfter(puts: seq<Put>, k: Key): set<Key> {
    if puts == [] || puts[|puts| - 1].key == k then {}
    else PutAfter(puts[..|puts| - 1], k) + {puts[|puts| - 1].key}
  }

  // ----- keys without duplicates -----

  function Members(s: seq<Key>): set<Key> {
    if s == [] then {} else Members(s[..|s| - 1]) + {s[|s| - 1]}
  }

  lemma MembersAppend(s: seq<Key>, k: Key)
    ensures Members(s + [k]) == Members(s) + {k}
  {
    assert (s + [k])[..|s|] == s;
  }

  lemma WithoutAppend(s: seq<Key>, x: Key, k: Key)
    ensures Without(s + [x], k) == if x == k then Without(s, k) else Without(s, k) + [x]
  {
    assert (s + [x])[..|s|] == s;
  }

  lemma {:induction false} WithoutMembers(s: seq<Key>, k: Key)
    ensures Members(Without(s, k)) == Members(s) - {k}
    ensures k !in Members(s) ==> Without(s, k) == s
  {
    if s != [] {
      var f, x := s[..|s| - 1], s[|s| - 1];
      WithoutMembers(f, k);
      if x != k { MembersAppend(Without(f, k), x); }
    }
  }

  /** No key twice. */
  predicate Distinct(s: seq<Key>) {
    s == [] || (Distinct(s[..|s| - 1]) && s[|s| - 1] !in Members(s[..|s| - 1]))
  }

  lemma DistinctAppend(s: seq<Key>, k: Key)
    requires Distinct(s) && k !in Members(s)
    ensures Distinct(s + [k])
  {
    assert (s + [k])[..|s|] == s;
  }

  lemma {:induction false} WithoutDistinct(s: seq<Key>, k: Key)
    requires Distinct(s)
    ensures Distinct(Without(s, k))
  {
    if s != [] {
      var f, x := s[..|s| - 1], s[|s| - 1];
      WithoutDistinct(f, k);
      WithoutMembers(f, k);
      if x != k { DistinctAppend(Without(f, k), x); }
    }
  }

  lemma {:induction false} RecencyDistinct(puts: seq<Put>)
    ensures Distinct(Recency(puts))
  {
    if puts != [] {
      var r := Recency(puts[..|puts| - 1]);
      var k := puts[|puts| - 1].key;
      RecencyDistinct(puts[..|puts| - 1]);
      WithoutDistinct(r, k);
      WithoutMembers(r, k);
      DistinctAppend(Without(r, k), k);
    }
  }

  lemma {:induction false} RecencyMembers(puts: seq<Put>)
    ensures Members(Recency(puts)) == Latest(puts).Keys
  {
    if puts != [] {
      var r := Recency(puts[..|puts| - 1]);
      var k := puts[|puts| - 1].key;
      RecencyMembers(puts[..|puts| - 1]);
      WithoutMembers(r, k);
      MembersAppend(Without(r, k), k);
    }
  }

  // ----- the most recent n keys after one more put -----

  lemma {:induction false} LastNMembers(s: seq<Key>, n: nat)
    requires Distinct(s)
    ensures Members(LastN(s, n)) <= Members(s)
    ensures Distinct(LastN(s, n)) && |LastN(s, n)| == if |s| < n then |s| else n
  {
    if s != [] && n > 0 {
      LastNMembers(s[..|s| - 1], n - 1);
      DistinctAppend(LastN(s[..|s| - 1], n - 1), s[|s| - 1]);
      MembersAppend(LastN(s[..|s| - 1], n - 1), s[|s| - 1]);
    }
  }

  lemma LastNAppend(s: seq<Key>, x: Key, n: nat)
    requires n >= 1
    ensures LastN(s + [x], n) == LastN(s, n - 1) + [x]
  {
    assert (s + [x])[..|s|] == s;
  }

  lemma TouchNewest(f: seq<Key>, n: nat, k: Key)
    requires Distinct(f) && n >= 1 && k !in Members(f)
    ensures LastN(Without(f + [k], k), n - 1) == Without(LastN(f + [k], n), k)
  {
    var l := LastN(f, n - 1);
    LastNMembers(f, n - 1);
    WithoutMembers(f, k);
    WithoutMembers(l, k);
    calc {
      LastN(Without(f + [k], k), n - 1);
      { WithoutAppend(f, k, k); }
      l;
      { WithoutAppend(l, k, k); }
      Without(l + [k], k);
      { LastNAppend(f, k, n); }
      Without(LastN(f + [k], n), k);
    }
  }

  lemma TouchOlder(f: seq<Key>, x: Key, n: nat, k: Key)
    requires n >= 2 && x != k && LastN(Without(f, k), n - 2) == Without(LastN(f, n - 1), k)
    ensures LastN(Without(f + [x], k), n - 1) == Without(LastN(f + [x], n), k)
  {
    LastNAppend(f, x, n);
    WithoutAppend(f, x, k);
    WithoutAppend(LastN(f, n - 1), x, k);
    LastNAppend(Without(f, k), x, n - 1);
  }

  /** A cached key moves to the end. */
  lemma {:induction false} TouchKeepsLastN(s: seq<Key>, n: nat, k: Key)
    requires Distinct(s) && n >= 1 && k in Members(LastN(s, n))
    ensures LastN(Without(s, k), n - 1) == Without(LastN(s, n), k)
  {
    var f, x := s[..|s| - 1], s[|s| - 1];
    assert s == f + [x];
    MembersAppend(LastN(f, n - 1), x);
    if x == k {
      TouchNewest(f, n, k);
    } else {
      TouchKeepsLastN(f, n - 1, k);
      TouchOlder(f, x, n, k);
    }
  }

  /** Any other key pushes the oldest one out. */
  lemma {:induction false} InsertKeepsLastN(s: seq<Key>, n: nat, k: Key)
    requires n >= 1 && k !in Members(LastN(s, n))
    ensures LastN(Without(s, k), n - 1) == LastN(s, n - 1)
  {
    if s != [] && n > 1 {
      var f, x := s[..|s| - 1], s[|s| - 1];
      MembersAppend(LastN(f, n - 1), x);
      InsertKeepsLastN(f, n - 1, k);
      LastNAppend(Without(f, k), x, n - 1);
    }
  }

  lemma {:induction false} LastNDropsOldest(s: seq<Key>, n: nat)
    requires n >= 1
    ensures |LastN(s, n)| == n ==> LastN(s, n)[1..] == LastN(s, n - 1)
    ensures |LastN(s, n)| < n ==> LastN(s, n) == LastN(s, n - 1)
    ensures |LastN(s, n)| <= n
  {
    if s != [] && n > 1 {
      LastNDropsOldest(s[..|s| - 1], n - 1);
    }
  }

  // ----- recency as a count -----

  /** The keys behind `k` in the list. */
  function Behind(s: seq<Key>, k: Key): set<Key> {
    if s == [] || s[|s| - 1] == k then {} else Behind(s[..|s| - 1], k) + {s[|s| - 1]}
  }

  lemma {:induction false} BehindWithout(s: seq<Key>, j: Key, k: Key)
    requires j != k
    ensures Behind(Without(s, j), k) == Behind(s, k) - {j}
  {
    if s != [] {
      var f, x := s[..|s| - 1], s[|s| - 1];
      BehindWithout(f, j, k);
      if x != j {
        var w := Without(f, j);
        assert (w + [x])[..|w|] == w;
      }
    }
  }

  lemma {:induction false} BehindIsPutAfter(puts: seq<Put>, k: Key)
    ensures k in Latest(puts) ==> Behind(Recency(puts), k) == PutAfter(puts, k)
  {
    if puts != [] {
      var j := puts[|puts| - 1].key;
      var r := Recency(puts[..|puts| - 1]);
      BehindIsPutAfter(puts[..|puts| - 1], k);
      var w := Without(r, j);
      assert (w + [j])[..|w|] == w;
      if j != k { BehindWithout(r, j, k); }
    }
  }

  lemma {:induction false} LastNByCount(s: seq<Key>, n: nat, k: Key)
    requires Distinct(s) && k in Members(s)
    ensures Behind(s, k) <= Members(s)
    ensures k in Members(LastN(s, n)) <==> |Behind(s, k)| < n
  {
    var f, x := s[..|s| - 1], s[|s| - 1];
    if n > 0 {
      MembersAppend(LastN(f, n - 1), x);
    }
    if x != k {
      LastNByCount(f, if n > 0 then n - 1 else 0, k);
      assert x !in Behind(f, k);
    }
  }

  /** A key is among the n most recently put keys exactly when fewer than n keys were put after it. */
  lemma CachedIffRecent(puts: seq<Put>, n: nat, k: Key)
    ensures k in Members(LastN(Recency(puts), n)) <==> k in Latest(puts) && |PutAfter(puts, k)| < n
  {
    RecencyDistinct(puts);
    RecencyMembers(puts);
    if k in Latest(puts) {
      LastNByCount(Recency(puts), n, k);
      BehindIsPutAfter(puts, k);
    } else {
      LastNMembers(Recency(puts), n);
    }
  }

  // ----- hits, read off the puts -----

  /** Put `i` is the last one of the key. */
  predicate LastPut(puts: seq<Put>, k: Key, i: int) {
    0 <= i < |puts| && puts[i].key == k && forall j :: i < j < |puts| ==> puts[j].key != k
  }

  /** The distinct keys of the puts after put `i`. */
  function KeysAfter(puts: seq<Put>, i: int): set<Key> {
    set j | i < j < |puts| && 0 <= j :: puts[j].key
  }

  lemma {:induction false} LatestIsLast(puts: seq<Put>, k: Key, i: int)
    requires LastPut(puts, k, i)
    ensures k in Latest(puts) && Latest(puts)[k] == puts[i] && PutAfter(puts, k) == KeysAfter(puts, i)
  {
    var n := |puts| - 1;
    var before := puts[..n];
    if i < n {
      assert LastPut(before, k, i);
      LatestIsLast(before, k, i);
      assert forall j :: 0 <= j < n ==> before[j] == puts[j];
      assert KeysAfter(puts, i) == KeysAfter(before, i) + {puts[n].key};
    } else {
      assert KeysAfter(puts, i) == {};
    }
  }

  lemma {:induction false} LatestHasPut(puts: seq<Put>, k: Key) returns (i: int)
    ensures k in Latest(puts) ==> LastPut(puts, k, i)
  {
    i := |puts| - 1;
    if puts != [] && puts[i].key != k {
      i := LatestHasPut(puts[..|puts| - 1], k);
    }
  }

  /** Put `i` is the last one of the key, fewer than n other keys were put since, and it has not expired. */
  ghost predicate Live(puts: seq<Put>, ttl: Option<int>, n: nat, k: Key, now: int, i: int) {
    && LastPut(puts, k, i)
    && |KeysAfter(puts, i)| < n
    && (ttl.None? || now <= puts[i].at + ttl.value)
  }

  lemma LiveIff(puts: seq<Put>, ttl: Option<int>, n: nat, k: Key, now: int)
    ensures (exists i :: Live(puts, ttl, n, k, now, i)) <==>
      && k in Latest(puts) && |PutAfter(puts, k)| < n
      && (ttl.None? || now <= Latest(puts)[k].at + ttl.value)
    ensures forall i :: Live(puts, ttl, n, k, now, i) ==> k in Latest(puts) && Latest(puts)[k] == puts[i]
  {
    var i := LatestHasPut(puts, k);
    if k in Latest(puts) { LatestIsLast(puts, k, i); }
    forall i | Live(puts, ttl, n, k, now, i)
      ensures k in Latest(puts) && Latest(puts)[k] == puts[i] && PutAfter(puts, k) == KeysAfter(puts, i)
    {
      LatestIsLast(puts, k, i);
    }
    if k in Latest(puts) && |PutAfter(puts, k)| < n && (ttl.None? || now <= Latest(puts)[k].at + ttl.value) {
      assert Live(puts, ttl, n, k, now, i);
    }
  }

  // ----- the cache -----

  datatype Entry = Entry(embedding: Embedding, expiresAt: Option<int>)
  type Entries = map<Key, Entry>

  function EntryOf(ttl: Option<int>, p: Put): Entry {
    Entry(p.embedding, if ttl.None? then None else Some(p.at + ttl.value))
  }

  ghost predicate EntriesMatch(latest: map<Key, Put>, ttl: Option<int>, entries: Entries) {
    forall k :: k in entries ==> k in latest && entries[k] == EntryOf(ttl, latest[k])
  }

  /** `order` lists the keys of the map, and both hold the latest values of the n most recent keys. */
  ghost predicate Holds(puts: seq<Put>, ttl: Option<int>, n: nat, entries: Entries, order: seq<Key>) {
    && order == LastN(Recency(puts), n)
    && entries.Keys == Members(order)
    && EntriesMatch(Latest(puts), ttl, entries)
  }

  lemma AppendPut(puts: seq<Put>, p: Put)
    ensures Recency(puts + [p]) == Without(Recency(puts), p.key) + [p.key]
    ensures Latest(puts + [p]) == Latest(puts)[p.key := p]
  {
    assert (puts + [p])[..|puts|] == puts;
  }

  lemma TouchOrder(r: seq<Key>, n: nat, k: Key)
    requires Distinct(r) && n >= 1 && k in Members(LastN(r, n))
    ensures LastN(Without(r, k) + [k], n) == Without(LastN(r, n), k) + [k]
    ensures Members(Without(LastN(r, n), k) + [k]) == Members(LastN(r, n))
  {
    TouchKeepsLastN(r, n, k);
    LastNAppend(Without(r, k), k, n);
    WithoutMembers(LastN(r, n), k);
    MembersAppend(Without(LastN(r, n), k), k);
  }

  lemma InsertOrder(r: seq<Key>, n: nat, k: Key)
    requires n >= 1 && k !in Members(LastN(r, n))
    ensures LastN(Without(r, k) + [k], n) == LastN(r, n - 1) + [k]
    ensures Members(LastN(r, n - 1) + [k]) == Members(LastN(r, n - 1)) + {k}
  {
    InsertKeepsLastN(r, n, k);
    LastNAppend(Without(r, k), k, n);
    MembersAppend(LastN(r, n - 1), k);
  }

  lemma UpdateMatches(latest: map<Key, Put>, ttl: Option<int>, entries: Entries, p: Put)
    requires EntriesMatch(latest, ttl, entries)
    ensures EntriesMatch(latest[p.key := p], ttl, entries[p.key := EntryOf(ttl, p)])
  {
  }

  lemma TouchHolds(puts: seq<Put>, ttl: Option<int>, n: nat, entries: Entries, order: seq<Key>, p: Put)
    requires n >= 1 && Holds(puts, ttl, n, entries, order) && p.key in entries
    ensures Holds(puts + [p], ttl, n, entries[p.key := EntryOf(ttl, p)], Without(order, p.key) + [p.key])
  {
    AppendPut(puts, p);
    RecencyDistinct(puts);
    TouchOrder(Recency(puts), n, p.key);
    UpdateMatches(Latest(puts), ttl, entries, p);
  }

  lemma InsertHolds(puts: seq<Put>, ttl: Option<int>, n: nat, entries: Entries, order: seq<Key>, p: Put)
    requires n >= 1 && Holds(puts, ttl, n - 1, entries, order) && p.key !in Members(LastN(Recency(puts), n))
    ensures Holds(puts + [p], ttl, n, entries[p.key := EntryOf(ttl, p)], order + [p.key])
  {
    AppendPut(puts, p);
    InsertOrder(Recency(puts), n, p.key);
    UpdateMatches(Latest(puts), ttl, entries, p);
  }

  lemma EvictHolds(puts: seq<Put>, ttl: Option<int>, n: nat, entries: Entries, order: seq<Key>)
    requires n >= 1 && Holds(puts, ttl, n, entries, order)
    ensures |entries| == |order| <= n
    ensures |order| == n ==> Holds(puts, ttl, n - 1, entries - {order[0]}, order[1..])
    ensures |order| == n ==> |entries - {order[0]}| == n - 1
    ensures |order| < n ==> Holds(puts, ttl, n - 1, entries, order)
  {
    RecencyDistinct(puts);
    LastNMembers(Recency(puts), n);
    LastNDropsOldest(Recency(puts), n);
    SameSize(entries.Keys, order);
    if |order| == n {
      FirstOnce(order);
      MemberAt(order, 0);
      assert (entries - {order[0]}).Keys == entries.Keys - {order[0]};
    }
  }

  class Cache {
    var entries: Entries
    var order: seq<Key>
    const maxSize: nat
    const ttl: Option<int>
    ghost var puts: seq<Put>

    ghost predicate Valid()
      reads this
    {
      maxSize >= 1 && Holds(puts, ttl, maxSize, entries, order)
    }

    /** Non-positive sizes and lifetimes take the package's defaults; the suggestion cache has no lifetime. */
    constructor (maxSize: int, defaultSize: nat, ttl: Option<int>, defaultTtl: int)
      requires defaultSize >= 1
      ensures Valid() && puts == []
      ensures this.maxSize == if maxSize <= 0 then defaultSize else maxSize
      ensures this.ttl == if ttl.Some? && ttl.value <= 0 then Some(defaultTtl) else ttl
    {
      this.maxSize := if maxSize <= 0 then defaultSize else maxSize;
      this.ttl := if ttl.Some? && ttl.value <= 0 then Some(defaultTtl) else ttl;
      entries, order, puts := map[], [], [];
    }

    /** Hits exactly for a key with fewer than maxSize keys put after it and a live last value, which it returns. */
    method Get(key: Key, now: int) returns (r: Option<Embedding>)
      requires Valid()
      ensures r.Some? <==> exists i :: Live(puts, ttl, maxSize, key, now, i)
      ensures forall i :: Live(puts, ttl, maxSize, key, now, i) ==> r == Some(puts[i].embedding)
    {
      CachedIffRecent(puts, maxSize, key);
      LiveIff(puts, ttl, maxSize, key, now);
      if key !in entries {
        return None;
      }
      var entry := entries[key];
      if entry.expiresAt.Some? && now > entry.expiresAt.value {
        return None;
      }
      return Some(entry.embedding);
    }

    /** The scan that takes a key out of the order. */
    static method Removed(order: seq<Key>, key: Key) returns (r: seq<Key>)
      requires Distinct(order)
      ensures r == Without(order, key)
    {
      var i := 0;
      while i < |order|
        invariant 0 <= i <= |order| && key !in Members(order[..i])
      {
        if order[i] == key {
          RemoveAt(order, i, key);
          return order[..i] + order[i + 1..];
        }
        assert order[..i + 1][..i] == order[..i];
        i := i + 1;
      }
      assert order[..i] == order;
      WithoutMembers(order, key);
      return order;
    }

    /** Evict oldest entries until there is room for one more. */
    method MakeRoom()
      requires Valid()
      modifies this`entries, this`order
      ensures Holds(puts, ttl, maxSize - 1, entries, order)
    {
      EvictHolds(puts, ttl, maxSize, entries, order);
      ghost var evicted := false;
      while |entries| >= maxSize && |order| > 0
        invariant |entries| == |order|
        invariant !evicted ==> entries == old(entries) && order == old(order)
        invariant evicted || |order| < maxSize ==> Holds(puts, ttl, maxSize - 1, entries, order)
        invariant evicted ==> |order| == maxSize - 1
        decreases |order|
      {
        var oldest := order[0];
        order := order[1..];
        entries := entries - {oldest};
        evicted := true;
      }
    }

    method Insert(key: Key, embedding: Embedding, now: int)
      requires Valid()
      modifies this
      ensures Valid() && puts == old(puts) + [Put(key, embedding, now)]
    {
      var entry := Entry(embedding, if ttl.None? then None else Some(now + ttl.value));
      if key in entries {
        Replace(key, entry, Put(key, embedding, now));
      } else {
        InsertNew(key, entry, Put(key, embedding, now));
      }
    }

    method Replace(key: Key, entry: Entry, ghost p: Put)
      requires Valid() && key in entries && p.key == key && entry == EntryOf(ttl, p)
      modifies this
      ensures Valid() && puts == old(puts) + [p]
    {
      TouchHolds(puts, ttl, maxSize, entries, order, p);
      assert Distinct(order) by {
        RecencyDistinct(puts);
        LastNMembers(Recency(puts), maxSize);
      }
      entries := entries[key := entry];
      order := Removed(order, key);
      order := order + [key];
      puts := puts + [p];
    }

    method InsertNew(key: Key, entry: Entry, ghost p: Put)
      requires Valid() && key !in entries && p.key == key && entry == EntryOf(ttl, p)
      modifies this
      ensures Valid() && puts == old(puts) + [p]
    {
      assert key !in Members(LastN(Recency(puts), maxSize));
      MakeRoom();
      InsertHolds(puts, ttl, maxSize, entries, order, p);
      entries := entries[key := entry];
      order := order + [key];
      puts := puts + [p];
    }
  }

  lemma {:induction false} RemoveAt(s: seq<Key>, i: nat, k: Key)
    requires Distinct(s) && i < |s| && s[i] == k && k !in Members(s[..i])
    ensures s[..i] + s[i + 1..] == Without(s, k)
  {
    if i == |s| - 1 {
      WithoutMembers(s[..i], k);
    } else {
      var f, x := s[..|s| - 1], s[|s| - 1];
      assert f[..i] == s[..i];
      RemoveAt(f, i, k);
      MemberAt(f, i);
      assert s[i + 1..] == f[i + 1..] + [x];
    }
  }

  lemma {:induction false} MemberAt(s: seq<Key>, i: nat)
    requires i < |s|
    ensures s[i] in Members(s)
  {
    if i < |s| - 1 { MemberAt(s[..|s| - 1], i); }
  }

  lemma {:induction false} SameSize(keys: set<Key>, s: seq<Key>)
    requires Distinct(s) && keys == Members(s)
    ensures |keys| == |s|
  {
    if s != [] {
      var f, x := s[..|s| - 1], s[|s| - 1];
      SameSize(keys - {x}, f);
    }
  }

  /** Dropping the oldest key drops exactly that key. */
  lemma {:induction false} FirstOnce(s: seq<Key>)
    requires Distinct(s) && s != []
    ensures Members(s[1..]) == Members(s) - {s[0]}
  {
    if |s| > 1 {
      var f, x := s[..|s| - 1], s[|s| - 1];
      FirstOnce(f);
      MemberAt(f, 0);
      assert s[1..] == f[1..] + [x];
      MembersAppend(f[1..], x);
    }
  }
}
