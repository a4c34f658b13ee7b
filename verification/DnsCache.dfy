/** What the DNS cache of dnscache.c stores and answers, and how its count of
    persistent entries can go wrong. The linked lists are in `DnsList`. */
module DnsCache {

  datatype Key = Key(family: nat, address: nat)

  /** A resolved host name, or the fact that there is none. */
  datatype Host = Known(name: string) | Failed

  /** `resolved` is zero for persistent entries, which never expire. */
  datatype Stored = Stored(key: Key, host: Host, resolved: int)

  /** The dynamic and the persistent entries, oldest first, the count kept of
      the persistent ones, and the capacity for the others. */
  datatype Cache = Cache(dyn: seq<Stored>, pers: seq<Stored>, count: int, size: int)

  datatype Lifetimes = Lifetimes(expire: int, expireFailed: int)

  datatype Answer = NotCached | Cached(host: Host)

  predicate Has(s: seq<Stored>, key: Key) {
    exists i :: 0 <= i < |s| && s[i].key == key
  }

  /** The list without the entries for `key`. */
  function Without(s: seq<Stored>, key: Key): seq<Stored> {
    if s == [] then []
    else (if s[0].key == key then [] else [s[0]]) + Without(s[1..], key)
  }

  /** `dns_cache_store`; `persistent` entries carry the time zero. The result is
      `Aborted` when the code evicts the end marker of an empty list, which ends
      in an assertion. */
  datatype Outcome = Aborted | Done(cache: Cache)

  function AfterReplace(c: Cache, persistent: bool, e: Stored): Cache {
    var known := Has(c.dyn, e.key) || Has(c.pers, e.key);
    Cache(Without(c.dyn, e.key) + if persistent then [] else [e],
          Without(c.pers, e.key) + if persistent then [e] else [],
          if persistent && !known then c.count + 1 else c.count, c.size)
  }

  function AfterEvict(c: Cache): Outcome {
    if |c.dyn| + |c.pers| - c.count <= c.size then Done(c)
    else if c.dyn == [] then Aborted
    else Done(c.(dyn := c.dyn[1..]))
  }

  function AfterStore(c: Cache, persistent: bool, e: Stored): Outcome {
    AfterEvict(AfterReplace(c, persistent, e))
  }

  /** `dns_cache_cleanup_persistent_hosts`. */
  function AfterCleanup(c: Cache): Cache {
    c.(pers := [], count := c.count - |c.pers|)
  }

  predicate Expired(e: Stored, now: int, t: Lifetimes) {
    e.resolved != 0 && e.resolved < now - if e.host.Known? then t.expire else t.expireFailed
  }

  function Find(s: seq<Stored>, key: Key): Answer {
    if s == [] then NotCached else if s[0].key == key then Cached(s[0].host) else Find(s[1..], key)
  }

  /** The answers that are still valid at time `now`. */
  function Fresh(s: seq<Stored>, now: int, t: Lifetimes): seq<Stored> {
    if s == [] then []
    else (if Expired(s[0], now, t) then [] else [s[0]]) + Fresh(s[1..], now, t)
  }

  /** `dns_cache_lookup`. */
  function Lookup(c: Cache, key: Key, now: int, t: Lifetimes): Answer {
    Find(Fresh(c.dyn + c.pers, now, t), key)
  }

  // ---------------------------------------------------------------------
  // Distinct keys
  // ---------------------------------------------------------------------

  ghost predicate DistinctKeys(s: seq<Stored>) {
    forall i, j :: 0 <= i < j < |s| ==> s[i].key != s[j].key
  }

  ghost predicate Valid(c: Cache) {
    DistinctKeys(c.dyn) && DistinctKeys(c.pers) && Apart(c.dyn, c.pers)
  }

  lemma {:induction false} HasTail(s: seq<Stored>, key: Key)
    requires s != [] && DistinctKeys(s)
    ensures s[0].key == key ==> Has(s, key) && !Has(s[1..], key)
    ensures s[0].key != key ==> (Has(s, key) <==> Has(s[1..], key))
  {
    assert forall i :: 0 <= i < |s[1..]| ==> s[1..][i] == s[i + 1];
    if Has(s, key) {
      var i :| 0 <= i < |s| && s[i].key == key;
      assert i > 0 ==> s[1..][i - 1].key == key;
    }
  }

  lemma {:induction false} WithoutAbsent(s: seq<Stored>, key: Key)
    requires !Has(s, key)
    ensures Without(s, key) == s
  {
    if s != [] {
      assert s[0].key != key;
      assert forall i :: 0 <= i < |s[1..]| ==> s[1..][i] == s[i + 1];
      WithoutAbsent(s[1..], key);
    }
  }

  /** Every entry that is left was there and has another key; one entry less is
      left exactly if the key was there. */
  lemma {:induction false} WithoutMeans(s: seq<Stored>, key: Key)
    requires DistinctKeys(s)
    ensures var r := Without(s, key);
      && DistinctKeys(r)
      && (forall i :: 0 <= i < |r| ==> r[i] in s && r[i].key != key)
      && (forall i :: 0 <= i < |s| && s[i].key != key ==> s[i] in r)
      && |r| == |s| - if Has(s, key) then 1 else 0
  {
    if s != [] {
      HasTail(s, key);
      if s[0].key == key {
        WithoutAbsent(s[1..], key);
        assert Without(s, key) == s[1..];
      } else {
        WithoutMeans(s[1..], key);
        WithoutKeepsHead(s, key);
      }
    }
  }

  lemma {:induction false} WithoutKeepsHead(s: seq<Stored>, key: Key)
    requires s != [] && DistinctKeys(s) && s[0].key != key
    requires var r := Without(s[1..], key);
      && DistinctKeys(r)
      && (forall i :: 0 <= i < |r| ==> r[i] in s[1..] && r[i].key != key)
      && (forall i :: 0 <= i < |s[1..]| && s[1..][i].key != key ==> s[1..][i] in r)
    ensures var r := Without(s, key);
      && DistinctKeys(r)
      && (forall i :: 0 <= i < |r| ==> r[i] in s && r[i].key != key)
      && (forall i :: 0 <= i < |s| && s[i].key != key ==> s[i] in r)
  {
    var later := Without(s[1..], key);
    var r := Without(s, key);
    assert r == [s[0]] + later;
    forall i | 0 <= i < |later| ensures later[i] in s && later[i].key != s[0].key {
      assert later[i] in s[1..];
      var j :| 0 <= j < |s[1..]| && s[1..][j] == later[i];
      assert s[j + 1] == later[i];
    }
    forall i | 0 <= i < |s| && s[i].key != key ensures s[i] in r {
      if i > 0 {
        assert s[i] == s[1..][i - 1];
      }
    }
  }

  lemma {:induction false} SnocDistinct(s: seq<Stored>, e: Stored)
    requires DistinctKeys(s)
    ensures DistinctKeys(Without(s, e.key) + [e])
  {
    WithoutMeans(s, e.key);
  }

  ghost predicate Apart(a: seq<Stored>, b: seq<Stored>) {
    forall i, j :: 0 <= i < |a| && 0 <= j < |b| ==> a[i].key != b[j].key
  }

  lemma {:induction false} WithoutApart(a: seq<Stored>, b: seq<Stored>, e: Stored)
    requires DistinctKeys(a) && DistinctKeys(b) && Apart(a, b)
    ensures Apart(Without(a, e.key), Without(b, e.key))
    ensures Apart(Without(a, e.key), [e]) && Apart([e], Without(b, e.key))
  {
    WithoutMeans(a, e.key);
    WithoutMeans(b, e.key);
    var d, p := Without(a, e.key), Without(b, e.key);
    forall i, j | 0 <= i < |d| && 0 <= j < |p| ensures d[i].key != p[j].key {
      assert d[i] in a && p[j] in b;
    }
  }

  lemma {:induction false} StoreKeepsValid(c: Cache, persistent: bool, e: Stored)
    requires Valid(c)
    ensures Valid(AfterReplace(c, persistent, e))
    ensures AfterStore(c, persistent, e).Done? ==> Valid(AfterStore(c, persistent, e).cache)
  {
    SnocDistinct(c.dyn, e);
    SnocDistinct(c.pers, e);
    WithoutApart(c.dyn, c.pers, e);
    WithoutMeans(c.dyn, e.key);
    WithoutMeans(c.pers, e.key);
    var r := AfterReplace(c, persistent, e);
    assert DistinctKeys(r.dyn) && DistinctKeys(r.pers) && Apart(r.dyn, r.pers);
  }

  // ---------------------------------------------------------------------
  // The count of persistent entries
  // ---------------------------------------------------------------------

  /** How far the count is off. */
  function Drift(c: Cache): int {
    c.count - |c.pers|
  }

  /** The exact law: a store moves the drift if and only if it replaces an entry
      of the other kind, up when a persistent entry is lost and down when one is
      gained. */
  lemma {:induction false} DriftLaw(c: Cache, persistent: bool, e: Stored)
    requires Valid(c)
    ensures Drift(AfterReplace(c, persistent, e)) == Drift(c)
      + (if !persistent && Has(c.pers, e.key) then 1 else 0)
      - (if persistent && Has(c.dyn, e.key) then 1 else 0)
  {
    WithoutMeans(c.pers, e.key);
    if persistent && Has(c.dyn, e.key) {
      assert !Has(c.pers, e.key);
    }
  }

  /** The dynamic entries exceed the capacity by at most what the count is off. */
  ghost predicate Bounded(c: Cache) {
    Valid(c) && c.size >= 0 && |c.dyn| <= c.size + Drift(c)
  }

  /** No store aborts or loses a persistent entry of another key, and the bound
      is kept. An entry is evicted exactly if a dynamic entry with a key that is
      new to the cache is stored when the bound is reached, and then it is the
      one stored longest ago. */
  lemma {:induction false} StoreWithinCapacity(c: Cache, persistent: bool, e: Stored)
    requires Bounded(c)
    ensures var r := AfterStore(c, persistent, e);
      var kept := Without(c.dyn, e.key) + if persistent then [] else [e];
      var full := !persistent && !Has(c.dyn, e.key) && !Has(c.pers, e.key) && |c.dyn| == c.size + Drift(c);
      && r.Done? && Bounded(r.cache) && r.cache.size == c.size
      && r.cache.pers == Without(c.pers, e.key) + (if persistent then [e] else [])
      && r.cache.dyn == if full then kept[1..] else kept
  {
    DriftLaw(c, persistent, e);
    WithoutMeans(c.dyn, e.key);
    WithoutMeans(c.pers, e.key);
    StoreKeepsValid(c, persistent, e);
  }

  /** A store over an entry of the other kind does break the count: an address
      that was resolved first and is then listed in the hosts file. The capacity
      is one less then: the next address that is resolved is not kept. */
  lemma {:induction false} DriftHappens()
    ensures var key, other := Key(2, 1), Key(2, 9);
      var ops := [Store(false, Stored(key, Known("a"), 5)), Store(true, Stored(key, Known("b"), 0))];
      && AfterOps(Empty(1), ops) == Done(Cache([], [Stored(key, Known("b"), 0)], 0, 1))
      && AfterOps(Empty(1), ops + [Store(false, Stored(other, Known("c"), 6))]) == AfterOps(Empty(1), ops)
  {
    var key, other := Key(2, 1), Key(2, 9);
    var a, b, x := Stored(key, Known("a"), 5), Stored(key, Known("b"), 0), Stored(other, Known("c"), 6);
    var ops := [Store(false, a), Store(true, b)];
    assert AfterStore(Empty(1), false, a) == Done(Cache([a], [], 0, 1));
    var c1 := Cache([a], [], 0, 1);
    assert Has(c1.dyn, key) by { assert c1.dyn[0].key == key; }
    assert Without([a], key) == [] by { assert [a][1..] == []; }
    assert AfterStore(c1, true, b) == Done(Cache([], [b], 0, 1));
    var c2 := Cache([], [b], 0, 1);
    assert Without([b], other) == [b] by { assert [b][1..] == []; }
    assert AfterStore(c2, false, x) == Done(c2);
    OpsSnoc(Empty(1), [], Store(false, a));
    OpsSnoc(Empty(1), [Store(false, a)], Store(true, b));
    OpsSnoc(Empty(1), ops, Store(false, x));
    assert [] + [Store(false, a)] == [Store(false, a)] && [Store(false, a)] + [Store(true, b)] == ops;
  }

  /** The other way round the capacity is exceeded: a listed address that is
      stored as a dynamic one makes room for one entry too many. */
  lemma {:induction false} CapacityExceeded()
    ensures var key, other := Key(2, 1), Key(2, 9);
      var c := Cache([], [Stored(key, Known("b"), 0)], 1, 1);
      var d := Cache([Stored(key, Known("a"), 5)], [], 1, 1);
      && Bounded(c) && AfterStore(c, false, d.dyn[0]) == Done(d) && Drift(d) == 1
      && AfterStore(d, false, Stored(other, Known("c"), 6))
        == Done(Cache([d.dyn[0], Stored(other, Known("c"), 6)], [], 1, 1))
  {
    var key, other := Key(2, 1), Key(2, 9);
    var a, b := Stored(key, Known("a"), 5), Stored(key, Known("b"), 0);
    var c, d := Cache([], [b], 1, 1), Cache([a], [], 1, 1);
    assert Has(c.pers, key) by { assert c.pers[0].key == key; }
    assert Without([b], key) == [] by { assert [b][1..] == []; }
    assert Without([a], other) == [a] by { assert [a][1..] == []; }
  }

  /** A capacity that is lowered while entries are stored can let a store evict
      from an empty list, and so abort; `NeverAbortsExactly` says when. */
  lemma {:induction false} LoweredCapacityAborts()
    ensures var a, b := Stored(Key(2, 1), Known("a"), 5), Stored(Key(2, 1), Known("b"), 0);
      && Bounded(Cache([a], [], 0, 1)) && AfterStore(Cache([a], [], 0, 0), true, b).Aborted?
  {
    var a := Stored(Key(2, 1), Known("a"), 5);
    assert Has([a], Key(2, 1)) by { assert [a][0].key == Key(2, 1); }
    assert Without([a], Key(2, 1)) == [] by { assert [a][1..] == []; }
  }

  // ---------------------------------------------------------------------
  // Answers
  // ---------------------------------------------------------------------

  lemma {:induction false} FoundInList(s: seq<Stored>, key: Key, host: Host, now: int, t: Lifetimes)
    requires DistinctKeys(s)
    ensures Find(Fresh(s, now, t), key) == Cached(host) <==>
      exists i :: 0 <= i < |s| && s[i].key == key && s[i].host == host && !Expired(s[i], now, t)
  {
    if s != [] {
      var rest := s[1..];
      FoundInList(rest, key, host, now, t);
      assert forall i :: 0 <= i < |rest| ==> rest[i] == s[i + 1];
      if s[0].key == key {
        NotFound(rest, key, now, t);
      }
      if Find(Fresh(rest, now, t), key) == Cached(host) && s[0].key != key {
        var i :| 0 <= i < |rest| && rest[i].key == key && rest[i].host == host && !Expired(rest[i], now, t);
        assert s[i + 1].key == key;
      }
      FreshHead(s, now, t);
    }
  }

  lemma {:induction false} FreshHead(s: seq<Stored>, now: int, t: Lifetimes)
    requires s != []
    ensures Expired(s[0], now, t) ==> Fresh(s, now, t) == Fresh(s[1..], now, t)
    ensures !Expired(s[0], now, t) ==>
      Fresh(s, now, t)[0] == s[0] && Fresh(s, now, t)[1..] == Fresh(s[1..], now, t)
  {
  }

  lemma {:induction false} NotFound(s: seq<Stored>, key: Key, now: int, t: Lifetimes)
    requires forall i :: 0 <= i < |s| ==> s[i].key != key
    ensures Find(Fresh(s, now, t), key) == NotCached
  {
    if s != [] {
      NotFound(s[1..], key, now, t);
      FreshHead(s, now, t);
    }
  }

  lemma {:induction false} BothListsDistinct(c: Cache)
    requires Valid(c)
    ensures DistinctKeys(c.dyn + c.pers)
  {
  }

  /** A stored entry answers, from whichever list, exactly until it is older than
      the lifetime of its kind: that of resolved names or that of failures. Listed
      entries have the time zero and always answer. */
  lemma {:induction false} StoredAnswers(c: Cache, e: Stored, now: int, t: Lifetimes)
    requires Valid(c) && e in c.dyn + c.pers
    ensures Lookup(c, e.key, now, t) ==
      if e.resolved == 0 || now - e.resolved <= (if e.host == Failed then t.expireFailed else t.expire)
      then Cached(e.host) else NotCached
  {
    var s := c.dyn + c.pers;
    BothListsDistinct(c);
    var i :| 0 <= i < |s| && s[i] == e;
    FoundInList(s, e.key, e.host, now, t);
    match Lookup(c, e.key, now, t) {
      case NotCached =>
      case Cached(host) => FoundInList(s, e.key, host, now, t);
    }
  }

  /** An answer is given exactly for an entry of either list that is not too old. */
  lemma {:induction false} FoundExactly(c: Cache, key: Key, host: Host, now: int, t: Lifetimes)
    requires Valid(c)
    ensures Lookup(c, key, now, t) == Cached(host) <==>
      exists resolved :: Stored(key, host, resolved) in c.dyn + c.pers &&
        (resolved == 0 || now - resolved <= if host == Failed then t.expireFailed else t.expire)
  {
    var s := c.dyn + c.pers;
    BothListsDistinct(c);
    FoundInList(s, key, host, now, t);
    if Lookup(c, key, now, t) == Cached(host) {
      var i :| 0 <= i < |s| && s[i].key == key && s[i].host == host && !Expired(s[i], now, t);
      assert s[i] == Stored(key, host, s[i].resolved);
    }
    forall resolved | Stored(key, host, resolved) in s
      ensures Lookup(c, key, now, t) == Cached(host) <==>
        (resolved == 0 || now - resolved <= if host == Failed then t.expireFailed else t.expire)
    {
      StoredAnswers(c, Stored(key, host, resolved), now, t);
    }
  }

  /** A key on neither list has no answer. */
  lemma {:induction false} UnknownNotCached(c: Cache, key: Key, now: int, t: Lifetimes)
    requires !Has(c.dyn, key) && !Has(c.pers, key)
    ensures Lookup(c, key, now, t) == NotCached
  {
    var s := c.dyn + c.pers;
    forall i | 0 <= i < |s| ensures s[i].key != key {
      if i < |c.dyn| {
        assert s[i] == c.dyn[i];
      } else {
        assert s[i] == c.pers[i - |c.dyn|];
      }
    }
    NotFound(s, key, now, t);
  }

  /** Dropping what the hosts file said leaves the resolved addresses their answers
      and the others none, and the count as far off as it was. */
  lemma {:induction false} CleanupForgetsListed(c: Cache, key: Key, now: int, t: Lifetimes)
    requires Valid(c)
    ensures Valid(AfterCleanup(c)) && Drift(AfterCleanup(c)) == Drift(c)
    ensures Lookup(AfterCleanup(c), key, now, t) == if Has(c.dyn, key) then Lookup(c, key, now, t) else NotCached
  {
    var r := AfterCleanup(c);
    if Has(c.dyn, key) {
      var i :| 0 <= i < |c.dyn| && c.dyn[i].key == key;
      assert c.dyn[i] in c.dyn + c.pers && c.dyn[i] in r.dyn + r.pers;
      StoredAnswers(c, c.dyn[i], now, t);
      StoredAnswers(r, c.dyn[i], now, t);
    } else {
      UnknownNotCached(r, key, now, t);
    }
  }

  ghost predicate HoldsAt(c: Cache, key: Key, host: Host, resolved: int) {
    Stored(key, host, resolved) in c.dyn + c.pers
  }

  /** The cache refines a map with time stamps: a store that does not evict its
      own entry makes the key answer the new host, and every other key answers
      as before unless its entry is the one evicted. */
  lemma {:induction false} StoreUpdatesMap(c: Cache, persistent: bool, e: Stored, key: Key, host: Host, resolved: int)
    requires Valid(c) && AfterStore(c, persistent, e).Done?
    ensures var replaced := AfterReplace(c, persistent, e);
      var r := AfterStore(c, persistent, e).cache;
      var evicted := |replaced.dyn| > |r.dyn|;
      HoldsAt(r, key, host, resolved) <==>
        && (if key == e.key then Stored(key, host, resolved) == e else HoldsAt(c, key, host, resolved))
        && !(evicted && replaced.dyn[0] == Stored(key, host, resolved))
  {
    var x := Stored(key, host, resolved);
    var replaced := AfterReplace(c, persistent, e);
    StoreKeepsValid(c, persistent, e);
    ReplacedMembers(c, persistent, e, x);
    var r := AfterStore(c, persistent, e).cache;
    if |replaced.dyn| > |r.dyn| {
      assert r.dyn == replaced.dyn[1..];
      TailMembers(replaced.dyn, x);
      assert x == replaced.dyn[0] ==> x !in replaced.pers;
    }
  }

  lemma {:induction false} TailMembers(s: seq<Stored>, x: Stored)
    requires s != [] && DistinctKeys(s)
    ensures x in s[1..] <==> x in s && x != s[0]
  {
    if x in s && x != s[0] {
      var i :| 0 <= i < |s| && s[i] == x;
      assert s[1..][i - 1] == x;
    }
  }

  lemma {:induction false} ReplacedMembers(c: Cache, persistent: bool, e: Stored, x: Stored)
    requires Valid(c)
    ensures var r := AfterReplace(c, persistent, e);
      x in r.dyn + r.pers <==> if x.key == e.key then x == e else x in c.dyn + c.pers
  {
    WithoutMembers(c.dyn, e.key, x);
    WithoutMembers(c.pers, e.key, x);
  }

  lemma {:induction false} WithoutMembers(s: seq<Stored>, key: Key, x: Stored)
    requires DistinctKeys(s)
    ensures x in Without(s, key) <==> x in s && x.key != key
  {
    WithoutMeans(s, key);
  }

  // ---------------------------------------------------------------------
  // Oldest first
  // ---------------------------------------------------------------------

  /** The dynamic entries are in the order of their times. */
  ghost predicate Ordered(s: seq<Stored>) {
    forall i, j :: 0 <= i < j < |s| ==> s[i].resolved <= s[j].resolved
  }

  lemma {:induction false} WithoutKeepsOrder(s: seq<Stored>, key: Key)
    requires Ordered(s)
    ensures Ordered(Without(s, key))
    ensures forall i :: 0 <= i < |Without(s, key)| ==> Without(s, key)[i] in s
  {
    if s != [] {
      WithoutKeepsOrder(s[1..], key);
      var later := Without(s[1..], key);
      forall i | 0 <= i < |later| ensures s[0].resolved <= later[i].resolved && later[i] in s {
        var j :| 0 <= j < |s[1..]| && s[1..][j] == later[i];
        assert s[j + 1] == later[i];
      }
    }
  }

  /** As long as the clock does not go back, what is evicted is an entry that no
      other dynamic entry is older than. */
  lemma {:induction false} EvictsOldest(c: Cache, persistent: bool, e: Stored)
    requires Ordered(c.dyn) && AfterStore(c, persistent, e).Done?
    requires forall i :: 0 <= i < |c.dyn| ==> c.dyn[i].resolved <= e.resolved || persistent
    ensures var replaced := AfterReplace(c, persistent, e);
      var r := AfterStore(c, persistent, e).cache;
      && Ordered(r.dyn)
      && (|replaced.dyn| > |r.dyn| ==>
            forall i :: 0 <= i < |r.dyn| ==> replaced.dyn[0].resolved <= r.dyn[i].resolved)
  {
    WithoutKeepsOrder(c.dyn, e.key);
  }

  // ---------------------------------------------------------------------
  // Every run
  // ---------------------------------------------------------------------

  datatype Op = Store(persistent: bool, entry: Stored) | Cleanup

  function AfterOp(c: Cache, op: Op): Outcome {
    match op
    case Store(persistent, e) => AfterStore(c, persistent, e)
    case Cleanup => Done(AfterCleanup(c))
  }

  function AfterOps(c: Cache, ops: seq<Op>): Outcome
    decreases |ops|
  {
    if ops == [] then Done(c)
    else match AfterOp(c, ops[0])
      case Aborted => Aborted
      case Done(next) => AfterOps(next, ops[1..])
  }

  function Empty(size: int): Cache {
    Cache([], [], 0, size)
  }

  lemma {:induction false} OpsSnoc(c: Cache, ops: seq<Op>, op: Op)
    ensures AfterOps(c, ops + [op]) ==
      match AfterOps(c, ops) { case Aborted => Aborted case Done(d) => AfterOp(d, op) }
    decreases |ops|
  {
    if ops == [] {
      assert (ops + [op])[1..] == [];
    } else {
      assert (ops + [op])[1..] == ops[1..] + [op];
      if AfterOp(c, ops[0]).Done? {
        OpsSnoc(AfterOp(c, ops[0]).cache, ops[1..], op);
      }
    }
  }

  lemma {:induction false} OpKeepsBounded(c: Cache, op: Op)
    requires Bounded(c)
    ensures AfterOp(c, op).Done? && Bounded(AfterOp(c, op).cache) && AfterOp(c, op).cache.size == c.size
  {
    if op.Store? {
      StoreWithinCapacity(c, op.persistent, op.entry);
    }
  }

  /** Within the bound no run aborts, and every run keeps the bound: the dynamic
      entries exceed the capacity by at most what the count is off. */
  lemma {:induction false} RunKeepsBounded(c: Cache, ops: seq<Op>)
    requires Bounded(c)
    ensures AfterOps(c, ops).Done? && Bounded(AfterOps(c, ops).cache) && AfterOps(c, ops).cache.size == c.size
    decreases |ops|
  {
    if ops != [] {
      OpKeepsBounded(c, ops[0]);
      RunKeepsBounded(AfterOp(c, ops[0]).cache, ops[1..]);
    }
  }

  /** The operation does not store an address over an entry of the other kind. */
  predicate Straight(c: Cache, op: Op) {
    op.Store? ==> !Has(if op.persistent then c.dyn else c.pers, op.entry.key)
  }

  ghost predicate Uncrossed(c: Cache, ops: seq<Op>)
    decreases |ops|
  {
    ops == [] ||
    (Straight(c, ops[0]) && (AfterOp(c, ops[0]).Done? ==> Uncrossed(AfterOp(c, ops[0]).cache, ops[1..])))
  }

  ghost predicate Sound(c: Cache) {
    Valid(c) && c.count == |c.pers| && |c.dyn| <= c.size
  }

  /** After every beginning of the run the count is the number of persistent
      entries and the dynamic ones are within the capacity. */
  ghost predicate SoundThroughout(c: Cache, ops: seq<Op>)
    decreases |ops|
  {
    Sound(c) && (ops == [] || (AfterOp(c, ops[0]).Done? && SoundThroughout(AfterOp(c, ops[0]).cache, ops[1..])))
  }

  lemma {:induction false} OpSound(c: Cache, op: Op)
    requires Sound(c)
    ensures AfterOp(c, op).Done? && (Sound(AfterOp(c, op).cache) <==> Straight(c, op))
  {
    OpKeepsBounded(c, op);
    if op.Store? {
      DriftLaw(c, op.persistent, op.entry);
      BothKinds(c, op.entry.key);
    }
  }

  /** No key is stored both ways. */
  lemma {:induction false} BothKinds(c: Cache, key: Key)
    requires Valid(c)
    ensures !(Has(c.dyn, key) && Has(c.pers, key))
  {
  }

  /** The count stays right, and with it the capacity, throughout a run if and
      only if the run never stores an address over an entry of the other kind. */
  lemma {:induction false} RunKeepsSound(c: Cache, ops: seq<Op>)
    requires Sound(c)
    ensures SoundThroughout(c, ops) <==> Uncrossed(c, ops)
    decreases |ops|
  {
    if ops != [] {
      OpKeepsBounded(c, ops[0]);
      OpSound(c, ops[0]);
      if Straight(c, ops[0]) {
        RunKeepsSound(AfterOp(c, ops[0]).cache, ops[1..]);
      }
    }
  }

  // ---------------------------------------------------------------------
  // The resolver's use of the cache
  // ---------------------------------------------------------------------

  /** What the program does with the cache: it resolves an address that the cache
      does not answer and stores the outcome (`asked` and `stored` are the times
      of the two calls), it enters a line of the hosts file, and it drops what
      the hosts file said. */
  datatype Use =
    | Resolve(key: Key, host: Host, asked: int, stored: int, t: Lifetimes)
    | List(key: Key, name: string)
    | Drop

  function AfterUse(c: Cache, use: Use): Outcome {
    match use
    case Resolve(key, host, asked, stored, t) =>
      if Lookup(c, key, asked, t).Cached? then Done(c) else AfterStore(c, false, Stored(key, host, stored))
    case List(key, name) => AfterStore(c, true, Stored(key, Known(name), 0))
    case Drop => Done(AfterCleanup(c))
  }

  function AfterUses(c: Cache, uses: seq<Use>): Outcome
    decreases |uses|
  {
    if uses == [] then Done(c)
    else match AfterUse(c, uses[0])
      case Aborted => Aborted
      case Done(next) => AfterUses(next, uses[1..])
  }

  ghost predicate Timeless(s: seq<Stored>) {
    forall i :: 0 <= i < |s| ==> s[i].resolved == 0
  }

  /** What the resolver keeps: the count is never too high. */
  ghost predicate InUse(c: Cache) {
    Bounded(c) && Drift(c) <= 0 && Timeless(c.pers)
  }

  /** An address that the cache does not answer is not a listed one. */
  lemma {:induction false} UnansweredIsNotListed(c: Cache, key: Key, now: int, t: Lifetimes)
    requires Valid(c) && Timeless(c.pers) && Lookup(c, key, now, t) == NotCached
    ensures !Has(c.pers, key)
  {
    if Has(c.pers, key) {
      var i :| 0 <= i < |c.pers| && c.pers[i].key == key;
      var s := c.dyn + c.pers;
      assert s[|c.dyn| + i] == c.pers[i];
      assert DistinctKeys(s);
      FoundInList(s, key, c.pers[i].host, now, t);
    }
  }

  lemma {:induction false} UseKeepsInUse(c: Cache, use: Use)
    requires InUse(c)
    ensures AfterUse(c, use).Done? && InUse(AfterUse(c, use).cache) && AfterUse(c, use).cache.size == c.size
  {
    match use {
      case Resolve(key, host, asked, stored, t) =>
        if Lookup(c, key, asked, t) == NotCached {
          UnansweredIsNotListed(c, key, asked, t);
          StoreWithinCapacity(c, false, Stored(key, host, stored));
          DriftLaw(c, false, Stored(key, host, stored));
          WithoutAbsent(c.pers, key);
        }
      case List(key, name) =>
        StoreWithinCapacity(c, true, Stored(key, Known(name), 0));
        DriftLaw(c, true, Stored(key, Known(name), 0));
        WithoutMeans(c.pers, key);
      case Drop =>
    }
  }

  /** Used by the resolver, from the empty cache on, the cache never aborts and
      never holds more dynamic entries than its capacity. */
  lemma {:induction false} ResolverKeepsCapacity(c: Cache, uses: seq<Use>)
    requires InUse(c)
    ensures AfterUses(c, uses).Done? && InUse(AfterUses(c, uses).cache)
    ensures |AfterUses(c, uses).cache.dyn| <= c.size
    decreases |uses|
  {
    if uses != [] {
      UseKeepsInUse(c, uses[0]);
      ResolverKeepsCapacity(AfterUse(c, uses[0]).cache, uses[1..]);
    }
  }

  /** What the resolver asks is answered from then on: an answered address changes
      nothing, and any other is stored with the outcome, if there is room at all. */
  lemma {:induction false} ResolveStores(c: Cache, key: Key, host: Host, asked: int, stored: int, t: Lifetimes)
    requires InUse(c) && c.size + Drift(c) >= 1
    ensures var r := AfterUse(c, Resolve(key, host, asked, stored, t));
      if Lookup(c, key, asked, t) != NotCached then r == Done(c)
      else r.Done? && HoldsAt(r.cache, key, host, stored)
  {
    var e := Stored(key, host, stored);
    if Lookup(c, key, asked, t) == NotCached {
      UnansweredIsNotListed(c, key, asked, t);
      StoreWithinCapacity(c, false, e);
      if !Has(c.dyn, key) {
        WithoutAbsent(c.dyn, key);
      }
      var kept := Without(c.dyn, key) + [e];
      var r := AfterStore(c, false, e).cache;
      assert kept[|kept| - 1] == e;
      assert r.dyn[|r.dyn| - 1] == e;
    }
  }

  lemma {:induction false} EmptyInUse(size: int)
    requires size >= 0
    ensures InUse(Empty(size)) && Sound(Empty(size))
  {
  }

  // ---------------------------------------------------------------------
  // When the capacity may be lowered
  // ---------------------------------------------------------------------

  /** The dynamic entries are at most twice what there is room for. */
  ghost predicate WithinTwice(c: Cache) {
    Valid(c) && |c.dyn| <= 2 * (c.size + Drift(c))
  }

  lemma {:induction false} OpKeepsWithinTwice(c: Cache, op: Op)
    requires WithinTwice(c)
    ensures AfterOp(c, op).Done? && WithinTwice(AfterOp(c, op).cache)
  {
    if op.Store? {
      DriftLaw(c, op.persistent, op.entry);
      WithoutMeans(c.dyn, op.entry.key);
      StoreKeepsValid(c, op.persistent, op.entry);
      BothKinds(c, op.entry.key);
    }
  }

  lemma {:induction false} RunKeepsWithinTwice(c: Cache, ops: seq<Op>)
    requires WithinTwice(c)
    ensures AfterOps(c, ops).Done?
    decreases |ops|
  {
    if ops != [] {
      OpKeepsWithinTwice(c, ops[0]);
      RunKeepsWithinTwice(AfterOp(c, ops[0]).cache, ops[1..]);
    }
  }

  /** The operations that a use consists of. */
  function OpsOf(c: Cache, use: Use): seq<Op> {
    match use
    case Resolve(key, host, asked, stored, t) =>
      if Lookup(c, key, asked, t).Cached? then [] else [Store(false, Stored(key, host, stored))]
    case List(key, name) => [Store(true, Stored(key, Known(name), 0))]
    case Drop => [Cleanup]
  }

  /** Whatever a cache of the resolver goes through is a run of operations. */
  lemma {:induction false} UsesAreOps(c: Cache, uses: seq<Use>) returns (ops: seq<Op>)
    ensures AfterUses(c, uses) == AfterOps(c, ops)
    decreases |uses|
  {
    ops := [];
    if uses != [] {
      var first := OpsOf(c, uses[0]);
      if AfterUse(c, uses[0]).Done? {
        ops := UsesAreOps(AfterUse(c, uses[0]).cache, uses[1..]);
      }
      if first == [] {
        assert AfterUse(c, uses[0]) == Done(c);
      } else {
        assert AfterUse(c, uses[0]) == AfterOp(c, first[0]) && ([first[0]] + ops)[1..] == ops;
        ops := [first[0]] + ops;
      }
    }
  }

  /** Listing the oldest dynamic address frees two places and needs one. */
  lemma {:induction false} ListingCloses(c: Cache, name: string)
    requires Valid(c) && !WithinTwice(c)
    ensures var key := if c.dyn == [] then Key(0, 0) else c.dyn[0].key;
      var r := AfterUse(c, List(key, name));
      r.Done? ==> Valid(r.cache) && !WithinTwice(r.cache) && |r.cache.dyn| == |c.dyn| - 2
  {
    var key := if c.dyn == [] then Key(0, 0) else c.dyn[0].key;
    var e := Stored(key, Known(name), 0);
    DriftLaw(c, true, e);
    WithoutMeans(c.dyn, key);
    StoreKeepsValid(c, true, e);
  }

  /** With more of them the hosts file can bring the list to its end: every line
      of it that names the oldest dynamic address takes two entries off. */
  lemma {:induction false} ListingAborts(c: Cache) returns (uses: seq<Use>)
    requires Valid(c) && !WithinTwice(c)
    ensures AfterUses(c, uses).Aborted? && forall i :: 0 <= i < |uses| ==> uses[i].List?
    decreases |c.dyn|
  {
    var first := List(if c.dyn == [] then Key(0, 0) else c.dyn[0].key, "");
    ListingCloses(c, "");
    uses := [];
    if AfterUse(c, first).Done? {
      uses := ListingAborts(AfterUse(c, first).cache);
    }
    assert ([first] + uses)[1..] == uses;
    uses := [first] + uses;
  }

  ghost predicate NeverAborts(c: Cache) {
    forall ops: seq<Op> :: AfterOps(c, ops).Done?
  }

  ghost predicate ResolverNeverAborts(c: Cache) {
    forall uses: seq<Use> :: AfterUses(c, uses).Done?
  }

  /** A capacity of `size` from now on rules out an abort, for every run and just
      as well for the resolver's, exactly if the dynamic entries that are there
      are at most twice what it leaves room for. */
  lemma {:induction false} NeverAbortsExactly(c: Cache, size: int)
    requires Valid(c)
    ensures NeverAborts(c.(size := size)) <==> |c.dyn| <= 2 * (size + Drift(c))
    ensures ResolverNeverAborts(c.(size := size)) <==> |c.dyn| <= 2 * (size + Drift(c))
  {
    var lowered := c.(size := size);
    if WithinTwice(lowered) {
      forall ops ensures AfterOps(lowered, ops).Done? {
        RunKeepsWithinTwice(lowered, ops);
      }
      forall uses ensures AfterUses(lowered, uses).Done? {
        var ops := UsesAreOps(lowered, uses);
      }
    } else {
      var uses := ListingAborts(lowered);
      var ops := UsesAreOps(lowered, uses);
    }
  }
}
