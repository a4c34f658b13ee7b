/** The DNS cache of dnscache.c as it lies in memory: entries on two doubly
    linked lists with end markers, and a hash table that finds them by key. */
module DnsList {
  import opened Sequences
  import opened DnsCache

  class Entry {
    var prev: Entry?
    var next: Entry?
    const stored: Stored

    constructor (stored: Stored)
      ensures this.stored == stored && prev == null && next == null
    {
      this.stored := stored;
      prev, next := null, null;
    }
  }

  /** One list between its two markers; `items` are the entries, oldest first. */
  class EntryList {
    const first: Entry
    const last: Entry
    ghost var items: seq<Entry>
    ghost var Repr: set<object>

    ghost function Chain(): seq<Entry>
      reads this
    {
      [first] + items + [last]
    }

    /** The entries are different objects, linked both ways in order. */
    ghost predicate Valid()
      reads this, Repr
      ensures Valid() ==> this in Repr
    {
      var chain := Chain();
      && this in Repr && (forall i :: 0 <= i < |chain| ==> chain[i] in Repr)
      && Distinct(chain)
      && (forall i :: 0 <= i < |chain| - 1 ==> chain[i].next == chain[i + 1])
      && (forall i :: 0 < i < |chain| ==> chain[i].prev == chain[i - 1])
    }

    constructor ()
      ensures Valid() && items == [] && fresh(Repr)
    {
      var blank := Stored(Key(0, 0), Failed, 0);
      first := new Entry(blank);
      last := new Entry(blank);
      items := [];
      new;
      first.next, last.prev := last, first;
      Repr := {this, first, last};
    }

    /** `dns_cache_entry_insert_before` the end marker. */
    method Append(e: Entry)
      requires Valid() && e !in Repr
      modifies Repr, e
      ensures Valid() && items == old(items) + [e] && Repr == old(Repr) + {e}
    {
      ghost var chain := Chain();
      ghost var n := |chain|;
      assert last == chain[n - 1] && last.prev == chain[n - 2];
      var before := last.prev;
      before.next := e;
      e.prev := before;
      e.next := last;
      last.prev := e;
      items, Repr := items + [e], Repr + {e};
      assert Chain() == chain[..n - 1] + [e, last];
    }

    /** The entry stored longest ago, if there is one. */
    method Oldest() returns (e: Entry?)
      requires Valid()
      ensures if items == [] then e == null else e == items[0]
    {
      assert first == Chain()[0] && first.next == Chain()[1];
      e := null;
      if first.next != last {
        e := first.next;
      }
      assert items == [] ==> Chain()[1] == last;
      assert items != [] ==> Chain()[1] == items[0] && items[0] != Chain()[|items| + 1];
    }
  }

  lemma {:induction false} ChainWithout<T>(a: T, items: seq<T>, b: T, k: nat)
    requires k < |items|
    ensures [a] + (items[..k] + items[k + 1..]) + [b]
         == ([a] + items + [b])[..k + 1] + ([a] + items + [b])[k + 2..]
  {
  }

  lemma {:induction false} RemovedKeepsDistinct<T>(s: seq<T>, k: nat)
    requires Distinct(s) && k < |s|
    ensures Distinct(s[..k] + s[k + 1..]) && s[k] !in s[..k] + s[k + 1..]
  {
  }

  /** `dns_cache_entry_free`: the entry's neighbours are linked to each other. It
      need not know which list it is on; the proof does. */
  method FreeEntry(e: Entry, ghost list: EntryList, ghost k: nat)
    requires list.Valid() && k < |list.items| && list.items[k] == e
    modifies list.Repr
    ensures list.Valid() && list.Repr == old(list.Repr) && list.items == old(list.items)[..k] + old(list.items)[k + 1..]
  {
    ghost var chain := list.Chain();
    RemovedKeepsDistinct(chain, k + 1);
    assert e == chain[k + 1] && e.prev == chain[k] && e.next == chain[k + 2];
    var before, after := e.prev, e.next;
    before.next := after;
    after.prev := before;
    ChainWithout(list.first, list.items, list.last, k);
    list.items := list.items[..k] + list.items[k + 1..];
  }

  function Values(items: seq<Entry>): (s: seq<Stored>)
    ensures |s| == |items| && forall i :: 0 <= i < |items| ==> s[i] == items[i].stored
  {
    seq(|items|, i requires 0 <= i < |items| => items[i].stored)
  }

  // ---------------------------------------------------------------------
  // Lists of entries and the table, as values
  // ---------------------------------------------------------------------

  ghost predicate DifferentKeys(items: seq<Entry>) {
    DistinctKeys(Values(items))
  }

  /** The table finds exactly `items`, each by its key. */
  ghost predicate Indexes(table: map<Key, Entry>, items: seq<Entry>) {
    && DifferentKeys(items)
    && (forall k :: k in table ==> table[k] in items && table[k].stored.key == k)
    && (forall i :: 0 <= i < |items| ==> items[i].stored.key in table && table[items[i].stored.key] == items[i])
  }

  /** The list without the entries for `key`. */
  function Removed(items: seq<Entry>, key: Key): seq<Entry> {
    if items == [] then []
    else (if items[0].stored.key == key then [] else [items[0]]) + Removed(items[1..], key)
  }

  lemma {:induction false} RemovedValues(items: seq<Entry>, key: Key)
    ensures Values(Removed(items, key)) == Without(Values(items), key)
  {
    if items != [] {
      RemovedValues(items[1..], key);
      assert Values(items)[1..] == Values(items[1..]);
    }
  }

  lemma {:induction false} RemovedMembers(items: seq<Entry>, key: Key, e: Entry)
    ensures e in Removed(items, key) <==> e in items && e.stored.key != key
  {
    if items != [] {
      RemovedMembers(items[1..], key, e);
      assert e in items <==> e == items[0] || e in items[1..];
    }
  }

  lemma {:induction false} RemovedAbsent(items: seq<Entry>, key: Key)
    requires forall i :: 0 <= i < |items| ==> items[i].stored.key != key
    ensures Removed(items, key) == items
  {
    if items != [] {
      RemovedAbsent(items[1..], key);
    }
  }

  lemma {:induction false} RemovedAt(items: seq<Entry>, k: nat)
    requires DifferentKeys(items) && k < |items|
    ensures Removed(items, items[k].stored.key) == items[..k] + items[k + 1..]
  {
    if k == 0 {
      RemovedAbsent(items[1..], items[0].stored.key);
    } else {
      RemovedAt(items[1..], k - 1);
      assert items[1..][..k - 1] == items[1..k] && items[1..][k..] == items[k + 1..];
    }
  }

  lemma {:induction false} RemovedInFront(items: seq<Entry>, more: seq<Entry>, k: nat)
    requires DifferentKeys(items) && k < |items|
    ensures (items + more)[..k] + (items + more)[k + 1..] == Removed(items, items[k].stored.key) + more
  {
    RemovedAt(items, k);
    DropInFront(items, more, k);
  }

  lemma {:induction false} DropInFront<T>(a: seq<T>, b: seq<T>, k: nat)
    requires k < |a|
    ensures (a + b)[..k] + (a + b)[k + 1..] == (a[..k] + a[k + 1..]) + b
  {
  }

  /** With different keys all over, an entry's key is in one list only. */
  lemma {:induction false} RemovedEither(d: seq<Entry>, p: seq<Entry>, n: nat)
    requires DifferentKeys(d + p) && n < |d + p|
    ensures DifferentKeys(d) && DifferentKeys(p)
    ensures n < |d| ==> Removed(p, (d + p)[n].stored.key) == p
    ensures n >= |d| ==> Removed(d, (d + p)[n].stored.key) == d
  {
    var key := (d + p)[n].stored.key;
    assert Values(d + p) == Values(d) + Values(p) && Values(d + p)[n].key == key;
    KeysSplit(Values(d), Values(p));
    if n < |d| {
      forall i | 0 <= i < |p| ensures p[i].stored.key != key {
        assert Values(d)[n].key != Values(p)[i].key;
      }
      RemovedAbsent(p, key);
    } else {
      forall i | 0 <= i < |d| ensures d[i].stored.key != key {
        assert Values(d)[i].key != Values(p)[n - |d|].key;
      }
      RemovedAbsent(d, key);
    }
  }

  lemma {:induction false} KeysSplit(a: seq<Stored>, b: seq<Stored>)
    requires DistinctKeys(a + b)
    ensures DistinctKeys(a) && DistinctKeys(b) && Apart(a, b)
  {
    assert forall i :: 0 <= i < |a| ==> (a + b)[i] == a[i];
    assert forall i :: 0 <= i < |b| ==> (a + b)[|a| + i] == b[i];
  }

  /** Where the entry `o` is, and that taking it out there removes its key from
      both lists. */
  lemma {:induction false} PlaceOf(d: seq<Entry>, p: seq<Entry>, o: Entry, d': seq<Entry>, p': seq<Entry>)
    returns (onDynamic: bool, k: nat)
    requires DifferentKeys(d + p) && o in d + p
    ensures k < if onDynamic then |d| else |p|
    ensures o == if onDynamic then (d + d')[k] else (p + p')[k]
    ensures onDynamic ==> (d + d')[..k] + (d + d')[k + 1..] == Removed(d, o.stored.key) + d'
    ensures !onDynamic ==> (p + p')[..k] + (p + p')[k + 1..] == Removed(p, o.stored.key) + p'
    ensures if onDynamic then Removed(p, o.stored.key) == p else Removed(d, o.stored.key) == d
  {
    var n :| 0 <= n < |d + p| && (d + p)[n] == o;
    RemovedEither(d, p, n);
    onDynamic, k := n < |d|, if n < |d| then n else n - |d|;
    if onDynamic {
      RemovedInFront(d, d', k);
    } else {
      RemovedInFront(p, p', k);
    }
  }

  lemma {:induction false} AbsentEverywhere(table: map<Key, Entry>, d: seq<Entry>, p: seq<Entry>, key: Key)
    requires Indexes(table, d + p) && key !in table
    ensures Removed(d, key) == d && Removed(p, key) == p
  {
    assert forall i :: 0 <= i < |d| ==> (d + p)[i] == d[i];
    assert forall i :: 0 <= i < |p| ==> (d + p)[|d| + i] == p[i];
    RemovedAbsent(d, key);
    RemovedAbsent(p, key);
  }

  lemma {:induction false} RemovedKeepsDifferent(items: seq<Entry>, key: Key)
    requires DifferentKeys(items)
    ensures DifferentKeys(Removed(items, key))
  {
    if items != [] {
      RemovedKeepsDifferent(items[1..], key);
      var later := Removed(items[1..], key);
      forall i | 0 <= i < |later| ensures later[i].stored.key != items[0].stored.key {
        RemovedMembers(items[1..], key, later[i]);
      }
    }
  }

  lemma {:induction false} RemovedAppend(a: seq<Entry>, b: seq<Entry>, key: Key)
    ensures Removed(a + b, key) == Removed(a, key) + Removed(b, key)
  {
    if a == [] {
      assert a + b == b;
    } else {
      assert (a + b)[1..] == a[1..] + b;
      RemovedAppend(a[1..], b, key);
    }
  }

  /** Entering `e` into the table in place of the entry for its key, if any. */
  lemma {:induction false} IndexesReplaced(table: map<Key, Entry>, items: seq<Entry>, e: Entry)
    requires Indexes(table, items)
    ensures Indexes(table[e.stored.key := e], Removed(items, e.stored.key) + [e])
  {
    var key := e.stored.key;
    var rest := Removed(items, key);
    RemovedKeepsDifferent(items, key);
    forall i | 0 <= i < |rest| ensures rest[i] in items && rest[i].stored.key != key {
      RemovedMembers(items, key, rest[i]);
    }
    forall k | k in table && k != key ensures table[k] in rest {
      RemovedMembers(items, key, table[k]);
    }
  }

  lemma {:induction false} IndexesRemoved(table: map<Key, Entry>, items: seq<Entry>, key: Key)
    requires Indexes(table, items)
    ensures Indexes(table - {key}, Removed(items, key))
  {
    var rest := Removed(items, key);
    RemovedKeepsDifferent(items, key);
    forall i | 0 <= i < |rest| ensures rest[i] in items && rest[i].stored.key != key {
      RemovedMembers(items, key, rest[i]);
    }
    forall k | k in table && k != key ensures table[k] in rest {
      RemovedMembers(items, key, table[k]);
    }
  }

  /** The order of the entries does not matter to the table. */
  lemma {:induction false} IndexesReordered(table: map<Key, Entry>, a: seq<Entry>, b: seq<Entry>, c: seq<Entry>)
    requires Indexes(table, a + b + c)
    ensures Indexes(table, a + c + b)
  {
    var s, t := a + b + c, a + c + b;
    forall i | 0 <= i < |t| ensures t[i] in s {}
    forall i | 0 <= i < |s| ensures s[i] in t {}
    forall i, j | 0 <= i < j < |t| ensures t[i].stored.key != t[j].stored.key {
      var i' := if i < |a| then i else if i < |a| + |c| then i + |b| else i - |c|;
      var j' := if j < |a| then j else if j < |a| + |c| then j + |b| else j - |c|;
      assert t[i] == s[i'] && t[j] == s[j'];
    }
  }

  function KeysOf(items: seq<Entry>): set<Key> {
    set i | 0 <= i < |items| :: items[i].stored.key
  }

  lemma {:induction false} KeyCount(items: seq<Entry>)
    requires DifferentKeys(items)
    ensures |KeysOf(items)| == |items|
  {
    if items != [] {
      var n := |items| - 1;
      KeyCount(items[..n]);
      assert KeysOf(items) == KeysOf(items[..n]) + {items[n].stored.key};
    }
  }

  lemma {:induction false} TableSize(table: map<Key, Entry>, items: seq<Entry>)
    requires Indexes(table, items)
    ensures |table| == |items|
  {
    KeyCount(items);
    assert table.Keys == KeysOf(items);
    assert |table| == |table.Keys|;
  }

  lemma {:induction false} HasInTable(table: map<Key, Entry>, d: seq<Entry>, p: seq<Entry>, key: Key)
    requires Indexes(table, d + p)
    ensures key in table <==> Has(Values(d), key) || Has(Values(p), key)
    ensures key in table && table[key] in d ==> Has(Values(d), key) && !Has(Values(p), key)
    ensures key in table && table[key] in p ==> Has(Values(p), key) && !Has(Values(d), key)
  {
    assert forall i :: 0 <= i < |d| ==> (d + p)[i] == d[i];
    assert forall i :: 0 <= i < |p| ==> (d + p)[|d| + i] == p[i];
    if key in table {
      var e := table[key];
      if e in d {
        var i :| 0 <= i < |d| && d[i] == e;
        assert Values(d)[i].key == key;
      } else {
        var i :| 0 <= i < |p| && p[i] == e;
        assert Values(p)[i].key == key;
      }
    }
  }

  // ---------------------------------------------------------------------
  // The cache
  // ---------------------------------------------------------------------

  class DnsTable {
    var table: map<Key, Entry>
    const dynamic: EntryList
    const persistent: EntryList
    var persistentCount: int
    var size: int

    ghost function View(): Cache
      reads this, dynamic, persistent
    {
      Cache(Values(dynamic.items), Values(persistent.items), persistentCount, size)
    }

    ghost predicate ListsOk()
      reads this, dynamic, persistent, dynamic.Repr, persistent.Repr
    {
      && this !in dynamic.Repr && this !in persistent.Repr
      && dynamic.Repr !! persistent.Repr && dynamic.Valid() && persistent.Valid()
    }

    /** The table is exactly the entries of the two lists, by their keys. */
    ghost predicate Valid()
      reads this, dynamic, persistent, dynamic.Repr, persistent.Repr
    {
      ListsOk() && Indexes(table, dynamic.items + persistent.items)
    }

    constructor (size: int)
      ensures Valid() && View() == Cache([], [], 0, size)
    {
      dynamic := new EntryList();
      persistent := new EntryList();
      table, persistentCount := map[], 0;
      this.size := size;
    }

    method AppendNew(isPersistent: bool, e: Entry)
      requires ListsOk() && e !in dynamic.Repr && e !in persistent.Repr
      modifies dynamic.Repr, persistent.Repr, e
      ensures ListsOk() && dynamic.Repr <= old(dynamic.Repr) + {e} && persistent.Repr <= old(persistent.Repr) + {e}
      ensures dynamic.items == old(dynamic.items) + if isPersistent then [] else [e]
      ensures persistent.items == old(persistent.items) + if isPersistent then [e] else []
    {
      if isPersistent {
        persistent.Append(e);
      } else {
        dynamic.Append(e);
      }
    }

    /** Frees the replaced entry `o`, wherever it is, once `e` is on its list. */
    method ReleaseOld(isPersistent: bool, o: Entry, e: Entry, ghost d: seq<Entry>, ghost p: seq<Entry>)
      requires ListsOk() && Indexes(table, d + p) && o in d + p && o.stored.key == e.stored.key
      requires dynamic.items == d + (if isPersistent then [] else [e])
      requires persistent.items == p + (if isPersistent then [e] else [])
      modifies dynamic.Repr, persistent.Repr
      ensures ListsOk() && dynamic.Repr == old(dynamic.Repr) && persistent.Repr == old(persistent.Repr)
      ensures Swapped(isPersistent, d, p, e)
    {
      ghost var onDynamic, k := PlaceOf(d, p, o, if isPersistent then [] else [e], if isPersistent then [e] else []);
      FreeEntry(o, if onDynamic then dynamic else persistent, k);
    }

    /** What the lists are once the new entry is in and the old one is out. */
    ghost predicate Swapped(isPersistent: bool, d: seq<Entry>, p: seq<Entry>, e: Entry)
      reads dynamic, persistent
    {
      && dynamic.items == Removed(d, e.stored.key) + (if isPersistent then [] else [e])
      && persistent.items == Removed(p, e.stored.key) + (if isPersistent then [e] else [])
    }

    lemma {:induction false} EnteredTable(isPersistent: bool, d: seq<Entry>, p: seq<Entry>, e: Entry)
      requires Indexes(table, d + p) && Swapped(isPersistent, d, p, e)
      ensures Indexes(table[e.stored.key := e], dynamic.items + persistent.items)
    {
      var key := e.stored.key;
      var d', p' := Removed(d, key), Removed(p, key);
      IndexesReplaced(table, d + p, e);
      RemovedAppend(d, p, key);
      if isPersistent {
        assert d' + [] == d' && d' + (p' + [e]) == d' + p' + [e];
      } else {
        IndexesReordered(table[key := e], d', p', [e]);
        assert p' + [] == p' && (d' + [e]) + p' == d' + [e] + p';
      }
    }

    lemma {:induction false} EnteredValues(isPersistent: bool, d: seq<Entry>, p: seq<Entry>, e: Entry)
      requires Swapped(isPersistent, d, p, e)
      ensures Values(dynamic.items) == Without(Values(d), e.stored.key) + (if isPersistent then [] else [e.stored])
      ensures Values(persistent.items) == Without(Values(p), e.stored.key) + (if isPersistent then [e.stored] else [])
    {
      RemovedValues(d, e.stored.key);
      RemovedValues(p, e.stored.key);
    }

    /** The new entry goes on its list; the one with its key, if any, is freed. */
    method Swap(isPersistent: bool, s: Stored) returns (e: Entry)
      requires Valid()
      modifies dynamic.Repr, persistent.Repr
      ensures ListsOk() && e.stored == s && Swapped(isPersistent, old(dynamic.items), old(persistent.items), e)
      ensures fresh(dynamic.Repr - old(dynamic.Repr)) && fresh(persistent.Repr - old(persistent.Repr))
    {
      ghost var d, p := dynamic.items, persistent.items;
      e := new Entry(s);
      AppendNew(isPersistent, e);
      if s.key in table {
        ReleaseOld(isPersistent, table[s.key], e, d, p);
      } else {
        AbsentEverywhere(table, d, p, s.key);
      }
    }

    /** The part of `dns_cache_store` that enters the new entry and frees the one
        it replaces in the table, on whichever list that is. */
    method Replace(isPersistent: bool, s: Stored)
      requires Valid()
      modifies this, dynamic.Repr, persistent.Repr
      ensures Valid() && View() == AfterReplace(old(View()), isPersistent, s)
      ensures fresh(dynamic.Repr - old(dynamic.Repr)) && fresh(persistent.Repr - old(persistent.Repr))
    {
      ghost var d, p := dynamic.items, persistent.items;
      HasInTable(table, d, p, s.key);
      var e := Swap(isPersistent, s);
      EnteredTable(isPersistent, d, p, e);
      EnteredValues(isPersistent, d, p, e);
      var hashSize := |table|;
      table := table[s.key := e];
      if isPersistent && hashSize != |table| {
        persistentCount := persistentCount + 1;
      }
    }

    /** Removes the dynamic entry stored longest ago. */
    method RemoveOldest(e: Entry)
      requires Valid() && dynamic.items != [] && e == dynamic.items[0]
      modifies this, dynamic.Repr
      ensures Valid() && dynamic.Repr == old(dynamic.Repr) && persistent.Repr == old(persistent.Repr)
      ensures dynamic.items == old(dynamic.items)[1..] && persistent.items == old(persistent.items)
      ensures persistentCount == old(persistentCount) && size == old(size)
    {
      ghost var d := dynamic.items;
      ghost var p := persistent.items;
      FreeEntry(e, dynamic, 0);
      EvictHead(table, d, p);
      table := table - {e.stored.key};
    }

    /** The eviction at the end of `dns_cache_store`; `ok` is false where the
        code asserts, because the list it evicts from is empty. */
    method Evict() returns (ok: bool)
      requires Valid()
      modifies this, dynamic.Repr
      ensures dynamic.Repr == old(dynamic.Repr) && persistent.Repr == old(persistent.Repr)
      ensures ok <==> AfterEvict(old(View())).Done?
      ensures ok ==> Valid() && AfterEvict(old(View())) == Done(View())
    {
      TableSize(table, dynamic.items + persistent.items);
      ok := true;
      if |table| - persistentCount > size {
        var e := dynamic.Oldest();
        if e == null {
          return false;
        }
        RemoveOldest(e);
        assert Values(dynamic.items) == old(View()).dyn[1..];
      }
    }

    /** `dns_cache_store`. */
    method Store(isPersistent: bool, s: Stored) returns (ok: bool)
      requires Valid()
      modifies this, dynamic.Repr, persistent.Repr
      ensures ok <==> AfterStore(old(View()), isPersistent, s).Done?
      ensures ok ==> Valid() && AfterStore(old(View()), isPersistent, s) == Done(View())
      ensures Bounded(old(View())) ==> ok && Bounded(View())
      ensures fresh(dynamic.Repr - old(dynamic.Repr)) && fresh(persistent.Repr - old(persistent.Repr))
    {
      if Bounded(View()) {
        StoreWithinCapacity(View(), isPersistent, s);
      }
      Replace(isPersistent, s);
      ok := Evict();
    }

    /** `dns_cache_cleanup_persistent_hosts`. */
    method CleanupPersistent()
      requires Valid()
      modifies this, persistent.Repr
      ensures Valid() && View() == AfterCleanup(old(View()))
      ensures dynamic.Repr == old(dynamic.Repr) && persistent.Repr == old(persistent.Repr)
    {
      ghost var p := persistent.items;
      var e := persistent.Oldest();
      while e != null
        invariant Valid() && dynamic.Repr == old(dynamic.Repr) && persistent.Repr == old(persistent.Repr)
        invariant dynamic.items == old(dynamic.items) && size == old(size)
        invariant persistentCount - |persistent.items| == old(persistentCount) - |p|
        invariant if persistent.items == [] then e == null else e == persistent.items[0]
        decreases |persistent.items|
      {
        CleanHead(table, dynamic.items, persistent.items);
        table := table - {e.stored.key};
        FreeEntry(e, persistent, 0);
        persistentCount := persistentCount - 1;
        e := persistent.Oldest();
      }
    }

    /** `dns_cache_lookup` at time `now`, after the hosts file was checked. */
    method LookUp(key: Key, now: int, t: Lifetimes) returns (answer: Answer)
      requires Valid()
      ensures answer == Lookup(View(), key, now, t)
      ensures forall e ::
        e in View().dyn + View().pers && e.key == key ==> answer == AnswerFrom(e, now - e.resolved, t)
    {
      TableValid(table, dynamic.items, persistent.items, persistentCount, size);
      forall e | e in View().dyn + View().pers && e.key == key
        ensures Lookup(View(), key, now, t) == AnswerFrom(e, now - e.resolved, t)
      {
        StoredAnswers(View(), e, now, t);
      }
      answer := NotCached;
      TableAnswers(table, dynamic.items, persistent.items, key, now, t);
      if key in table {
        var s := table[key].stored;
        if !Expired(s, now, t) {
          answer := Cached(s.host);
        }
      }
    }
  }

  lemma {:induction false} EvictHead(table: map<Key, Entry>, d: seq<Entry>, p: seq<Entry>)
    requires Indexes(table, d + p) && d != []
    ensures Indexes(table - {d[0].stored.key}, d[1..] + p)
    ensures d[..0] + d[1..] == d[1..]
  {
    IndexesRemoved(table, d + p, d[0].stored.key);
    RemovedAt(d + p, 0);
    assert (d + p)[0] == d[0] && (d + p)[..0] + (d + p)[1..] == d[1..] + p;
  }

  lemma {:induction false} CleanHead(table: map<Key, Entry>, d: seq<Entry>, p: seq<Entry>)
    requires Indexes(table, d + p) && p != []
    ensures Indexes(table - {p[0].stored.key}, d + p[1..])
    ensures p[..0] + p[1..] == p[1..]
  {
    var n := |d|;
    IndexesRemoved(table, d + p, p[0].stored.key);
    RemovedAt(d + p, n);
    assert (d + p)[n] == p[0] && (d + p)[..n] + (d + p)[n + 1..] == d + p[1..];
  }

  /** What an entry of that age is answered by. */
  function AnswerFrom(e: Stored, age: int, t: Lifetimes): Answer {
    if e.resolved == 0 then Cached(e.host)
    else if e.host.Known? then (if age <= t.expire then Cached(e.host) else NotCached)
    else (if age <= t.expireFailed then Cached(e.host) else NotCached)
  }

  lemma {:induction false} TableValid(table: map<Key, Entry>, d: seq<Entry>, p: seq<Entry>, count: int, size: int)
    requires Indexes(table, d + p)
    ensures DnsCache.Valid(Cache(Values(d), Values(p), count, size))
  {
    var all := d + p;
    forall i, j | 0 <= i < |d| && 0 <= j < |p| ensures d[i].stored.key != p[j].stored.key {
      assert all[i] == d[i] && all[|d| + j] == p[j];
    }
    forall i, j | 0 <= i < j < |d| ensures d[i].stored.key != d[j].stored.key {
      assert all[i] == d[i] && all[j] == d[j];
    }
    forall i, j | 0 <= i < j < |p| ensures p[i].stored.key != p[j].stored.key {
      assert all[|d| + i] == p[i] && all[|d| + j] == p[j];
    }
  }

  lemma {:induction false} TableAnswers(
    table: map<Key, Entry>, d: seq<Entry>, p: seq<Entry>, key: Key, now: int, t: Lifetimes)
    requires Indexes(table, d + p)
    ensures Find(Fresh(Values(d) + Values(p), now, t), key) ==
      if key in table && !Expired(table[key].stored, now, t) then Cached(table[key].stored.host) else NotCached
  {
    var s := Values(d) + Values(p);
    var all := d + p;
    assert s == Values(all);
    if key in table {
      var e := table[key];
      var i :| 0 <= i < |all| && all[i] == e;
      assert s[i].key == key;
      FoundInList(s, key, e.stored.host, now, t);
      if Expired(e.stored, now, t) {
        AllExpired(s, key, now, t);
      }
    } else {
      NotFound(s, key, now, t);
    }
  }

  lemma {:induction false} AllExpired(s: seq<Stored>, key: Key, now: int, t: Lifetimes)
    requires forall i :: 0 <= i < |s| && s[i].key == key ==> Expired(s[i], now, t)
    ensures Find(Fresh(s, now, t), key) == NotCached
  {
    if s != [] {
      AllExpired(s[1..], key, now, t);
      FreshHead(s, now, t);
    }
  }
}
