/** The persistent configuration of cfg.c: values that survive a restart in a
    file of length-prefixed strings. */
module Persist {
  import opened Octets
  import opened Sequences

  datatype Entry = Entry(value: Octets, survives: bool)

  type Store = map<Octets, Entry>

  const MAGIC := "SLP1"
  const MAX_STRING: nat := 4096

  // ---------------------------------------------------------------------
  // The file format
  // ---------------------------------------------------------------------

  /** A length in network byte order. */
  function EncodeLength(n: nat): (s: Octets)
    requires n < 0x1_0000_0000
    ensures |s| == 4
  {
    [(n / 0x100_0000) as char, (n / 0x1_0000 % 0x100) as char, (n / 0x100 % 0x100) as char, (n % 0x100) as char]
  }

  function DecodeLength(s: Octets): nat
    requires |s| == 4
  {
    s[0] as nat * 0x100_0000 + s[1] as nat * 0x1_0000 + s[2] as nat * 0x100 + s[3] as nat
  }

  lemma {:induction false} DecodeEncode(n: nat)
    requires n < 0x1_0000_0000
    ensures DecodeLength(EncodeLength(n)) == n
  {
    var high := n / 0x100;
    assert n == high * 0x100 + n % 0x100;
    assert high == high / 0x100 * 0x100 + high % 0x100;
    assert n / 0x1_0000 == high / 0x100 && n / 0x100_0000 == high / 0x100 / 0x100;
  }

  /** The highest byte comes first. */
  lemma {:induction false} LengthBytes(a: nat, b: nat, c: nat, d: nat)
    requires a < 256 && b < 256 && c < 256 && d < 256
    ensures EncodeLength(((a * 256 + b) * 256 + c) * 256 + d) == [a as char, b as char, c as char, d as char]
    ensures DecodeLength([a as char, b as char, c as char, d as char]) == ((a * 256 + b) * 256 + c) * 256 + d
  {
    var three, two := (a * 256 + b) * 256 + c, a * 256 + b;
    var n := three * 256 + d;
    assert n / 0x100 == three && three / 0x100 == two && two / 0x100 == a;
    assert n / 0x1_0000 == two && n / 0x100_0000 == a;
  }

  predicate Storable(s: Octets) {
    |s| < 0x1_0000_0000
  }

  /** `persist_config_write_string`. */
  function StringBytes(s: Octets): Octets
    requires Storable(s)
  {
    EncodeLength(|s|) + s
  }

  datatype ReadResult = Unreadable | Read(text: Octets, rest: Octets)

  /** `persist_config_read_string`. */
  function ReadString(s: Octets): (r: ReadResult)
    ensures r.Read? ==> |r.rest| < |s|
  {
    if |s| < 4 then Unreadable
    else
      var n := DecodeLength(s[..4]);
      if n > MAX_STRING || |s| - 4 < n then Unreadable else Read(s[4..4 + n], s[4 + n..])
  }

  ghost predicate Listing(order: seq<Octets>, store: Store) {
    && (forall i :: 0 <= i < |order| ==> order[i] in store)
    && (forall k :: k in store ==> k in order)
    && Distinct(order)
  }

  ghost predicate AllStorable(store: Store) {
    forall k :: k in store && store[k].survives ==> Storable(k) && Storable(store[k].value)
  }

  /** The surviving entries, in the order in which the table is walked. */
  function SavedBytes(order: seq<Octets>, store: Store): Octets
    requires forall i :: 0 <= i < |order| ==> order[i] in store
    requires forall i :: 0 <= i < |order| && store[order[i]].survives ==>
      Storable(order[i]) && Storable(store[order[i]].value)
  {
    if order == [] then []
    else if store[order[0]].survives then
      StringBytes(order[0]) + StringBytes(store[order[0]].value) + SavedBytes(order[1..], store)
    else SavedBytes(order[1..], store)
  }

  /** `persist_config_add_entry`: a name that is already there keeps its value. */
  function AfterAdd(store: Store, name: Octets, e: Entry): Store {
    if name in store then store else store[name := e]
  }

  /** The reading loop of `persist_config_load`; what is read does not survive
      the next restart unless it is added again. */
  function AfterRead(store: Store, s: Octets): Store
    decreases |s|
  {
    match ReadString(s)
    case Unreadable => store
    case Read(key, more) =>
      match ReadString(more)
      case Unreadable => store
      case Read(value, rest) => AfterRead(AfterAdd(store, key, Entry(value, false)), rest)
  }

  /** `persist_config_load`. */
  function AfterLoad(store: Store, file: Octets): Store {
    if |file| >= 4 && file[..4] == MAGIC then AfterRead(store, file[4..]) else store
  }

  // ---------------------------------------------------------------------
  // Saving and loading
  // ---------------------------------------------------------------------

  lemma {:induction false} StringReadBack(s: Octets, rest: Octets)
    requires Storable(s)
    ensures ReadString(StringBytes(s) + rest) == if |s| <= 4096 then Read(s, rest) else Unreadable
  {
    var t := StringBytes(s) + rest;
    assert t[..4] == EncodeLength(|s|);
    DecodeEncode(|s|);
    assert t[4..4 + |s|] == s && t[4 + |s|..] == rest;
  }

  /** What a store should come back as. */
  function Survivors(store: Store): Store {
    map k | k in store && store[k].survives :: Entry(store[k].value, false)
  }

  ghost predicate Short(store: Store, k: Octets)
    requires k in store
  {
    store[k].survives ==> |k| <= MAX_STRING && |store[k].value| <= MAX_STRING
  }

  lemma {:induction false} PairReadBack(key: Octets, value: Octets, rest: Octets, store: Store)
    requires Storable(key) && Storable(value)
    ensures AfterRead(store, StringBytes(key) + StringBytes(value) + rest)
      == if |key| <= MAX_STRING && |value| <= MAX_STRING
         then AfterRead(AfterAdd(store, key, Entry(value, false)), rest) else store
  {
    var more := StringBytes(value) + rest;
    assert StringBytes(key) + StringBytes(value) + rest == StringBytes(key) + more;
    StringReadBack(key, more);
    StringReadBack(value, rest);
  }

  /** `r` is `read` with surviving, short enough entries of `order` added, and
      with all the surviving ones if all of them are short enough. */
  ghost predicate ReadBack(r: Store, read: Store, order: seq<Octets>, store: Store)
    requires forall i :: 0 <= i < |order| ==> order[i] in store
  {
    && (forall k :: k in read ==> k in r && r[k] == read[k])
    && (forall k :: k in r && k !in read ==>
          k in order && store[k].survives && r[k] == Entry(store[k].value, false) && Short(store, k))
    && ((forall i :: 0 <= i < |order| ==> Short(store, order[i])) ==>
          forall i :: 0 <= i < |order| && store[order[i]].survives ==> order[i] in r)
  }

  lemma {:induction false} ReadBackHead(r: Store, read: Store, order: seq<Octets>, store: Store)
    requires order != [] && forall i :: 0 <= i < |order| ==> order[i] in store
    requires order[0] !in read && Short(store, order[0])
    requires var e := store[order[0]];
      ReadBack(r, if e.survives then read[order[0] := Entry(e.value, false)] else read, order[1..], store)
    ensures ReadBack(r, read, order, store)
  {
    assert forall i :: 1 <= i < |order| ==> order[i] == order[1..][i - 1];
  }

  /** Reading back what was written for `order`: each surviving entry, up to the
      first one with a string that is too long. */
  lemma {:induction false} SavedReadBack(order: seq<Octets>, store: Store, read: Store)
    requires forall i :: 0 <= i < |order| ==> order[i] in store && order[i] !in read
    requires Distinct(order)
    requires AllStorable(store)
    ensures ReadBack(AfterRead(read, SavedBytes(order, store)), read, order, store)
    decreases |order|
  {
    if order != [] {
      var key := order[0];
      var rest := order[1..];
      if !store[key].survives {
        SavedReadBack(rest, store, read);
        ReadBackHead(AfterRead(read, SavedBytes(order, store)), read, order, store);
      } else {
        var value := store[key].value;
        PairReadBack(key, value, SavedBytes(rest, store), read);
        if |key| <= MAX_STRING && |value| <= MAX_STRING {
          SavedReadBack(rest, store, AfterAdd(read, key, Entry(value, false)));
          ReadBackHead(AfterRead(read, SavedBytes(order, store)), read, order, store);
        } else {
          assert !Short(store, order[0]);
        }
      }
    }
  }

  function FileOf(order: seq<Octets>, store: Store): Octets
    requires forall i :: 0 <= i < |order| ==> order[i] in store
    requires forall i :: 0 <= i < |order| && store[order[i]].survives ==>
      Storable(order[i]) && Storable(store[order[i]].value)
  {
    MAGIC + SavedBytes(order, store)
  }

  /** What comes back is part of the surviving entries, and all of them if no
      string is too long. */
  lemma {:induction false} LoadedPart(order: seq<Octets>, store: Store)
    requires Listing(order, store) && AllStorable(store)
    ensures var r := AfterLoad(map[], FileOf(order, store));
      && (forall k :: k in r ==>
            k in store && Short(store, k) && store[k].survives && r[k] == Entry(store[k].value, false))
      && ((forall k :: k in store ==> Short(store, k)) ==> forall k :: k in store && store[k].survives ==> k in r)
  {
    var file := FileOf(order, store);
    assert file[..4] == MAGIC && file[4..] == SavedBytes(order, store);
    SavedReadBack(order, store, map[]);
  }

  /** Loading a saved store gives back exactly its surviving entries, if and only
      if none of their strings is longer than 4096 bytes; in whatever order the
      table was walked. */
  lemma {:induction false} SaveLoadExact(order: seq<Octets>, store: Store)
    requires Listing(order, store) && AllStorable(store)
    ensures AfterLoad(map[], FileOf(order, store)) == Survivors(store)
      <==> forall k :: k in store ==> Short(store, k)
  {
    LoadedPart(order, store);
    var r := AfterLoad(map[], FileOf(order, store));
    if forall k :: k in store ==> Short(store, k) {
      assert r.Keys == Survivors(store).Keys;
    } else {
      var k :| k in store && !Short(store, k);
      assert k in Survivors(store) && k !in r;
    }
  }

  lemma {:induction false} ReadKeepsPresent(store: Store, s: Octets, name: Octets)
    requires name in store
    ensures name in AfterRead(store, s) && AfterRead(store, s)[name] == store[name]
    decreases |s|
  {
    var first := ReadString(s);
    if first.Read? {
      var second := ReadString(first.rest);
      if second.Read? {
        ReadKeepsPresent(AfterAdd(store, first.text, Entry(second.text, false)), second.rest, name);
      }
    }
  }

  /** Loading adds names only; those that are there keep their values, and a file
      that does not begin with the four magic bytes adds none. */
  lemma {:induction false} LoadKeepsPresent(store: Store, file: Octets, name: Octets)
    ensures name in store ==> name in AfterLoad(store, file) && AfterLoad(store, file)[name] == store[name]
    ensures !("SLP1" <= file) ==> AfterLoad(store, file) == store
  {
    if |file| >= 4 && name in store {
      ReadKeepsPresent(store, file[4..], name);
    }
  }

  /** The first of two values for a name is the one that is loaded. */
  lemma {:induction false} FirstValueLoaded(key: Octets, value: Octets, other: Octets, rest: Octets)
    requires |key| <= 4096 && |value| <= 4096
    requires rest == [] || (|other| <= 4096 && rest == StringBytes(key) + StringBytes(other))
    ensures AfterLoad(map[], "SLP1" + (StringBytes(key) + StringBytes(value) + rest)) == map[key := Entry(value, false)]
  {
    var file := "SLP1" + (StringBytes(key) + StringBytes(value) + rest);
    var read: Store := map[key := Entry(value, false)];
    assert file[..4] == MAGIC && file[4..] == StringBytes(key) + StringBytes(value) + rest;
    PairReadBack(key, value, rest, map[]);
    if rest != [] {
      assert StringBytes(key) + StringBytes(other) + [] == rest;
      PairReadBack(key, other, [], read);
    }
    assert AfterRead(read, []) == read;
  }

  /** What was loaded and not added again is not saved again. */
  lemma {:induction false} LoadedDoesNotSurvive(order: seq<Octets>, store: Store)
    requires forall i :: 0 <= i < |order| ==> order[i] in store
    requires forall k :: k in store ==> !store[k].survives
    ensures SavedBytes(order, store) == []
  {
    if order != [] {
      LoadedDoesNotSurvive(order[1..], store);
    }
  }

  lemma {:induction false} ReadEntriesDoNotSurvive(store: Store, s: Octets)
    requires forall k :: k in store ==> !store[k].survives
    ensures forall k :: k in AfterRead(store, s) ==> !AfterRead(store, s)[k].survives
    decreases |s|
  {
    var first := ReadString(s);
    if first.Read? {
      var second := ReadString(first.rest);
      if second.Read? {
        ReadEntriesDoNotSurvive(AfterAdd(store, first.text, Entry(second.text, false)), second.rest);
      }
    }
  }

  /** So a value that nobody adds again after a restart is gone after the next:
      saving what was loaded writes an empty file. */
  lemma {:induction false} SecondSaveIsEmpty(file: Octets, order: seq<Octets>)
    requires Listing(order, AfterLoad(map[], file))
    ensures forall k :: k in AfterLoad(map[], file) ==> !AfterLoad(map[], file)[k].survives
    ensures SavedBytes(order, AfterLoad(map[], file)) == []
  {
    if |file| >= 4 && file[..4] == MAGIC {
      ReadEntriesDoNotSurvive(map[], file[4..]);
    }
    LoadedDoesNotSurvive(order, AfterLoad(map[], file));
  }

  // ---------------------------------------------------------------------
  // The object
  // ---------------------------------------------------------------------

  datatype Fetched = Missing | Found(value: Octets)

  class PersistentConfig {
    var keys: Store

    constructor ()
      ensures keys == map[]
    {
      keys := map[];
    }

    /** `persist_config_add` and `persist_config_add_survivor`. */
    method Add(name: Octets, value: Octets, survives: bool)
      modifies this
      ensures keys == AfterAdd(old(keys), name, Entry(value, survives))
      ensures name in keys && keys[name] == if name in old(keys) then old(keys)[name] else Entry(value, survives)
      ensures keys - {name} == old(keys) - {name}
    {
      if name !in keys {
        keys := keys[name := Entry(value, survives)];
      }
    }

    /** `persist_config_fetch`: a value is handed out once. */
    method Fetch(name: Octets) returns (r: Fetched)
      modifies this
      ensures r == if name in old(keys) then Found(old(keys)[name].value) else Missing
      ensures keys == old(keys) - {name}
    {
      r := Missing;
      if name in keys {
        r := Found(keys[name].value);
        keys := keys - {name};
      }
    }

    /** `persist_config_save`, walking the table in the given order. */
    method Save(order: seq<Octets>) returns (file: Octets)
      requires Listing(order, keys) && AllStorable(keys)
      ensures file == FileOf(order, keys)
    {
      file := MAGIC;
      var i := 0;
      while i < |order|
        invariant i <= |order|
        invariant file + SavedBytes(order[i..], keys) == FileOf(order, keys)
      {
        var e := keys[order[i]];
        ghost var rest := SavedBytes(order[i + 1..], keys);
        assert order[i..][1..] == order[i + 1..];
        if e.survives {
          var pair := StringBytes(order[i]) + StringBytes(e.value);
          assert file + (pair + rest) == (file + pair) + rest;
          file := file + pair;
        }
        i := i + 1;
      }
      assert file + [] == file;
    }

    /** `persist_config_load`. */
    method Load(file: Octets)
      modifies this
      ensures keys == AfterLoad(old(keys), file)
    {
      if |file| < 4 || file[..4] != MAGIC {
        return;
      }
      var s := file[4..];
      var done := false;
      while !done
        invariant done ==> keys == AfterLoad(old(keys), file)
        invariant !done ==> AfterRead(keys, s) == AfterLoad(old(keys), file)
        decreases !done, |s|
      {
        var key := ReadString(s);
        if key.Read? {
          var value := ReadString(key.rest);
          if value.Read? {
            Add(key.text, value.text, false);
            s := value.rest;
          } else {
            done := true;
          }
        } else {
          done := true;
        }
      }
    }
  }
}
