/** The allocation tracer of memtrace.c: one array of slots, threaded into a
    free list and into hash chains by the indices in the slots. */
module MemTrace {
  import opened Sequences

  const HASH_SIZE: nat := 32768
  const HEAP_SIZE: nat := 65536

  /** The index -1, as an unsigned 32-bit number. */
  const NIL: nat := 0xffff_ffff
  const WORD: nat := 0x1_0000_0000

  /** (ptr & (32767 << 3)) >> 3. */
  function Hash(ptr: nat): (h: nat)
    ensures h < HASH_SIZE
  {
    ptr / 8 % HASH_SIZE
  }

  /** The hash of a pointer is its fifteen bits above the lowest three. */
  lemma {:induction false} HashBits(high: nat, middle: nat, low: nat)
    requires middle < 0x8000 && low < 8
    ensures Hash(high * 0x40000 + middle * 8 + low) == middle
  {
    assert high * 0x40000 + middle * 8 + low == (high * 0x8000 + middle) * 8 + low;
  }

  // ---------------------------------------------------------------------
  // Lists threaded through an array
  // ---------------------------------------------------------------------

  function At(s: seq<nat>, i: nat): nat {
    if i < |s| then s[i] else NIL
  }

  /** Starting at `head`, the indices in `next` run through `s` and then end. */
  ghost predicate Linked(next: seq<nat>, head: nat, s: seq<nat>) {
    && head == At(s, 0)
    && (forall i :: 0 <= i < |s| ==> s[i] < |next| && next[s[i]] == At(s, i + 1))
  }

  /** `s` lists, once each, the slots that belong to `who`. */
  ghost predicate Lists(owner: seq<int>, who: int, s: seq<nat>) {
    && Distinct(s)
    && (forall i :: 0 <= i < |s| ==> s[i] < |owner| && owner[s[i]] == who)
    && (forall slot :: 0 <= slot < |owner| && owner[slot] == who ==> slot in s)
  }

  lemma {:induction false} LinkedElsewhere(next: seq<nat>, head: nat, s: seq<nat>, slot: nat, v: nat)
    requires Linked(next, head, s) && slot < |next| && slot !in s
    ensures Linked(next[slot := v], head, s)
  {
  }

  lemma {:induction false} LinkedPush(next: seq<nat>, head: nat, s: seq<nat>, slot: nat)
    requires Linked(next, head, s) && slot < |next| && slot !in s
    ensures Linked(next[slot := head], slot, [slot] + s)
  {
  }

  lemma {:induction false} LinkedPop(next: seq<nat>, head: nat, s: seq<nat>)
    requires Linked(next, head, s) && s != []
    ensures Linked(next, next[s[0]], s[1..])
  {
  }

  function Drop(s: seq<nat>, k: nat): seq<nat>
    requires k < |s|
  {
    s[..k] + s[k + 1..]
  }

  /** Bypassing slot `s[k]` with `k > 0`: its predecessor points past it. */
  lemma {:induction false} LinkedBypass(next: seq<nat>, head: nat, s: seq<nat>, k: nat)
    requires Linked(next, head, s) && 0 < k < |s|
    requires Distinct(s)
    ensures Linked(next[s[k - 1] := next[s[k]]], head, Drop(s, k))
  {
  }

  lemma {:induction false} ListsPush(owner: seq<int>, who: int, s: seq<nat>, slot: nat)
    requires Lists(owner, who, s) && slot < |owner| && owner[slot] != who
    ensures Lists(owner[slot := who], who, [slot] + s)
  {
  }

  lemma {:induction false} ListsDrop(owner: seq<int>, who: int, s: seq<nat>, k: nat, other: int)
    requires Lists(owner, who, s) && k < |s| && other != who
    ensures Lists(owner[s[k] := other], who, Drop(s, k))
  {
    var t := Drop(s, k);
    forall slot | 0 <= slot < |owner| && owner[slot] == who && slot != s[k] ensures slot in t {
      var i :| 0 <= i < |s| && s[i] == slot;
      assert t[if i < k then i else i - 1] == slot;
    }
  }

  lemma {:induction false} ListsElsewhere(owner: seq<int>, who: int, s: seq<nat>, slot: nat, other: int)
    requires Lists(owner, who, s) && slot < |owner| && owner[slot] != who && other != who
    ensures Lists(owner[slot := other], who, s)
  {
  }

  // ---------------------------------------------------------------------
  // Counts
  // ---------------------------------------------------------------------

  const FREE: int := -1

  /** How many of the slots are in use. */
  function UsedSlots(owner: seq<int>): nat {
    if owner == [] then 0
    else UsedSlots(owner[..|owner| - 1]) + if owner[|owner| - 1] == FREE then 0 else 1
  }

  /** The sizes of the slots in use, added up. */
  function UsedBytes(owner: seq<int>, sizes: seq<nat>): nat
    requires |owner| == |sizes|
  {
    if owner == [] then 0
    else
      var n := |owner| - 1;
      UsedBytes(owner[..n], sizes[..n]) + if owner[n] == FREE then 0 else sizes[n]
  }

  lemma {:induction false} UsedUpdate(owner: seq<int>, sizes: seq<nat>, slot: nat, who: int, size: nat)
    requires |owner| == |sizes| && slot < |owner|
    ensures UsedSlots(owner[slot := who]) + (if owner[slot] == FREE then 0 else 1)
         == UsedSlots(owner) + (if who == FREE then 0 else 1)
    ensures UsedBytes(owner[slot := who], sizes[slot := size]) + (if owner[slot] == FREE then 0 else sizes[slot])
         == UsedBytes(owner, sizes) + (if who == FREE then 0 else size)
  {
    var n := |owner| - 1;
    if slot == n {
      assert owner[slot := who][..n] == owner[..n] && sizes[slot := size][..n] == sizes[..n];
    } else {
      assert owner[slot := who][..n] == owner[..n][slot := who];
      assert sizes[slot := size][..n] == sizes[..n][slot := size];
      UsedUpdate(owner[..n], sizes[..n], slot, who, size);
    }
  }

  // ---------------------------------------------------------------------
  // The state
  // ---------------------------------------------------------------------

  /** The arrays and variables as values, with the lists they thread. `owner`
      says of each slot whether it is free or on which chain it is. */
  datatype Heap = Heap(
    next: seq<nat>, ptrs: seq<nat>, sizes: seq<nat>, heads: seq<nat>, freeHead: nat,
    blocks: nat, bytes: nat, owner: seq<int>, free: seq<nat>, chains: seq<seq<nat>>)

  ghost predicate FreeOk(m: Heap) {
    Lists(m.owner, FREE, m.free) && Linked(m.next, m.freeHead, m.free)
  }

  ghost predicate ChainOk(m: Heap, h: nat)
    requires |m.heads| == |m.chains| == HASH_SIZE && h < HASH_SIZE
  {
    Lists(m.owner, h, m.chains[h]) && Linked(m.next, m.heads[h], m.chains[h])
  }

  ghost predicate OwnerOk(m: Heap)
    requires |m.owner| == |m.ptrs|
  {
    forall slot :: 0 <= slot < |m.owner| ==> m.owner[slot] == FREE || m.owner[slot] == Hash(m.ptrs[slot])
  }

  ghost predicate SizesOk(m: Heap) {
    && |m.next| == |m.ptrs| == |m.sizes| == |m.owner| == HEAP_SIZE
    && |m.heads| == |m.chains| == HASH_SIZE
  }

  ghost predicate CountsOk(m: Heap)
    requires |m.owner| == |m.sizes|
  {
    m.blocks == UsedSlots(m.owner) && m.bytes == UsedBytes(m.owner, m.sizes) % WORD
  }

  /** Every slot is on exactly one list; all lists end; chain `h` holds pointers
      that hash to `h`; the counters count the chained slots. */
  ghost predicate Sound(m: Heap) {
    && SizesOk(m) && FreeOk(m) && OwnerOk(m) && CountsOk(m)
    && (forall h :: 0 <= h < HASH_SIZE ==> ChainOk(m, h))
  }

  /** The lists cover the slots and do not overlap. */
  lemma {:induction false} SlotsPartitioned(m: Heap, slot: nat)
    requires Sound(m) && slot < HEAP_SIZE
    ensures slot in m.free <==> m.owner[slot] == FREE
    ensures forall h :: 0 <= h < HASH_SIZE ==> (slot in m.chains[h] <==> m.owner[slot] == h)
    ensures slot in m.free || slot in m.chains[Hash(m.ptrs[slot])]
  {
    forall h | 0 <= h < HASH_SIZE ensures slot in m.chains[h] <==> m.owner[slot] == h {
      assert ChainOk(m, h);
    }
  }

  /** Taking the first free slot for a block. */
  function AfterAdd(m: Heap, ptr: nat, size: nat): Heap
    requires SizesOk(m) && FreeOk(m) && m.free != []
  {
    var h := Hash(ptr);
    var slot := m.free[0];
    Heap(m.next[slot := m.heads[h]], m.ptrs[slot := ptr], m.sizes[slot := size], m.heads[h := slot],
         m.next[slot], m.blocks + 1, PlusWord(m.bytes, size),
         m.owner[slot := h], m.free[1..], m.chains[h := [slot] + m.chains[h]])
  }

  lemma {:induction false} AddKeepsFree(m: Heap, ptr: nat, size: nat)
    requires SizesOk(m) && FreeOk(m) && m.free != []
    ensures FreeOk(AfterAdd(m, ptr, size))
  {
    var h, slot := Hash(ptr), m.free[0];
    assert m.free[1..] == Drop(m.free, 0);
    ListsDrop(m.owner, FREE, m.free, 0, h);
    LinkedPop(m.next, m.freeHead, m.free);
    LinkedElsewhere(m.next, m.next[slot], m.free[1..], slot, m.heads[h]);
  }

  lemma {:induction false} AddKeepsChain(m: Heap, ptr: nat, size: nat, g: nat)
    requires SizesOk(m) && FreeOk(m) && m.free != [] && g < HASH_SIZE && ChainOk(m, g)
    ensures ChainOk(AfterAdd(m, ptr, size), g)
  {
    var h, slot := Hash(ptr), m.free[0];
    if g == h {
      ListsPush(m.owner, h, m.chains[h], slot);
      LinkedPush(m.next, m.heads[h], m.chains[h], slot);
    } else {
      ListsElsewhere(m.owner, g, m.chains[g], slot, h);
      LinkedElsewhere(m.next, m.heads[g], m.chains[g], slot, m.heads[h]);
    }
  }

  function PlusWord(bytes: nat, size: nat): nat {
    (bytes + size) % WORD
  }

  lemma {:induction false} WordPlus(total: nat, bytes: nat, size: nat, more: nat)
    requires bytes == total % WORD && more == total + size
    ensures PlusWord(bytes, size) == more % WORD
  {
  }

  lemma {:induction false} AddKeepsCounts(m: Heap, ptr: nat, size: nat)
    requires SizesOk(m) && FreeOk(m) && CountsOk(m) && m.free != []
    ensures CountsOk(AfterAdd(m, ptr, size))
  {
    UsedUpdate(m.owner, m.sizes, m.free[0], Hash(ptr), size);
    var slot := m.free[0];
    WordPlus(UsedBytes(m.owner, m.sizes), m.bytes, size, UsedBytes(m.owner[slot := Hash(ptr)], m.sizes[slot := size]));
  }

  lemma {:induction false} AddKeepsSound(m: Heap, ptr: nat, size: nat)
    requires Sound(m) && m.free != []
    ensures Sound(AfterAdd(m, ptr, size))
  {
    AddKeepsFree(m, ptr, size);
    AddKeepsCounts(m, ptr, size);
    forall g | 0 <= g < HASH_SIZE ensures ChainOk(AfterAdd(m, ptr, size), g) {
      AddKeepsChain(m, ptr, size, g);
    }
  }

  /** Giving back the `k`-th slot of chain `h`. */
  function AfterDel(m: Heap, h: nat, k: nat): Heap
    requires SizesOk(m) && h < HASH_SIZE && k < |m.chains[h]| && ChainOk(m, h)
  {
    var c := m.chains[h];
    var slot := c[k];
    var past := if k == 0 then m.next else m.next[c[k - 1] := m.next[slot]];
    Heap(past[slot := m.freeHead], m.ptrs, m.sizes, if k == 0 then m.heads[h := m.next[slot]] else m.heads,
         slot, if m.blocks > 0 then m.blocks - 1 else 0, MinusWord(m.bytes, m.sizes[slot]),
         m.owner[slot := FREE], [slot] + m.free, m.chains[h := Drop(c, k)])
  }

  /** The same, in terms of the two slots that the walk along the chain found. */
  ghost function Unchained(m: Heap, h: nat, k: nat, prev: nat, cur: nat, past: seq<nat>): (r: Heap)
    requires SizesOk(m) && h < HASH_SIZE && k < |m.chains[h]| && ChainOk(m, h) && m.blocks > 0
    requires cur == m.chains[h][k] && prev == (if k == 0 then NIL else m.chains[h][k - 1])
    requires past == if prev == NIL then m.next else m.next[prev := m.next[cur]]
    ensures r == AfterDel(m, h, k)
  {
    Heap(past[cur := m.freeHead], m.ptrs, m.sizes, if prev == NIL then m.heads[h := m.next[cur]] else m.heads,
         cur, m.blocks - 1, MinusWord(m.bytes, m.sizes[cur]),
         m.owner[cur := FREE], [cur] + m.free, m.chains[h := Drop(m.chains[h], k)])
  }

  /** The link that skips the slot leaves the other lists alone. */
  lemma {:induction false} BypassElsewhere(m: Heap, h: nat, k: nat, who: int, head: nat, s: seq<nat>)
    requires SizesOk(m) && h < HASH_SIZE && k < |m.chains[h]| && ChainOk(m, h)
    requires who != h && Lists(m.owner, who, s) && Linked(m.next, head, s)
    ensures var c := m.chains[h];
      Linked(if k == 0 then m.next else m.next[c[k - 1] := m.next[c[k]]], head, s) && c[k] !in s
  {
    var c := m.chains[h];
    if k > 0 {
      LinkedElsewhere(m.next, head, s, c[k - 1], m.next[c[k]]);
    }
  }

  lemma {:induction false} DelKeepsFree(m: Heap, h: nat, k: nat)
    requires SizesOk(m) && FreeOk(m) && h < HASH_SIZE && k < |m.chains[h]| && ChainOk(m, h)
    ensures FreeOk(AfterDel(m, h, k))
  {
    var c := m.chains[h];
    var past := if k == 0 then m.next else m.next[c[k - 1] := m.next[c[k]]];
    BypassElsewhere(m, h, k, FREE, m.freeHead, m.free);
    LinkedPush(past, m.freeHead, m.free, c[k]);
    ListsPush(m.owner, FREE, m.free, c[k]);
  }

  lemma {:induction false} DelKeepsChain(m: Heap, h: nat, k: nat, g: nat)
    requires SizesOk(m) && h < HASH_SIZE && k < |m.chains[h]| && ChainOk(m, h)
    requires g < HASH_SIZE && ChainOk(m, g)
    ensures ChainOk(AfterDel(m, h, k), g)
  {
    var c := m.chains[h];
    var past := if k == 0 then m.next else m.next[c[k - 1] := m.next[c[k]]];
    if g == h {
      ListsDrop(m.owner, h, c, k, FREE);
      if k == 0 {
        assert Drop(c, 0) == c[1..];
        LinkedPop(m.next, m.heads[h], c);
        LinkedElsewhere(past, m.next[c[0]], c[1..], c[0], m.freeHead);
      } else {
        LinkedBypass(m.next, m.heads[h], c, k);
        LinkedElsewhere(past, m.heads[h], Drop(c, k), c[k], m.freeHead);
      }
    } else {
      ListsElsewhere(m.owner, g, m.chains[g], c[k], FREE);
      BypassElsewhere(m, h, k, g, m.heads[g], m.chains[g]);
      LinkedElsewhere(past, m.heads[g], m.chains[g], c[k], m.freeHead);
    }
  }

  function MinusWord(bytes: nat, size: nat): nat {
    (bytes + WORD - size % WORD) % WORD
  }

  lemma {:induction false} WordMinus(total: nat, bytes: nat, size: nat, left: nat)
    requires bytes == total % WORD && total == left + size
    ensures MinusWord(bytes, size) == left % WORD
  {
  }

  lemma {:induction false} DelKeepsCounts(m: Heap, h: nat, k: nat)
    requires SizesOk(m) && CountsOk(m) && h < HASH_SIZE && k < |m.chains[h]| && ChainOk(m, h)
    ensures CountsOk(AfterDel(m, h, k))
  {
    var slot := m.chains[h][k];
    UsedUpdate(m.owner, m.sizes, slot, FREE, m.sizes[slot]);
    assert m.sizes[slot := m.sizes[slot]] == m.sizes;
    WordMinus(UsedBytes(m.owner, m.sizes), m.bytes, m.sizes[slot], UsedBytes(m.owner[slot := FREE], m.sizes));
  }

  lemma {:induction false} DelKeepsSound(m: Heap, h: nat, k: nat)
    requires Sound(m) && h < HASH_SIZE && k < |m.chains[h]|
    ensures ChainOk(m, h) && Sound(AfterDel(m, h, k))
  {
    assert ChainOk(m, h);
    DelKeepsFree(m, h, k);
    DelKeepsCounts(m, h, k);
    forall g | 0 <= g < HASH_SIZE ensures ChainOk(AfterDel(m, h, k), g) {
      assert ChainOk(m, g);
      DelKeepsChain(m, h, k, g);
    }
  }

  // ---------------------------------------------------------------------
  // What is traced
  // ---------------------------------------------------------------------

  /** The size in the first slot of a chain that holds `ptr`, or -1. */
  function FirstSize(ptrs: seq<nat>, sizes: seq<nat>, c: seq<nat>, ptr: nat): int
    requires |ptrs| == |sizes| && forall i :: 0 <= i < |c| ==> c[i] < |ptrs|
  {
    if c == [] then -1 else if ptrs[c[0]] == ptr then sizes[c[0]] else FirstSize(ptrs, sizes, c[1..], ptr)
  }

  /** The size recorded last for `ptr` and not deleted, or -1. */
  ghost function SizeOf(m: Heap, ptr: nat): int
    requires Sound(m)
  {
    assert ChainOk(m, Hash(ptr));
    FirstSize(m.ptrs, m.sizes, m.chains[Hash(ptr)], ptr)
  }

  lemma {:induction false} SizeElsewhere(
    ptrs: seq<nat>, sizes: seq<nat>, c: seq<nat>, ptr: nat, slot: nat, p: nat, z: nat)
    requires |ptrs| == |sizes| && slot < |ptrs| && slot !in c && forall i :: 0 <= i < |c| ==> c[i] < |ptrs|
    ensures FirstSize(ptrs[slot := p], sizes[slot := z], c, ptr) == FirstSize(ptrs, sizes, c, ptr)
  {
    if c != [] {
      SizeElsewhere(ptrs, sizes, c[1..], ptr, slot, p, z);
    }
  }

  lemma {:induction false} SizeDrop(ptrs: seq<nat>, sizes: seq<nat>, c: seq<nat>, ptr: nat, k: nat)
    requires |ptrs| == |sizes| && forall i :: 0 <= i < |c| ==> c[i] < |ptrs|
    requires k < |c| && ptrs[c[k]] != ptr
    ensures FirstSize(ptrs, sizes, Drop(c, k), ptr) == FirstSize(ptrs, sizes, c, ptr)
  {
    if k == 0 {
      assert Drop(c, 0) == c[1..];
    } else {
      assert Drop(c, k)[0] == c[0] && Drop(c, k)[1..] == Drop(c[1..], k - 1);
      SizeDrop(ptrs, sizes, c[1..], ptr, k - 1);
    }
  }

  /** Adding a block records its size and changes no other block's. */
  lemma {:induction false} AddRecords(m: Heap, ptr: nat, size: nat, q: nat)
    requires Sound(m) && m.free != []
    ensures Sound(AfterAdd(m, ptr, size))
    ensures SizeOf(AfterAdd(m, ptr, size), q) == if q == ptr then size else SizeOf(m, q)
  {
    AddKeepsSound(m, ptr, size);
    var slot, h := m.free[0], Hash(q);
    assert ChainOk(m, h);
    var c := m.chains[h];
    assert slot !in c;
    SizeElsewhere(m.ptrs, m.sizes, c, q, slot, ptr, size);
    if h == Hash(ptr) {
      assert ([slot] + c)[1..] == c;
    }
  }

  /** Deleting a block changes no block of another pointer. */
  lemma {:induction false} DelRecords(m: Heap, h: nat, k: nat, q: nat)
    requires Sound(m) && h < HASH_SIZE && k < |m.chains[h]|
    ensures ChainOk(m, h) && m.chains[h][k] < HEAP_SIZE && Sound(AfterDel(m, h, k))
    ensures q != m.ptrs[m.chains[h][k]] ==> SizeOf(AfterDel(m, h, k), q) == SizeOf(m, q)
  {
    DelKeepsSound(m, h, k);
    assert ChainOk(m, Hash(q));
    if Hash(q) == h && q != m.ptrs[m.chains[h][k]] {
      SizeDrop(m.ptrs, m.sizes, m.chains[h], q, k);
    }
  }

  /** The `k`-th slot of the chain of `ptr` is the first one that holds it, and so
      the one that was chained last. */
  ghost predicate FirstAt(m: Heap, ptr: nat, k: nat)
    requires Sound(m)
  {
    assert ChainOk(m, Hash(ptr));
    var c := m.chains[Hash(ptr)];
    k < |c| && m.ptrs[c[k]] == ptr && forall j :: 0 <= j < k ==> m.ptrs[c[j]] != ptr
  }

  lemma {:induction false} FirstSizeAt(ptrs: seq<nat>, sizes: seq<nat>, c: seq<nat>, ptr: nat, k: nat)
    requires |ptrs| == |sizes| && forall i :: 0 <= i < |c| ==> c[i] < |ptrs|
    requires k < |c| && forall j :: 0 <= j < k ==> ptrs[c[j]] != ptr
    ensures FirstSize(ptrs, sizes, c, ptr) == FirstSize(ptrs, sizes, c[k..], ptr)
    ensures FirstSize(ptrs, sizes, Drop(c, k), ptr) == FirstSize(ptrs, sizes, c[k + 1..], ptr)
  {
    if k == 0 {
      assert c[0..] == c && Drop(c, 0) == c[1..];
    } else {
      assert Drop(c, k)[0] == c[0] && Drop(c, k)[1..] == Drop(c[1..], k - 1);
      assert c[1..][k - 1..] == c[k..] && c[1..][k..] == c[k + 1..];
      FirstSizeAt(ptrs, sizes, c[1..], ptr, k - 1);
    }
  }

  lemma {:induction false} NoSize(ptrs: seq<nat>, sizes: seq<nat>, c: seq<nat>, ptr: nat)
    requires |ptrs| == |sizes| && forall i :: 0 <= i < |c| ==> c[i] < |ptrs|
    requires forall i :: 0 <= i < |c| ==> ptrs[c[i]] != ptr
    ensures FirstSize(ptrs, sizes, c, ptr) == -1
  {
    if c != [] {
      NoSize(ptrs, sizes, c[1..], ptr);
    }
  }

  lemma {:induction false} ChainBegins(m: Heap, h: nat)
    requires Sound(m) && h < HASH_SIZE
    ensures m.heads[h] == At(m.chains[h], 0)
    ensures forall i :: 0 <= i < |m.chains[h]| ==> m.chains[h][i] < HEAP_SIZE
  {
    assert ChainOk(m, h);
  }

  lemma {:induction false} ChainGoesOn(m: Heap, h: nat, k: nat)
    requires Sound(m) && h < HASH_SIZE && k < |m.chains[h]|
    ensures m.chains[h][k] < HEAP_SIZE && m.next[m.chains[h][k]] == At(m.chains[h], k + 1)
  {
    assert ChainOk(m, h);
  }

  /** Where a walk along the chain of `ptr` ends is where its size is recorded. */
  lemma {:induction false} WalkEnds(m: Heap, ptr: nat, k: nat)
    requires Sound(m) && k <= |m.chains[Hash(ptr)]|
    requires forall j :: 0 <= j < |m.chains[Hash(ptr)]| ==> m.chains[Hash(ptr)][j] < HEAP_SIZE
    requires forall j :: 0 <= j < k ==> m.ptrs[m.chains[Hash(ptr)][j]] != ptr
    requires k < |m.chains[Hash(ptr)]| ==> m.ptrs[m.chains[Hash(ptr)][k]] == ptr
    ensures k < |m.chains[Hash(ptr)]| ==> FirstAt(m, ptr, k) && SizeOf(m, ptr) == m.sizes[m.chains[Hash(ptr)][k]]
    ensures k == |m.chains[Hash(ptr)]| ==> SizeOf(m, ptr) == -1
  {
    if k < |m.chains[Hash(ptr)]| {
      FirstSizeAt(m.ptrs, m.sizes, m.chains[Hash(ptr)], ptr, k);
    } else {
      NoSize(m.ptrs, m.sizes, m.chains[Hash(ptr)], ptr);
    }
  }

  /** Deleting a pointer brings back what was recorded for it before: the next slot
      behind that holds it. */
  lemma {:induction false} DelUncovers(m: Heap, ptr: nat, k: nat)
    requires Sound(m) && FirstAt(m, ptr, k)
    ensures ChainOk(m, Hash(ptr)) && Sound(AfterDel(m, Hash(ptr), k))
    ensures var c := m.chains[Hash(ptr)];
      && SizeOf(m, ptr) == m.sizes[c[k]]
      && SizeOf(AfterDel(m, Hash(ptr), k), ptr) == FirstSize(m.ptrs, m.sizes, c[k + 1..], ptr)
  {
    DelKeepsSound(m, Hash(ptr), k);
    FirstSizeAt(m.ptrs, m.sizes, m.chains[Hash(ptr)], ptr, k);
  }

  lemma {:induction false} WordThere(bytes: nat, size: nat)
    requires bytes < WORD
    ensures MinusWord(PlusWord(bytes, size), size) == bytes
  {
  }

  /** What was added last is found first. */
  lemma {:induction false} AddedIsFirst(m: Heap, ptr: nat, size: nat, k: nat)
    requires Sound(m) && m.free != []
    requires Sound(AfterAdd(m, ptr, size)) && FirstAt(AfterAdd(m, ptr, size), ptr, k)
    ensures k == 0 && ChainOk(AfterAdd(m, ptr, size), Hash(ptr))
  {
    var added := AfterAdd(m, ptr, size);
    assert added.chains[Hash(ptr)][0] == m.free[0];
  }

  /** Deleting what was just added takes the same slot off again: lists and counters
      are as before, and so is the size recorded for every pointer, an older block
      with the same pointer included. */
  lemma {:induction false} AddThenDel(m: Heap, ptr: nat, size: nat, k: nat, q: nat)
    requires Sound(m) && m.free != []
    requires Sound(AfterAdd(m, ptr, size)) && FirstAt(AfterAdd(m, ptr, size), ptr, k)
    ensures var added := AfterAdd(m, ptr, size);
      && k == 0 && ChainOk(added, Hash(ptr))
      && AfterDel(added, Hash(ptr), k) == m.(ptrs := added.ptrs, sizes := added.sizes)
      && Sound(AfterDel(added, Hash(ptr), k)) && SizeOf(AfterDel(added, Hash(ptr), k), q) == SizeOf(m, q)
  {
    var added, slot, h := AfterAdd(m, ptr, size), m.free[0], Hash(ptr);
    AddedIsFirst(m, ptr, size, k);
    DelKeepsSound(added, h, 0);
    AddDelUndone(m, ptr, size, h, slot);
    UnusedSize(m, q, slot, ptr, size, AfterDel(added, h, 0));
  }

  /** What a free slot holds is no pointer's size. */
  lemma {:induction false} UnusedSize(m: Heap, q: nat, slot: nat, ptr: nat, size: nat, r: Heap)
    requires Sound(m) && slot < HEAP_SIZE && m.owner[slot] == FREE
    requires r == m.(ptrs := m.ptrs[slot := ptr], sizes := m.sizes[slot := size]) && Sound(r)
    ensures SizeOf(r, q) == SizeOf(m, q)
  {
    assert ChainOk(m, Hash(q)) && slot !in m.chains[Hash(q)];
    SizeElsewhere(m.ptrs, m.sizes, m.chains[Hash(q)], q, slot, ptr, size);
  }

  lemma {:induction false} Restored<T>(s: seq<T>, i: nat, x: T)
    requires i < |s|
    ensures s[i := x][i := s[i]] == s
  {
  }

  lemma {:induction false} AddDelUndone(m: Heap, ptr: nat, size: nat, h: nat, slot: nat)
    requires SizesOk(m) && FreeOk(m) && m.free != [] && h == Hash(ptr) && slot == m.free[0] == m.freeHead
    requires slot < HEAP_SIZE && m.owner[slot] == FREE && m.bytes < WORD
    requires ChainOk(AfterAdd(m, ptr, size), h)
    ensures var added := AfterAdd(m, ptr, size);
      AfterDel(added, h, 0) == m.(ptrs := added.ptrs, sizes := added.sizes)
  {
    var c, past := m.chains[h], [slot] + m.chains[h];
    Restored(m.next, slot, m.heads[h]);
    Restored(m.heads, h, slot);
    Restored(m.owner, slot, h);
    Restored(m.chains, h, past);
    assert Drop(past, 0) == c && [slot] + m.free[1..] == m.free;
    WordThere(m.bytes, size);
  }

  // ---------------------------------------------------------------------
  // The object
  // ---------------------------------------------------------------------

  class MemTracer {
    const next: array<nat>
    const ptrs: array<nat>
    const sizes: array<nat>
    const heads: array<nat>
    var freeHead: nat
    var blocks: nat
    var bytes: nat
    ghost var owner: seq<int>
    ghost var free: seq<nat>
    ghost var chains: seq<seq<nat>>

    ghost function View(): Heap
      reads this, next, ptrs, sizes, heads
    {
      Heap(next[..], ptrs[..], sizes[..], heads[..], freeHead, blocks, bytes, owner, free, chains)
    }

    ghost predicate Arrays()
      reads this
    {
      && next != ptrs && next != sizes && next != heads
      && ptrs != sizes && ptrs != heads && sizes != heads
      && next.Length == HEAP_SIZE && ptrs.Length == HEAP_SIZE && sizes.Length == HEAP_SIZE
      && heads.Length == HASH_SIZE
    }

    ghost predicate Valid()
      reads this, next, ptrs, sizes, heads
    {
      Arrays() && Sound(View())
    }

    /** `z_mem_trace_init`: all slots on the free list, all chains empty. */
    constructor ()
      ensures Valid() && blocks == 0 && bytes == 0
      ensures |free| == HEAP_SIZE && forall h :: 0 <= h < HASH_SIZE ==> chains[h] == []
    {
      next := new nat[HEAP_SIZE](i => i + 1);
      ptrs := new nat[HEAP_SIZE](_ => 0);
      sizes := new nat[HEAP_SIZE](_ => 0);
      heads := new nat[HASH_SIZE](_ => NIL);
      freeHead, blocks, bytes := 0, 0, 0;
      owner, free, chains := InitialHeap().owner, InitialHeap().free, InitialHeap().chains;
      new;
      next[HEAP_SIZE - 1] := NIL;
      InitialIsSound();
      assert View() == InitialHeap();
    }

    /** Takes the first free slot for a block. */
    method TakeFree(ptr: nat, size: nat)
      requires Arrays() && SizesOk(View()) && FreeOk(View()) && free != []
      modifies this, next, ptrs, sizes, heads
      ensures View() == AfterAdd(old(View()), ptr, size)
    {
      var hash := Hash(ptr);
      var slot := freeHead;
      blocks := blocks + 1;
      bytes := PlusWord(bytes, size);
      freeHead := next[slot];
      ptrs[slot] := ptr;
      sizes[slot] := size;
      next[slot] := heads[hash];
      heads[hash] := slot;
      owner, free, chains := owner[slot := hash], free[1..], chains[hash := [slot] + chains[hash]];
    }

    /** `z_mem_trace_add`; without a free slot nothing is recorded. */
    method Add(ptr: nat, size: nat) returns (ok: bool)
      requires Valid()
      modifies this, next, ptrs, sizes, heads
      ensures Valid()
      ensures ok <==> old(free) != []
      ensures ok ==> View() == AfterAdd(old(View()), ptr, size)
      ensures !ok ==> View() == old(View())
    {
      ok := freeHead != NIL;
      if ok {
        AddKeepsSound(View(), ptr, size);
        TakeFree(ptr, size);
      }
    }

    /** Walks the chain of `ptr` to the first slot that holds it, the `k`-th one;
        `prev` is the slot before it, or NIL. */
    method Walk(ptr: nat) returns (prev: nat, cur: nat, ghost k: nat)
      requires Valid()
      ensures k <= |chains[Hash(ptr)]| && cur == At(chains[Hash(ptr)], k)
      ensures prev == if k == 0 then NIL else chains[Hash(ptr)][k - 1]
      ensures k == |chains[Hash(ptr)]| <==> cur == NIL
      ensures cur != NIL ==> cur < HEAP_SIZE && FirstAt(View(), ptr, k)
      ensures SizeOf(View(), ptr) == if cur == NIL then -1 else sizes[cur]
    {
      var h := Hash(ptr);
      ghost var m, c := View(), chains[h];
      ChainBegins(m, h);
      prev, cur, k := NIL, heads[h], 0;
      while cur != NIL && ptrs[cur] != ptr
        invariant k <= |c| && cur == At(c, k) && prev == if k == 0 then NIL else c[k - 1]
        invariant forall j :: 0 <= j < k ==> m.ptrs[c[j]] != ptr
        decreases |c| - k
      {
        ChainGoesOn(m, h, k);
        prev, cur, k := cur, next[cur], k + 1;
      }
      WalkEnds(m, ptr, k);
    }

    /** Links past slot `cur`, which is behind `prev` on chain `h`. */
    method LinkPast(h: nat, prev: nat, cur: nat)
      requires Arrays() && h < HASH_SIZE && cur < HEAP_SIZE && (prev == NIL || prev < HEAP_SIZE)
      modifies next, heads
      ensures next[..] == if prev == NIL then old(next[..]) else old(next[..])[prev := old(next[cur])]
      ensures heads[..] == if prev == NIL then old(heads[..])[h := old(next[cur])] else old(heads[..])
    {
      if prev == NIL {
        heads[h] := next[cur];
      } else {
        next[prev] := next[cur];
      }
    }

    /** Puts slot `cur` in front of the free list. */
    method PutFree(cur: nat)
      requires Arrays() && cur < HEAP_SIZE && blocks > 0
      modifies `freeHead, `blocks, `bytes, next
      ensures next[..] == old(next[..])[cur := old(freeHead)] && freeHead == cur
      ensures blocks == old(blocks) - 1 && bytes == MinusWord(old(bytes), sizes[cur])
    {
      next[cur] := freeHead;
      freeHead := cur;
      blocks := blocks - 1;
      bytes := MinusWord(bytes, sizes[cur]);
    }

    /** Takes slot `cur`, behind `prev`, off its chain and frees it. */
    method TakeOff(h: nat, prev: nat, cur: nat, ghost k: nat)
      requires Arrays() && SizesOk(View()) && blocks > 0
      requires h < HASH_SIZE && k < |chains[h]| && cur == chains[h][k] && ChainOk(View(), h)
      requires prev == if k == 0 then NIL else chains[h][k - 1]
      modifies this, next, heads
      ensures View() == AfterDel(old(View()), h, k)
    {
      ghost var m, past := View(), if prev == NIL then next[..] else next[..][prev := next[cur]];
      LinkPast(h, prev, cur);
      assert next[..] == past && sizes[cur] == m.sizes[cur];
      PutFree(cur);
      owner, free, chains := owner[cur := FREE], [cur] + free, chains[h := Drop(chains[h], k)];
      assert ptrs[..] == m.ptrs && sizes[..] == m.sizes;
      assert View() == Unchained(m, h, k, prev, cur, past);
    }

    /** `z_mem_trace_del`: the block recorded last for `ptr`, the `k`-th on its
        chain, goes back to the free list (`AddThenDel`, `DelUncovers`). */
    method Del(ptr: nat) returns (ok: bool, ghost k: nat)
      requires Valid()
      modifies this, next, heads
      ensures Valid()
      ensures ok <==> SizeOf(old(View()), ptr) != -1
      ensures !ok ==> View() == old(View())
      ensures ok ==> FirstAt(old(View()), ptr, k) && ChainOk(old(View()), Hash(ptr))
      ensures ok ==> View() == AfterDel(old(View()), Hash(ptr), k)
    {
      var prev, cur;
      prev, cur, k := Walk(ptr);
      ok := cur != NIL;
      if ok {
        DelKeepsSound(View(), Hash(ptr), k);
        DelCounts(View(), Hash(ptr), k);
        TakeOff(Hash(ptr), prev, cur, k);
      }
    }

    /** `z_mem_trace_getsize`. */
    method GetSize(ptr: nat) returns (size: int)
      requires Valid()
      ensures size == SizeOf(View(), ptr)
    {
      var prev, cur, k := Walk(ptr);
      size := -1;
      if cur != NIL {
        size := sizes[cur];
      }
    }
  }

  ghost function InitialHeap(): Heap {
    Heap(Counting(HEAP_SIZE), seq(HEAP_SIZE, _ => 0), seq(HEAP_SIZE, _ => 0),
         seq(HASH_SIZE, _ => NIL), 0, 0, 0,
         seq(HEAP_SIZE, _ => FREE), seq(HEAP_SIZE, i => i), seq(HASH_SIZE, _ => []))
  }

  /** Each slot points to the one after it. */
  function Counting(n: nat): seq<nat> {
    seq(n, i => if i == n - 1 then NIL else i + 1)
  }

  lemma {:induction false} CountingLinks(n: nat)
    requires n > 0
    ensures Linked(Counting(n), 0, seq(n, i => i))
  {
  }

  lemma {:induction false} AllListed(n: nat)
    ensures Lists(seq(n, _ => FREE), FREE, seq(n, i => i))
  {
    var s: seq<nat> := seq(n, i => i);
    forall slot | 0 <= slot < n ensures slot in s {
      assert s[slot] == slot;
    }
  }

  lemma {:induction false} InitialIsSound()
    ensures Sound(InitialHeap())
  {
    var m := InitialHeap();
    NothingUsed(m.owner, m.sizes);
    CountingLinks(HEAP_SIZE);
    AllListed(HEAP_SIZE);
    forall h | 0 <= h < HASH_SIZE ensures ChainOk(m, h) {}
  }

  lemma {:induction false} NothingUsed(owner: seq<int>, sizes: seq<nat>)
    requires |owner| == |sizes| && forall i :: 0 <= i < |owner| ==> owner[i] == FREE
    ensures UsedSlots(owner) == 0 && UsedBytes(owner, sizes) == 0
  {
    if owner != [] {
      NothingUsed(owner[..|owner| - 1], sizes[..|owner| - 1]);
    }
  }

  /** A chained slot is counted. */
  lemma {:induction false} DelCounts(m: Heap, h: nat, k: nat)
    requires Sound(m) && h < HASH_SIZE && k < |m.chains[h]|
    ensures m.blocks > 0
  {
    assert ChainOk(m, h);
    UsedUpdate(m.owner, m.sizes, m.chains[h][k], FREE, 0);
  }
}
