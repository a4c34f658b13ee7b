/** When flow control rules out message loss (logwriter.c:193-213): a writer fed
    only over flow-controlled routes never drops a message in any run if its queue
    holds the sum of its sources' budgets, each as often as a message of that
    source can be delivered to the writer. */
module NoLoss {
  import opened Sequences
  import opened AckStack
  import opened Routing
  import opened Pipeline
  import opened Tokens
  import opened Delivery
  import W = Writers

  // ---------------------------------------------------------------------
  // The condition
  // ---------------------------------------------------------------------

  /** How far a source's window can go below zero: a dispatch that keeps reading
      after the window closed still emits up to its fetch limit. */
  function Overshoot(sc: SourceConfig): int {
    if sc.singleRead then 0 else sc.fetchLimit - 1
  }

  /** The most messages of a source that can be unacknowledged at once. */
  function Budget(sc: SourceConfig): int {
    if sc.initWindow <= 0 then 0 else sc.initWindow + Overshoot(sc)
  }

  /** How often a walk over `ws` visits `w`. */
  function Hits(ws: seq<nat>, w: nat): nat {
    if ws == [] then 0 else Hits(ws[..|ws| - 1], w) + if ws[|ws| - 1] == w then 1 else 0
  }

  /** The deliveries of the first `n` connections, if all of them are served. */
  function Deliveries(cfg: Config, n: nat): nat
    requires ConfigOk(cfg) && n <= |cfg.conns|
  {
    if n == 0 then 0 else Deliveries(cfg, n - 1) + |WritersOf(cfg, RoutesOf(cfg.conns[n - 1]))|
  }

  ghost predicate HitsExactly(cfg: Config, s: nat, w: nat, m: nat)
    requires ConfigOk(cfg) && s < |cfg.sources|
  {
    exists input :: cfg.possible(s, input) && Hits(Reached(cfg, s, input), w) == m
  }

  ghost function MostUpTo(cfg: Config, s: nat, w: nat, m: nat): nat
    requires ConfigOk(cfg) && s < |cfg.sources|
  {
    if m == 0 || HitsExactly(cfg, s, w, m) then m else MostUpTo(cfg, s, w, m - 1)
  }

  /** The most often that a message of source `s` is delivered to writer `w`. */
  ghost function Most(cfg: Config, s: nat, w: nat): nat
    requires ConfigOk(cfg) && s < |cfg.sources|
  {
    MostUpTo(cfg, s, w, Deliveries(cfg, |cfg.conns|))
  }

  /** The budgets of the first `n` sources, as often as each can hit `w`. */
  ghost function TotalBudget(cfg: Config, w: nat, n: nat): int
    requires ConfigOk(cfg) && n <= |cfg.sources|
  {
    if n == 0 then 0
    else TotalBudget(cfg, w, n - 1) + Most(cfg, n - 1, w) * Budget(cfg.sources[n - 1])
  }

  /** Every log statement that names a group containing `w` is flow controlled. */
  ghost predicate Guarded(cfg: Config, w: nat)
    requires ConfigOk(cfg)
  {
    forall c, d ::
      (0 <= c < |cfg.conns| && 0 <= d < |cfg.conns[c].dests| && w in cfg.groups[cfg.conns[c].dests[d]])
      ==> cfg.conns[c].flow
  }

  // ---------------------------------------------------------------------
  // The most deliveries of one message
  // ---------------------------------------------------------------------

  lemma {:induction false} WritersAppend(cfg: Config, a: seq<Route>, b: seq<Route>)
    requires RoutesOk(cfg, a) && RoutesOk(cfg, b)
    ensures RoutesOk(cfg, a + b) && WritersOf(cfg, a + b) == WritersOf(cfg, a) + WritersOf(cfg, b)
  {
    if b == [] {
      assert a + b == a;
    } else {
      assert (a + b)[..|a + b| - 1] == a + b[..|b| - 1];
      WritersAppend(cfg, a, b[..|b| - 1]);
    }
  }

  lemma {:induction false} DeliveriesBound(cfg: Config, f: Facts, n: nat)
    requires ConfigOk(cfg) && n <= |cfg.conns|
    ensures RoutesOk(cfg, RoutesUpTo(cfg.conns, f, n))
    ensures |WritersOf(cfg, RoutesUpTo(cfg.conns, f, n))| <= Deliveries(cfg, n)
  {
    if n > 0 {
      DeliveriesBound(cfg, f, n - 1);
      if Served(cfg.conns, f, n - 1) {
        WritersAppend(cfg, RoutesUpTo(cfg.conns, f, n - 1), RoutesOf(cfg.conns[n - 1]));
      } else {
        assert RoutesUpTo(cfg.conns, f, n) == RoutesUpTo(cfg.conns, f, n - 1);
      }
    }
  }

  lemma {:induction false} HitsWithin(ws: seq<nat>, w: nat)
    ensures Hits(ws, w) <= |ws|
  {
    if ws != [] {
      HitsWithin(ws[..|ws| - 1], w);
    }
  }

  lemma {:induction false} MostUpToHolds(cfg: Config, s: nat, w: nat, m: nat, hits: nat)
    requires ConfigOk(cfg) && s < |cfg.sources| && hits <= m && HitsExactly(cfg, s, w, hits)
    ensures hits <= MostUpTo(cfg, s, w, m)
  {
    if m > hits {
      MostUpToHolds(cfg, s, w, m - 1, hits);
    }
  }

  lemma {:induction false} MostUpToReached(cfg: Config, s: nat, w: nat, m: nat)
    requires ConfigOk(cfg) && s < |cfg.sources| && MostUpTo(cfg, s, w, m) > 0
    ensures HitsExactly(cfg, s, w, MostUpTo(cfg, s, w, m))
  {
    if m > 0 && !HitsExactly(cfg, s, w, m) {
      MostUpToReached(cfg, s, w, m - 1);
    }
  }

  /** `Most` is a maximum: no message the source can read is delivered more often. */
  lemma {:induction false} MostIsMaximum(cfg: Config, s: nat, w: nat, input: Input)
    requires ConfigOk(cfg) && s < |cfg.sources| && cfg.possible(s, input)
    ensures Hits(Reached(cfg, s, input), w) <= Most(cfg, s, w)
  {
    var n := |cfg.conns|;
    DeliveriesBound(cfg, Facts(cfg.sources[s].name, cfg.accepts(s, input)), n);
    HitsWithin(Reached(cfg, s, input), w);
    MostUpToHolds(cfg, s, w, Deliveries(cfg, n), Hits(Reached(cfg, s, input), w));
  }

  /** And if it is not zero, some message the source can read is delivered so often. */
  lemma {:induction false} MostIsReached(cfg: Config, s: nat, w: nat)
    requires ConfigOk(cfg) && s < |cfg.sources| && Most(cfg, s, w) > 0
    ensures HitsExactly(cfg, s, w, Most(cfg, s, w))
  {
    MostUpToReached(cfg, s, w, Deliveries(cfg, |cfg.conns|));
  }

  // ---------------------------------------------------------------------
  // What a guarded writer's queue can hold
  // ---------------------------------------------------------------------

  ghost predicate FloorOk(cfg: Config, net: Net)
    requires |net.windows| == |cfg.sources|
  {
    forall s :: 0 <= s < |cfg.sources| ==> net.windows[s] >= cfg.sources[s].initWindow - Budget(cfg.sources[s])
  }

  /** The queue holds flow-controlled copies, of each message at most as many as
      can be delivered. */
  ghost predicate CopiesOk(cfg: Config, msgs: seq<Msg>, q: seq<W.Entry>, w: nat)
    requires ConfigOk(cfg) && forall i :: 0 <= i < |msgs| ==> msgs[i].source < |cfg.sources|
    requires forall k :: 0 <= k < |q| ==> q[k].id < |msgs|
  {
    && (forall k :: 0 <= k < |q| ==> q[k].flow)
    && (forall id :: 0 <= id < |msgs| ==> CountIn(q, id, false) <= Most(cfg, msgs[id].source, w))
  }

  /** Nothing was dropped; the queue holds only flow-controlled copies, not too
      many of any message; no window is below its floor. */
  ghost predicate Safe(cfg: Config, net: Net, w: nat)
    requires ConfigOk(cfg) && Shape(cfg, net) && w < |cfg.fifo|
  {
    && net.writers[w].dropped == 0
    && CopiesOk(cfg, net.msgs, net.writers[w].queue, w)
    && FloorOk(cfg, net)
  }

  /** The number of entries of `q` that are copies of the first `n` messages. */
  function CountBelow(q: seq<W.Entry>, n: nat): nat {
    if n == 0 then 0 else CountBelow(q, n - 1) + CountIn(q, n - 1, false)
  }

  lemma {:induction false} CountBelowEmpty(n: nat)
    ensures CountBelow([], n) == 0
  {
    if n > 0 {
      CountBelowEmpty(n - 1);
    }
  }

  lemma {:induction false} CountBelowHead(q: seq<W.Entry>, n: nat)
    requires q != []
    ensures CountBelow(q, n) == CountBelow(q[1..], n) + if q[0].id < n then 1 else 0
  {
    if n > 0 {
      CountBelowHead(q, n - 1);
    }
  }

  lemma {:induction false} CountBelowAll(q: seq<W.Entry>, n: nat)
    requires forall k :: 0 <= k < |q| ==> q[k].id < n
    ensures CountBelow(q, n) == |q|
  {
    if q == [] {
      CountBelowEmpty(n);
    } else {
      CountBelowHead(q, n);
      CountBelowAll(q[1..], n);
    }
  }

  /** The copies that the unacknowledged messages among `msgs` can have at `w`. */
  ghost function OpenCopies(cfg: Config, msgs: seq<Msg>, w: nat): nat
    requires ConfigOk(cfg) && forall i :: 0 <= i < |msgs| ==> msgs[i].source < |cfg.sources|
  {
    if msgs == [] then 0
    else
      var m := msgs[|msgs| - 1];
      OpenCopies(cfg, msgs[..|msgs| - 1], w) + if m.blocks != [] then Most(cfg, m.source, w) else 0
  }

  /** The same number, counted source by source. */
  ghost function CopiesBySource(cfg: Config, msgs: seq<Msg>, w: nat, n: nat): int
    requires ConfigOk(cfg) && n <= |cfg.sources|
  {
    if n == 0 then 0
    else CopiesBySource(cfg, msgs, w, n - 1) + Most(cfg, n - 1, w) * Outstanding(msgs, n - 1)
  }

  lemma {:induction false} OneMore(m: int, a: int, b: int, d: int)
    requires b == a + d && 0 <= d <= 1
    ensures m * b == m * a + if d == 1 then m else 0
  {
  }

  lemma {:induction false} CopiesBySourceSnoc(cfg: Config, msgs: seq<Msg>, w: nat, n: nat)
    requires ConfigOk(cfg) && n <= |cfg.sources|
    requires msgs != [] && msgs[|msgs| - 1].source < |cfg.sources|
    ensures var m := msgs[|msgs| - 1];
      CopiesBySource(cfg, msgs, w, n)
      == CopiesBySource(cfg, msgs[..|msgs| - 1], w, n)
       + if m.source < n && m.blocks != [] then Most(cfg, m.source, w) else 0
  {
    if n > 0 {
      CopiesBySourceSnoc(cfg, msgs, w, n - 1);
      var before, s := msgs[..|msgs| - 1], n - 1;
      OneMore(Most(cfg, s, w), Outstanding(before, s), Outstanding(msgs, s), Open(msgs[|msgs| - 1], s));
    }
  }

  lemma {:induction false} CopiesBySourceNone(cfg: Config, w: nat, n: nat)
    requires ConfigOk(cfg) && n <= |cfg.sources|
    ensures CopiesBySource(cfg, [], w, n) == 0
  {
    if n > 0 {
      CopiesBySourceNone(cfg, w, n - 1);
    }
  }

  lemma {:induction false} OpenCopiesBySource(cfg: Config, msgs: seq<Msg>, w: nat)
    requires ConfigOk(cfg) && forall i :: 0 <= i < |msgs| ==> msgs[i].source < |cfg.sources|
    ensures OpenCopies(cfg, msgs, w) == CopiesBySource(cfg, msgs, w, |cfg.sources|)
  {
    if msgs == [] {
      CopiesBySourceNone(cfg, w, |cfg.sources|);
    } else {
      OpenCopiesBySource(cfg, msgs[..|msgs| - 1], w);
      CopiesBySourceSnoc(cfg, msgs, w, |cfg.sources|);
    }
  }

  lemma {:induction false} Monotone(m: nat, a: int, b: int)
    requires a <= b
    ensures m * a <= m * b
  {
  }

  lemma {:induction false} CopiesWithinBudget(cfg: Config, net: Net, w: nat, n: nat)
    requires ConfigOk(cfg) && Shape(cfg, net) && WindowsOk(cfg, net) && FloorOk(cfg, net) && n <= |cfg.sources|
    ensures CopiesBySource(cfg, net.msgs, w, n) <= TotalBudget(cfg, w, n)
  {
    if n > 0 {
      CopiesWithinBudget(cfg, net, w, n - 1);
      Monotone(Most(cfg, n - 1, w), Outstanding(net.msgs, n - 1), Budget(cfg.sources[n - 1]));
    }
  }

  lemma {:induction false} CopyCounted(q: seq<W.Entry>, k: nat)
    requires k < |q|
    ensures CountIn(q, q[k].id, false) >= 1
    ensures q[k].flow ==> CountIn(q, q[k].id, true) >= 1
  {
    if k > 0 {
      CopyCounted(q[1..], k - 1);
    }
  }

  lemma {:induction false} CopyFound(q: seq<W.Entry>, id: nat) returns (k: nat)
    requires CountIn(q, id, false) >= 1
    ensures k < |q| && q[k].id == id
  {
    if q[0].id == id {
      k := 0;
    } else {
      k := CopyFound(q[1..], id);
      k := k + 1;
    }
  }

  lemma {:induction false} CopiesAtLeast(ws: seq<W.State>, w: nat, id: nat, flowOnly: bool)
    requires w < |ws|
    ensures Copies(ws, id, flowOnly) >= CountIn(ws[w].queue, id, flowOnly)
  {
    if w > 0 {
      CopiesAtLeast(ws[1..], w - 1, id, flowOnly);
    }
  }

  /** A message that is still owed an acknowledgement is not yet acknowledged to
      its source. */
  lemma {:induction false} OwedIsOpen(net: Net, f: Focus, id: nat)
    requires id < |net.msgs| && OkFor(net, [], f, id)
    requires Copies(net.writers, id, true) > 0 || (f.id == id && f.own > 0)
    ensures net.msgs[id].blocks != []
  {
    UnfinishedOwes(net.msgs[id].blocks);
  }

  /** A message with a flow-controlled copy in a queue is not. */
  lemma {:induction false} QueuedIsOpen(cfg: Config, net: Net, f: Focus, w: nat, id: nat)
    requires Inv(cfg, net, [], f) && w < |cfg.fifo| && id < |net.msgs|
    requires CountIn(net.writers[w].queue, id, true) > 0
    ensures net.msgs[id].blocks != []
  {
    CopiesAtLeast(net.writers, w, id, true);
    assert OkFor(net, [], f, id);
    OwedIsOpen(net, f, id);
  }

  /** A message that is not open has no copy in the queue. */
  lemma {:induction false} ClosedHasNoCopy(cfg: Config, net: Net, f: Focus, w: nat, id: nat)
    requires ConfigOk(cfg) && Inv(cfg, net, [], f) && w < |cfg.fifo| && Safe(cfg, net, w)
    requires id < |net.msgs| && net.msgs[id].blocks == []
    ensures CountIn(net.writers[w].queue, id, false) == 0
  {
    if CountIn(net.writers[w].queue, id, false) > 0 {
      var k := CopyFound(net.writers[w].queue, id);
      CopyCounted(net.writers[w].queue, k);
      QueuedIsOpen(cfg, net, f, w, id);
    }
  }

  /** What the counting needs of each message: a closed one has no copy in `q`, an
      open one not too many, and `skip` one less than it can have. */
  ghost predicate CountsOk(cfg: Config, msgs: seq<Msg>, q: seq<W.Entry>, w: nat, skip: nat)
    requires ConfigOk(cfg) && forall i :: 0 <= i < |msgs| ==> msgs[i].source < |cfg.sources|
  {
    forall id :: 0 <= id < |msgs| ==>
      CountIn(q, id, false) + (if id == skip then 1 else 0)
      <= if msgs[id].blocks != [] then Most(cfg, msgs[id].source, w) else 0
  }

  lemma {:induction false} QueueWithinOpen(cfg: Config, msgs: seq<Msg>, q: seq<W.Entry>, w: nat, n: nat, skip: nat)
    requires ConfigOk(cfg) && forall i :: 0 <= i < |msgs| ==> msgs[i].source < |cfg.sources|
    requires CountsOk(cfg, msgs, q, w, skip) && n <= |msgs|
    ensures CountBelow(q, n) + (if skip < n then 1 else 0) <= OpenCopies(cfg, msgs[..n], w)
  {
    if n > 0 {
      QueueWithinOpen(cfg, msgs, q, w, n - 1, skip);
      assert msgs[..n][..n - 1] == msgs[..n - 1];
    }
  }

  lemma {:induction false} SafeCounts(cfg: Config, net: Net, f: Focus, w: nat)
    requires ConfigOk(cfg) && Inv(cfg, net, [], f) && w < |cfg.fifo| && Safe(cfg, net, w)
    requires f.id < |net.msgs| && f.own > 0
    requires CountIn(net.writers[w].queue, f.id, false) < Most(cfg, net.msgs[f.id].source, w)
    ensures CountsOk(cfg, net.msgs, net.writers[w].queue, w, f.id)
  {
    assert OkFor(net, [], f, f.id);
    OwedIsOpen(net, f, f.id);
    forall id | 0 <= id < |net.msgs| && net.msgs[id].blocks == []
      ensures CountIn(net.writers[w].queue, id, false) == 0
    {
      ClosedHasNoCopy(cfg, net, f, w, id);
    }
  }

  /** Room for one more: while a message is being delivered that can still get
      another copy at `w`, the queue is shorter than the total budget. */
  lemma {:induction false} RoomForOne(cfg: Config, net: Net, f: Focus, w: nat)
    requires ConfigOk(cfg) && Inv(cfg, net, [], f) && w < |cfg.fifo| && Safe(cfg, net, w)
    requires f.id < |net.msgs| && f.own > 0
    requires CountIn(net.writers[w].queue, f.id, false) < Most(cfg, net.msgs[f.id].source, w)
    ensures |net.writers[w].queue| < TotalBudget(cfg, w, |cfg.sources|)
  {
    var q := net.writers[w].queue;
    SafeCounts(cfg, net, f, w);
    QueueWithinOpen(cfg, net.msgs, q, w, |net.msgs|, f.id);
    assert net.msgs[..|net.msgs|] == net.msgs;
    CountBelowAll(q, |net.msgs|);
    OpenCopiesBySource(cfg, net.msgs, w);
    CopiesWithinBudget(cfg, net, w, |cfg.sources|);
  }

  // ---------------------------------------------------------------------
  // Single operations
  // ---------------------------------------------------------------------

  /** No window shrinks, no message changes its source, none appears. */
  ghost predicate Eased(net: Net, net': Net) {
    && |net'.windows| == |net.windows|
    && (forall s :: 0 <= s < |net.windows| ==> net'.windows[s] >= net.windows[s])
    && |net'.msgs| == |net.msgs|
    && (forall i :: 0 <= i < |net.msgs| ==> net'.msgs[i].source == net.msgs[i].source)
  }

  lemma {:induction false} MsgOpEases(cfg: Config, net: Net, id: nat, owner: Owner)
    requires Shape(cfg, net) && id < |net.msgs|
    ensures Eased(net, OnRef(net, id)) && Eased(net, OnUnref(net, id)) && Eased(net, OnInc(net, id))
    ensures Eased(net, OnStart(net, id, owner)) && Eased(net, OnAck(net, id))
  {
    AckKeepsSource(net.msgs[id]);
  }

  lemma {:induction false} EasedTwice(a: Net, b: Net, c: Net)
    requires Eased(a, b) && Eased(b, c)
    ensures Eased(a, c)
  {
  }

  lemma {:induction false} HandedEases(cfg: Config, net: Net, id: nat, flow: bool)
    requires Shape(cfg, net) && id < |net.msgs|
    ensures var r := Handed(cfg, net, id, flow);
      Eased(net, r) && |r.msgs| == |net.msgs| && r.writers == net.writers
  {
    MsgOpEases(cfg, net, id, GroupAck);
    MsgOpEases(cfg, if flow then OnInc(net, id) else net, id, GroupAck);
  }

  lemma {:induction false} EasedKeepsSafe(cfg: Config, net: Net, net': Net, w: nat)
    requires ConfigOk(cfg) && Shape(cfg, net) && Shape(cfg, net') && w < |cfg.fifo|
    requires Eased(net, net') && net'.writers[w] == net.writers[w] && Safe(cfg, net, w)
    ensures Safe(cfg, net', w)
  {
  }

  lemma {:induction false} DeliverEases(cfg: Config, net: Net, w: nat, e: W.Entry)
    requires Shape(cfg, net) && w < |cfg.fifo| && e.id < |net.msgs|
    ensures Eased(net, OnDeliver(cfg, net, w, e))
  {
    var st := W.AfterQueue(net.writers[w], cfg.fifo[w], e);
    W.QueueKeepsValid(net.writers[w], cfg.fifo[w], e);
    var offered := net.(writers := net.writers[w := st]);
    if |net.writers[w].queue| == cfg.fifo[w] {
      MsgOpEases(cfg, offered, e.id, GroupAck);
      MsgOpKeepsShape(cfg, offered, e.id, GroupAck);
      if e.flow {
        MsgOpEases(cfg, OnAck(offered, e.id), e.id, GroupAck);
      }
    }
  }

  lemma {:induction false} DriverEases(cfg: Config, net: Net, p: Parcel, w: nat, flow: bool)
    requires Shape(cfg, net) && w < |cfg.fifo| && p.id < |net.msgs|
    ensures Eased(net, ToDriver(cfg, net, p, w, flow))
  {
    HandedEases(cfg, net, p.id, flow);
    var held := Handed(cfg, net, p.id, flow);
    var e := W.Entry(p.id, flow, LineFor(cfg, p, w));
    DeliverEases(cfg, held, w, e);
    EasedTwice(net, held, OnDeliver(cfg, held, w, e));
  }

  /** A flow-controlled copy of a message that is not yet queued at `w` goes
      into the queue. */
  lemma {:induction false} EnqueueKeepsSafe(cfg: Config, net: Net, f: Focus, w: nat, e: W.Entry)
    requires ConfigOk(cfg) && Inv(cfg, net, [], f) && w < |cfg.fifo| && Safe(cfg, net, w)
    requires f.id == e.id < |net.msgs| && f.own > 0 && e.flow
    requires CountIn(net.writers[w].queue, e.id, false) < Most(cfg, net.msgs[e.id].source, w)
    requires cfg.fifo[w] >= TotalBudget(cfg, w, |cfg.sources|)
    ensures var net' := OnDeliver(cfg, net, w, e);
      && Shape(cfg, net') && Safe(cfg, net', w)
      && CountIn(net'.writers[w].queue, e.id, false) == CountIn(net.writers[w].queue, e.id, false) + 1
  {
    RoomForOne(cfg, net, f, w);
    EnqueuedIsSafe(cfg, net, w, e);
    assert OnDeliver(cfg, net, w, e) == Enqueued(cfg, net, w, e);
  }

  function Enqueued(cfg: Config, net: Net, w: nat, e: W.Entry): Net
    requires Shape(cfg, net) && w < |cfg.fifo|
  {
    net.(writers := net.writers[w := W.AfterQueue(net.writers[w], cfg.fifo[w], e)])
  }

  lemma {:induction false} EnqueuedIsSafe(cfg: Config, net: Net, w: nat, e: W.Entry)
    requires ConfigOk(cfg) && Shape(cfg, net) && w < |cfg.fifo| && Safe(cfg, net, w)
    requires e.id < |net.msgs| && e.flow && |net.writers[w].queue| != cfg.fifo[w]
    requires CountIn(net.writers[w].queue, e.id, false) < Most(cfg, net.msgs[e.id].source, w)
    ensures var net' := Enqueued(cfg, net, w, e);
      && Shape(cfg, net') && Safe(cfg, net', w)
      && CountIn(net'.writers[w].queue, e.id, false) == CountIn(net.writers[w].queue, e.id, false) + 1
  {
    var net' := Enqueued(cfg, net, w, e);
    QueueOfferKeepsShape(cfg, net, w, e);
    QueueRoom(net.writers[w], cfg.fifo[w], e);
    CopiesSnoc(cfg, net.msgs, net.writers[w].queue, w, e);
  }

  lemma {:induction false} CopiesSnoc(cfg: Config, msgs: seq<Msg>, q: seq<W.Entry>, w: nat, e: W.Entry)
    requires ConfigOk(cfg) && forall i :: 0 <= i < |msgs| ==> msgs[i].source < |cfg.sources|
    requires forall k :: 0 <= k < |q| ==> q[k].id < |msgs|
    requires CopiesOk(cfg, msgs, q, w)
    requires e.id < |msgs| && e.flow && CountIn(q, e.id, false) < Most(cfg, msgs[e.id].source, w)
    ensures CopiesOk(cfg, msgs, q + [e], w) && CountIn(q + [e], e.id, false) == CountIn(q, e.id, false) + 1
  {
    CountSnoc(q, e, e.id);
    forall id | 0 <= id < |msgs| ensures CountIn(q + [e], id, false) <= Most(cfg, msgs[id].source, w) {
      CountSnoc(q, e, id);
    }
  }

  lemma {:induction false} QueueRoom(st: W.State, fifoSize: nat, e: W.Entry)
    requires |st.queue| != fifoSize
    ensures var r := W.AfterQueue(st, fifoSize, e);
      r.queue == st.queue + [e] && r.dropped == st.dropped
  {
  }

  lemma {:induction false} CountSnoc(q: seq<W.Entry>, e: W.Entry, id: nat)
    ensures CountIn(q + [e], id, false) == CountIn(q, id, false) + if e.id == id then 1 else 0
  {
    CountAppend(q, [e], id, false);
    assert [e][1..] == [];
  }

  lemma {:induction false} DriverKeepsSafe(cfg: Config, net: Net, p: Parcel, f: Focus, w': nat, flow: bool, w: nat)
    requires ConfigOk(cfg) && Inv(cfg, net, [], f) && w < |cfg.fifo| && Safe(cfg, net, w)
    requires f.id == p.id < |net.msgs| && f.own > 0 && w' < |cfg.fifo|
    requires w' == w ==> flow && CountIn(net.writers[w].queue, p.id, false) < Most(cfg, net.msgs[p.id].source, w)
    requires cfg.fifo[w] >= TotalBudget(cfg, w, |cfg.sources|)
    ensures var net' := ToDriver(cfg, net, p, w', flow);
      && Safe(cfg, net', w)
      && CountIn(net'.writers[w].queue, p.id, false)
      == CountIn(net.writers[w].queue, p.id, false) + if w' == w then 1 else 0
  {
    if w' == w {
      IncKeepsInv(cfg, net, [], f);
      var f1 := f.(own := f.own + 1);
      RefKeepsInv(cfg, OnInc(net, p.id), [], f1);
      MsgOpEases(cfg, net, p.id, GroupAck);
      MsgOpEases(cfg, OnInc(net, p.id), p.id, GroupAck);
      var held := OnRef(OnInc(net, p.id), p.id);
      EasedKeepsSafe(cfg, net, held, w);
      EnqueueKeepsSafe(cfg, held, f1.(held := f1.held + 1), w, W.Entry(p.id, flow, LineFor(cfg, p, w)));
    } else {
      DriverEases(cfg, net, p, w', flow);
      EasedKeepsSafe(cfg, net, ToDriver(cfg, net, p, w', flow), w);
    }
  }

  // ---------------------------------------------------------------------
  // The fan-out
  // ---------------------------------------------------------------------

  lemma {:induction false} DriversEase(cfg: Config, net: Net, p: Parcel, ws: seq<nat>, flow: bool)
    requires Shape(cfg, net) && p.id < |net.msgs|
    requires forall k :: 0 <= k < |ws| ==> ws[k] < |cfg.fifo|
    ensures Eased(net, ToDrivers(cfg, net, p, ws, flow))
  {
    if ws != [] {
      DriversEase(cfg, net, p, ws[..|ws| - 1], flow);
      DriverEases(cfg, ToDrivers(cfg, net, p, ws[..|ws| - 1], flow), p, ws[|ws| - 1], flow);
    }
  }

  /** `Ready`: message `f.id` may still be delivered to `w` `hits` more times, and
      only flow controlled. */
  ghost predicate Ready(cfg: Config, net: Net, f: Focus, w: nat, flow: bool, hits: nat)
    requires ConfigOk(cfg)
  {
    && Inv(cfg, net, [], f) && w < |cfg.fifo| && Safe(cfg, net, w)
    && f.id < |net.msgs| && f.own > 0
    && (hits > 0 ==> flow)
    && CountIn(net.writers[w].queue, f.id, false) + hits <= Most(cfg, net.msgs[f.id].source, w)
    && cfg.fifo[w] >= TotalBudget(cfg, w, |cfg.sources|)
  }

  lemma {:induction false} DriversKeepSafe(cfg: Config, net: Net, p: Parcel, f: Focus, ws: seq<nat>, flow: bool, w: nat)
    requires ConfigOk(cfg) && p.id == f.id
    requires forall k :: 0 <= k < |ws| ==> ws[k] < |cfg.fifo|
    requires Ready(cfg, net, f, w, flow, Hits(ws, w))
    ensures var net' := ToDrivers(cfg, net, p, ws, flow);
      && Safe(cfg, net', w)
      && CountIn(net'.writers[w].queue, p.id, false) == CountIn(net.writers[w].queue, p.id, false) + Hits(ws, w)
  {
    if ws != [] {
      var before := ws[..|ws| - 1];
      DriversKeepSafe(cfg, net, p, f, before, flow, w);
      DriversKeepInv(cfg, net, p, f, before, flow);
      DriversEase(cfg, net, p, before, flow);
      DriverKeepsSafe(cfg, ToDrivers(cfg, net, p, before, flow), p, f, ws[|ws| - 1], flow, w);
    }
  }

  lemma {:induction false} GroupEnteredKeeps(cfg: Config, net: Net, f: Focus, flow: bool, w: nat)
    requires ConfigOk(cfg) && Inv(cfg, net, [], f) && w < |cfg.fifo| && Safe(cfg, net, w)
    requires f.id < |net.msgs| && f.own > 0
    ensures var net' := GroupEntered(cfg, net, f.id, flow);
      && Inv(cfg, net', [], f) && Safe(cfg, net', w) && Eased(net, net') && net'.writers == net.writers
  {
    if flow {
      RefKeepsInv(cfg, net, [], f);
      StartKeepsInv(cfg, OnRef(net, f.id), [], f.(held := f.held + 1), GroupAck);
      MsgOpEases(cfg, net, f.id, GroupAck);
      MsgOpEases(cfg, OnRef(net, f.id), f.id, GroupAck);
    }
    EasedKeepsSafe(cfg, net, GroupEntered(cfg, net, f.id, flow), w);
  }

  lemma {:induction false} GroupLeftEases(cfg: Config, net: Net, id: nat, flow: bool)
    requires Shape(cfg, net) && id < |net.msgs|
    ensures Eased(net, GroupLeft(cfg, net, id, flow)) && GroupLeft(cfg, net, id, flow).writers == net.writers
  {
    MsgOpEases(cfg, net, id, GroupAck);
    MsgOpKeepsShape(cfg, net, id, GroupAck);
    if flow {
      MsgOpEases(cfg, OnAck(net, id), id, GroupAck);
    }
  }

  lemma {:induction false} GroupEases(cfg: Config, net: Net, p: Parcel, ws: seq<nat>, flow: bool)
    requires Shape(cfg, net) && p.id < |net.msgs|
    requires forall k :: 0 <= k < |ws| ==> ws[k] < |cfg.fifo|
    ensures Eased(net, ToGroup(cfg, net, p, ws, flow))
  {
    MsgOpEases(cfg, net, p.id, GroupAck);
    MsgOpKeepsShape(cfg, net, p.id, GroupAck);
    MsgOpEases(cfg, OnRef(net, p.id), p.id, GroupAck);
    var entered := GroupEntered(cfg, net, p.id, flow);
    assert Eased(net, entered);
    DriversEase(cfg, entered, p, ws, flow);
    GroupLeftEases(cfg, ToDrivers(cfg, entered, p, ws, flow), p.id, flow);
  }

  lemma {:induction false} RouteEases(cfg: Config, net: Net, p: Parcel, r: Route)
    requires ConfigOk(cfg) && Shape(cfg, net) && p.id < |net.msgs| && r.group < |cfg.groups|
    ensures Eased(net, ToRoute(cfg, net, p, r))
  {
    HandedEases(cfg, net, p.id, r.flow);
    var held := Handed(cfg, net, p.id, r.flow);
    GroupEases(cfg, held, p, cfg.groups[r.group], r.flow);
    EasedTwice(net, held, ToGroup(cfg, held, p, cfg.groups[r.group], r.flow));
  }

  lemma {:induction false} RoutesEase(cfg: Config, net: Net, p: Parcel, routes: seq<Route>)
    requires ConfigOk(cfg) && Shape(cfg, net) && p.id < |net.msgs| && RoutesOk(cfg, routes)
    ensures Eased(net, ToRoutes(cfg, net, p, routes))
  {
    if routes != [] {
      var before := routes[..|routes| - 1];
      RoutesEase(cfg, net, p, before);
      RouteEases(cfg, ToRoutes(cfg, net, p, before), p, routes[|routes| - 1]);
    }
  }

  lemma {:induction false} GroupKeepsSafe(cfg: Config, net: Net, p: Parcel, f: Focus, ws: seq<nat>, flow: bool, w: nat)
    requires ConfigOk(cfg) && p.id == f.id
    requires forall k :: 0 <= k < |ws| ==> ws[k] < |cfg.fifo|
    requires Ready(cfg, net, f, w, flow, Hits(ws, w))
    ensures var net' := ToGroup(cfg, net, p, ws, flow);
      && Safe(cfg, net', w) && Eased(net, net')
      && CountIn(net'.writers[w].queue, p.id, false) == CountIn(net.writers[w].queue, p.id, false) + Hits(ws, w)
  {
    GroupEnteredKeeps(cfg, net, f, flow, w);
    var entered := GroupEntered(cfg, net, p.id, flow);
    DriversKeepSafe(cfg, entered, p, f, ws, flow, w);
    DriversEase(cfg, entered, p, ws, flow);
    var served := ToDrivers(cfg, entered, p, ws, flow);
    GroupLeftEases(cfg, served, p.id, flow);
    EasedKeepsSafe(cfg, served, GroupLeft(cfg, served, p.id, flow), w);
  }

  lemma {:induction false} RouteKeepsSafe(cfg: Config, net: Net, p: Parcel, f: Focus, r: Route, w: nat)
    requires ConfigOk(cfg) && p.id == f.id && r.group < |cfg.groups|
    requires Ready(cfg, net, f, w, r.flow, Hits(cfg.groups[r.group], w))
    ensures var net' := ToRoute(cfg, net, p, r);
      && Safe(cfg, net', w) && Eased(net, net')
      && CountIn(net'.writers[w].queue, p.id, false)
      == CountIn(net.writers[w].queue, p.id, false) + Hits(cfg.groups[r.group], w)
  {
    var held := Handed(cfg, net, p.id, r.flow);
    var f' := f.(own := f.own + if r.flow then 1 else 0, held := f.held + 1);
    HandedKeepsReady(cfg, net, f, r.flow, w, Hits(cfg.groups[r.group], w));
    GroupKeepsSafe(cfg, held, p, f', cfg.groups[r.group], r.flow, w);
    EasedTwice(net, held, ToGroup(cfg, held, p, cfg.groups[r.group], r.flow));
  }

  lemma {:induction false} HandedKeepsReady(cfg: Config, net: Net, f: Focus, flow: bool, w: nat, hits: nat)
    requires ConfigOk(cfg) && Ready(cfg, net, f, w, flow, hits)
    ensures var r := Handed(cfg, net, f.id, flow);
      && Ready(cfg, r, f.(own := f.own + if flow then 1 else 0, held := f.held + 1), w, flow, hits)
      && Eased(net, r) && r.writers == net.writers
  {
    HandedEases(cfg, net, f.id, flow);
    HandedKeepsInv(cfg, net, f, flow);
    EasedKeepsSafe(cfg, net, Handed(cfg, net, f.id, flow), w);
  }

  /** All the routes of a message that lead to `w` are flow controlled. */
  ghost predicate RoutesGuarded(cfg: Config, routes: seq<Route>, w: nat)
    requires RoutesOk(cfg, routes)
  {
    forall k :: 0 <= k < |routes| && w in cfg.groups[routes[k].group] ==> routes[k].flow
  }

  lemma {:induction false} HitsAppend(a: seq<nat>, b: seq<nat>, w: nat)
    ensures Hits(a + b, w) == Hits(a, w) + Hits(b, w)
  {
    if b == [] {
      assert a + b == a;
    } else {
      assert (a + b)[..|a + b| - 1] == a + b[..|b| - 1];
      HitsAppend(a, b[..|b| - 1], w);
    }
  }

  lemma {:induction false} HitsMember(ws: seq<nat>, w: nat)
    ensures Hits(ws, w) > 0 <==> w in ws
  {
    if ws != [] {
      HitsMember(ws[..|ws| - 1], w);
      assert ws == ws[..|ws| - 1] + [ws[|ws| - 1]];
    }
  }

  lemma {:induction false} RoutesKeepSafe(cfg: Config, net: Net, p: Parcel, f: Focus, routes: seq<Route>, w: nat)
    requires ConfigOk(cfg) && p.id == f.id && RoutesOk(cfg, routes) && RoutesGuarded(cfg, routes, w)
    requires Ready(cfg, net, f, w, true, Hits(WritersOf(cfg, routes), w))
    ensures var net' := ToRoutes(cfg, net, p, routes);
      && Safe(cfg, net', w) && Eased(net, net')
      && CountIn(net'.writers[w].queue, p.id, false)
      == CountIn(net.writers[w].queue, p.id, false) + Hits(WritersOf(cfg, routes), w)
  {
    if routes != [] {
      var before := routes[..|routes| - 1];
      var last := routes[|routes| - 1];
      HitsAppend(WritersOf(cfg, before), cfg.groups[last.group], w);
      RoutesKeepSafe(cfg, net, p, f, before, w);
      RoutesKeepInv(cfg, net, p, f, before);
      HitsMember(cfg.groups[last.group], w);
      RouteKeepsSafe(cfg, ToRoutes(cfg, net, p, before), p, f, last, w);
    }
  }

  lemma {:induction false} RoutesAreGuarded(cfg: Config, s: nat, input: Input, w: nat)
    requires ConfigOk(cfg) && Guarded(cfg, w) && s < |cfg.sources|
    ensures RoutesGuarded(cfg, RoutesFor(cfg, s, input), w)
  {
    var routes := RoutesFor(cfg, s, input);
    forall k | 0 <= k < |routes| && w in cfg.groups[routes[k].group] ensures routes[k].flow {
      var c, d := RouteHasOrigin(cfg.conns, Facts(cfg.sources[s].name, cfg.accepts(s, input)), |cfg.conns|, routes[k]);
    }
  }

  /** The source may emit: its window is above its floor. */
  ghost predicate MayEmit(cfg: Config, net: Net, src: nat)
    requires Shape(cfg, net)
  {
    src < |cfg.sources| && net.windows[src] - 1 >= cfg.sources[src].initWindow - Budget(cfg.sources[src])
  }

  lemma {:induction false} EnteredKeepsSafe(cfg: Config, net: Net, src: nat, w: nat)
    requires ConfigOk(cfg) && Inv(cfg, net, [], IDLE) && w < |cfg.fifo| && Safe(cfg, net, w) && MayEmit(cfg, net, src)
    ensures var net' := Entered(cfg, net, src);
      && Safe(cfg, net', w) && net'.writers == net.writers && net'.msgs[|net.msgs|].source == src
      && net'.windows[src] == net.windows[src] - 1
      && CountIn(net.writers[w].queue, |net.msgs|, false) == 0
  {
    var id := |net.msgs|;
    var added := OnNew(net, src);
    NewKeepsInv(cfg, net, src);
    RefKeepsInv(cfg, added, [], Focus(id, 1, 0));
    NewIsSafe(cfg, net, src, w);
    MsgOpEases(cfg, added, id, CenterAck);
    MsgOpEases(cfg, OnRef(added, id), id, CenterAck);
    EasedKeepsSafe(cfg, added, Entered(cfg, net, src), w);
  }

  lemma {:induction false} NewIsSafe(cfg: Config, net: Net, src: nat, w: nat)
    requires ConfigOk(cfg) && Shape(cfg, net) && w < |cfg.fifo| && Safe(cfg, net, w) && MayEmit(cfg, net, src)
    requires Shape(cfg, OnNew(net, src))
    ensures Safe(cfg, OnNew(net, src), w) && CountIn(net.writers[w].queue, |net.msgs|, false) == 0
  {
    forall k | 0 <= k < |net.writers[w].queue| ensures net.writers[w].queue[k].id != |net.msgs| {}
    CountAbsent(net.writers[w].queue, |net.msgs|, false);
  }

  lemma {:induction false} EnteredIsReady(cfg: Config, net: Net, src: nat, input: Input, w: nat)
    requires ConfigOk(cfg) && Inv(cfg, net, [], IDLE) && w < |cfg.fifo| && Safe(cfg, net, w) && MayEmit(cfg, net, src)
    requires cfg.possible(src, input)
    requires Guarded(cfg, w) && cfg.fifo[w] >= TotalBudget(cfg, w, |cfg.sources|)
    ensures Ready(cfg, Entered(cfg, net, src), Focus(|net.msgs|, 1, 0), w, true, Hits(Reached(cfg, src, input), w))
  {
    EnteredKeepsSafe(cfg, net, src, w);
    EnteredKeepsInv(cfg, net, src);
    MostIsMaximum(cfg, src, w, input);
  }

  lemma {:induction false} RoutedKeepsSafe(cfg: Config, net: Net, src: nat, input: Input, w: nat)
    requires ConfigOk(cfg) && Inv(cfg, net, [], IDLE) && w < |cfg.fifo| && Safe(cfg, net, w) && MayEmit(cfg, net, src)
    requires cfg.possible(src, input)
    requires Guarded(cfg, w) && cfg.fifo[w] >= TotalBudget(cfg, w, |cfg.sources|)
    ensures var p := Parcel(|net.msgs|, src, input);
      var routed := ToRoutes(cfg, Entered(cfg, net, src), p, RoutesFor(cfg, src, input));
      && Safe(cfg, routed, w) && routed.windows[src] >= net.windows[src] - 1
  {
    EnteredIsReady(cfg, net, src, input, w);
    EnteredKeepsSafe(cfg, net, src, w);
    RoutesAreGuarded(cfg, src, input, w);
    RoutesKeepSafe(cfg, Entered(cfg, net, src), Parcel(|net.msgs|, src, input), Focus(|net.msgs|, 1, 0),
                   RoutesFor(cfg, src, input), w);
  }

  lemma {:induction false} EmitKeepsSafe(cfg: Config, net: Net, src: nat, input: Input, w: nat)
    requires ConfigOk(cfg) && Inv(cfg, net, [], IDLE) && w < |cfg.fifo| && Safe(cfg, net, w) && MayEmit(cfg, net, src)
    requires cfg.possible(src, input)
    requires Guarded(cfg, w) && cfg.fifo[w] >= TotalBudget(cfg, w, |cfg.sources|)
    ensures Safe(cfg, Emit(cfg, net, src, input), w)
    ensures Emit(cfg, net, src, input).windows[src] >= net.windows[src] - 1
  {
    RoutedKeepsSafe(cfg, net, src, input, w);
    var routed := ToRoutes(cfg, Entered(cfg, net, src), Parcel(|net.msgs|, src, input), RoutesFor(cfg, src, input));
    MsgOpEases(cfg, routed, |net.msgs|, CenterAck);
    EasedKeepsSafe(cfg, routed, OnAck(routed, |net.msgs|), w);
  }

  // ---------------------------------------------------------------------
  // Dispatches and runs
  // ---------------------------------------------------------------------

  lemma {:induction false} GateStep(cfg: Config, net: Net, src: nat, inputs: seq<Input>)
    requires ConfigOk(cfg) && Shape(cfg, net) && src < |cfg.sources| && inputs != []
    ensures Gate(cfg, net, src, inputs)[..|inputs| - 1] == Gate(cfg, net, src, inputs[..|inputs| - 1])
  {
  }

  lemma {:induction false} GatePrefix(cfg: Config, net: Net, src: nat, inputs: seq<Input>, k: nat)
    requires ConfigOk(cfg) && Shape(cfg, net) && src < |cfg.sources| && k <= |inputs|
    ensures Gate(cfg, net, src, inputs)[..k] == Gate(cfg, net, src, inputs[..k])
  {
    if k == |inputs| {
      assert inputs[..k] == inputs;
    } else {
      GateStep(cfg, net, src, inputs);
      GatePrefix(cfg, net, src, inputs[..|inputs| - 1], k);
      PrefixOfPrefix(inputs, k);
      PrefixOfPrefix(Gate(cfg, net, src, inputs), k);
    }
  }

  lemma {:induction false} DispatchPrefix(cfg: Config, net: Net, src: nat, inputs: seq<Input>, k: nat)
    requires ConfigOk(cfg) && Shape(cfg, net) && Enabled(cfg, net, Dispatch(src, inputs)) && k <= |inputs|
    ensures Enabled(cfg, net, Dispatch(src, inputs[..k]))
  {
    GatePrefix(cfg, net, src, inputs, k);
    var sc := cfg.sources[src];
    GateOkPrefix(Gate(cfg, net, src, inputs), k, sc.fetchLimit, sc.singleRead);
  }

  lemma {:induction false} GateOkPrefix(gate: seq<int>, k: nat, fetchLimit: nat, singleRead: bool)
    requires GateOk(gate, fetchLimit, singleRead) && k <= |gate|
    ensures GateOk(gate[..k], fetchLimit, singleRead)
  {
    assert forall i :: 0 <= i < k ==> gate[..k][i] == gate[i];
  }

  /** The gate of a dispatch keeps the window above its floor. */
  lemma {:induction false} GateAllows(cfg: Config, net: Net, src: nat, inputs: seq<Input>)
    requires ConfigOk(cfg) && Inv(cfg, net, [], IDLE) && Enabled(cfg, net, Dispatch(src, inputs)) && inputs != []
    requires EmitAll(cfg, net, src, inputs[..|inputs| - 1]).windows[src] >= net.windows[src] - (|inputs| - 1)
    ensures MayEmit(cfg, EmitAll(cfg, net, src, inputs[..|inputs| - 1]), src)
  {
    FirstGate(cfg, net, src, inputs);
    OpenWindowMeansBudget(cfg, net, src);
    var gate := Gate(cfg, net, src, inputs);
    assert gate[|inputs| - 1] == EmitAll(cfg, net, src, inputs[..|inputs| - 1]).windows[src];
  }

  lemma {:induction false} EmitAllKeepsSafe(cfg: Config, net: Net, src: nat, inputs: seq<Input>, w: nat)
    requires ConfigOk(cfg) && Inv(cfg, net, [], IDLE) && w < |cfg.fifo| && Safe(cfg, net, w)
    requires Guarded(cfg, w) && cfg.fifo[w] >= TotalBudget(cfg, w, |cfg.sources|)
    requires Enabled(cfg, net, Dispatch(src, inputs))
    ensures Safe(cfg, EmitAll(cfg, net, src, inputs), w)
    ensures EmitAll(cfg, net, src, inputs).windows[src] >= net.windows[src] - |inputs|
  {
    if inputs != [] {
      var before := inputs[..|inputs| - 1];
      DispatchPrefix(cfg, net, src, inputs, |inputs| - 1);
      EmitAllKeepsSafe(cfg, net, src, before, w);
      EmitAllKeepsInv(cfg, net, src, before);
      GateAllows(cfg, net, src, inputs);
      EmitKeepsSafe(cfg, EmitAll(cfg, net, src, before), src, inputs[|inputs| - 1], w);
    }
  }

  lemma {:induction false} FirstGate(cfg: Config, net: Net, src: nat, inputs: seq<Input>)
    requires ConfigOk(cfg) && Shape(cfg, net) && src < |cfg.sources| && inputs != []
    ensures Gate(cfg, net, src, inputs)[0] == net.windows[src]
  {
    GatePrefix(cfg, net, src, inputs, 1);
    assert inputs[..1][..0] == [];
    assert Gate(cfg, net, src, inputs)[0] == Gate(cfg, net, src, inputs)[..1][0];
  }

  lemma {:induction false} OpenWindowMeansBudget(cfg: Config, net: Net, src: nat)
    requires ConfigOk(cfg) && Inv(cfg, net, [], IDLE) && src < |cfg.sources|
    ensures net.windows[src] <= cfg.sources[src].initWindow
  {
  }

  lemma {:induction false} FlushKeepsSafe(cfg: Config, net: Net, w': nat, io: seq<W.Io>, w: nat)
    requires ConfigOk(cfg) && Shape(cfg, net) && w < |cfg.fifo| && w' < |cfg.fifo| && Safe(cfg, net, w)
    ensures Safe(cfg, FlushWriter(cfg, net, w', io), w)
  {
    var st := net.writers[w'];
    var after := W.AfterFlush(st, io);
    W.FlushKeepsValid(st, io);
    W.FlushPopsHead(st, io);
    var popped := W.Popped(st, after);
    var taken := WithWriter(cfg, net, w', after);
    if w' == w {
      forall id: nat ensures CountIn(after.queue, id, false) <= CountIn(st.queue, id, false) {
        CountAppend(popped, after.queue, id, false);
      }
    }
    assert Safe(cfg, taken, w);
    SettleEases(cfg, taken, popped);
    SettleWriters(cfg, taken, popped);
    EasedKeepsSafe(cfg, taken, Settle(cfg, taken, popped), w);
  }

  lemma {:induction false} SettleEases(cfg: Config, net: Net, popped: seq<W.Entry>)
    requires Shape(cfg, net)
    requires forall k :: 0 <= k < |popped| ==> popped[k].id < |net.msgs|
    ensures Eased(net, Settle(cfg, net, popped))
    decreases |popped|
  {
    if popped != [] {
      var e := popped[0];
      MsgOpEases(cfg, net, e.id, GroupAck);
      MsgOpKeepsShape(cfg, net, e.id, GroupAck);
      if e.flow {
        MsgOpEases(cfg, OnAck(net, e.id), e.id, GroupAck);
      }
      SettleEases(cfg, SettleOne(cfg, net, e), popped[1..]);
    }
  }

  lemma {:induction false} StepKeepsSafe(cfg: Config, net: Net, ev: Event, w: nat)
    requires ConfigOk(cfg) && Inv(cfg, net, [], IDLE) && Enabled(cfg, net, ev)
    requires w < |cfg.fifo| && Safe(cfg, net, w) && Guarded(cfg, w)
    requires cfg.fifo[w] >= TotalBudget(cfg, w, |cfg.sources|)
    ensures Safe(cfg, Step(cfg, net, ev), w)
  {
    match ev {
      case Dispatch(src, inputs) => EmitAllKeepsSafe(cfg, net, src, inputs, w);
      case Flush(w', io) => FlushKeepsSafe(cfg, net, w', io, w);
      case Broken(_) =>
      case Reopen(_, _) =>
    }
  }

  lemma {:induction false} RunKeepsSafe(cfg: Config, run: seq<Event>, w: nat)
    requires ConfigOk(cfg) && IsRun(cfg, run) && w < |cfg.fifo| && Guarded(cfg, w)
    requires cfg.fifo[w] >= TotalBudget(cfg, w, |cfg.sources|)
    ensures Safe(cfg, After(cfg, run), w)
  {
    if run == [] {
      InitialIsSafe(cfg, w);
    } else {
      var before := run[..|run| - 1];
      RunKeepsSafe(cfg, before, w);
      RunKeepsInv(cfg, before);
      StepKeepsSafe(cfg, After(cfg, before), run[|run| - 1], w);
    }
  }

  lemma {:induction false} InitialIsSafe(cfg: Config, w: nat)
    requires ConfigOk(cfg) && w < |cfg.fifo|
    ensures Shape(cfg, Initial(cfg)) && Safe(cfg, Initial(cfg), w)
  {
    InitialShape(cfg);
    var net := Initial(cfg);
    assert net.writers[w] == W.FRESH && net.msgs == [];
    assert CopiesOk(cfg, net.msgs, net.writers[w].queue, w);
    InitialFloor(cfg);
  }

  lemma {:induction false} InitialFloor(cfg: Config)
    requires ConfigOk(cfg)
    ensures FloorOk(cfg, Initial(cfg))
  {
    forall s | 0 <= s < |cfg.sources|
      ensures Initial(cfg).windows[s] >= cfg.sources[s].initWindow - Budget(cfg.sources[s])
    {
      assert Initial(cfg).windows[s] == cfg.sources[s].initWindow;
    }
  }
}
