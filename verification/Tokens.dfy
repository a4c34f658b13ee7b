/** What every run of the pipeline keeps: acknowledgements owed are tokens that
    are conserved, references are conserved, and so are the windows. */
module Tokens {
  import opened AckStack
  import opened Routing
  import opened Pipeline
  import W = Writers

  // ---------------------------------------------------------------------
  // Counting
  // ---------------------------------------------------------------------

  /** The copies of message `id` in a queue; only the flow-controlled ones if
      `flowOnly`. */
  function CountIn(q: seq<W.Entry>, id: nat, flowOnly: bool): nat {
    if q == [] then 0
    else (if q[0].id == id && (flowOnly ==> q[0].flow) then 1 else 0) + CountIn(q[1..], id, flowOnly)
  }

  /** The copies of message `id` in all the queues. */
  function Copies(ws: seq<W.State>, id: nat, flowOnly: bool): nat {
    if ws == [] then 0 else CountIn(ws[0].queue, id, flowOnly) + Copies(ws[1..], id, flowOnly)
  }

  /** The messages of source `s` that have not been acknowledged to it. */
  function Outstanding(msgs: seq<Msg>, s: nat): nat {
    if msgs == [] then 0
    else Outstanding(msgs[..|msgs| - 1], s) + Open(msgs[|msgs| - 1], s)
  }

  function Open(m: Msg, s: nat): nat {
    if m.source == s && m.blocks != [] then 1 else 0
  }

  lemma {:induction false} CountAppend(a: seq<W.Entry>, b: seq<W.Entry>, id: nat, flowOnly: bool)
    ensures CountIn(a + b, id, flowOnly) == CountIn(a, id, flowOnly) + CountIn(b, id, flowOnly)
  {
    if a == [] {
      assert a + b == b;
    } else {
      assert (a + b)[1..] == a[1..] + b;
      CountAppend(a[1..], b, id, flowOnly);
    }
  }

  lemma {:induction false} CountAbsent(q: seq<W.Entry>, id: nat, flowOnly: bool)
    requires forall k :: 0 <= k < |q| ==> q[k].id != id
    ensures CountIn(q, id, flowOnly) == 0
  {
    if q != [] {
      CountAbsent(q[1..], id, flowOnly);
    }
  }

  lemma {:induction false} CopiesUpdate(ws: seq<W.State>, w: nat, st: W.State, id: nat, flowOnly: bool)
    requires w < |ws|
    ensures Copies(ws[w := st], id, flowOnly) + CountIn(ws[w].queue, id, flowOnly)
         == Copies(ws, id, flowOnly) + CountIn(st.queue, id, flowOnly)
  {
    if w == 0 {
      assert ws[w := st][1..] == ws[1..];
    } else {
      assert ws[w := st][1..] == ws[1..][w - 1 := st];
      CopiesUpdate(ws[1..], w - 1, st, id, flowOnly);
    }
  }

  lemma {:induction false} CopiesAbsent(ws: seq<W.State>, id: nat, flowOnly: bool)
    requires forall w, k :: 0 <= w < |ws| && 0 <= k < |ws[w].queue| ==> ws[w].queue[k].id != id
    ensures Copies(ws, id, flowOnly) == 0
  {
    if ws != [] {
      forall k | 0 <= k < |ws[0].queue| ensures ws[0].queue[k].id != id {}
      CountAbsent(ws[0].queue, id, flowOnly);
      forall w, k | 0 <= w < |ws[1..]| && 0 <= k < |ws[1..][w].queue| ensures ws[1..][w].queue[k].id != id {
        assert ws[1..][w] == ws[w + 1];
      }
      CopiesAbsent(ws[1..], id, flowOnly);
    }
  }

  lemma {:induction false} OutstandingUpdate(msgs: seq<Msg>, id: nat, m: Msg, s: nat)
    requires id < |msgs|
    ensures Outstanding(msgs[id := m], s) + Open(msgs[id], s) == Outstanding(msgs, s) + Open(m, s)
  {
    var n := |msgs| - 1;
    if id == n {
      assert msgs[id := m][..n] == msgs[..n];
    } else {
      assert msgs[id := m][..n] == msgs[..n][id := m];
      OutstandingUpdate(msgs[..n], id, m, s);
    }
  }

  // ---------------------------------------------------------------------
  // The invariant
  // ---------------------------------------------------------------------

  /** The calls that are running on behalf of message `id` still have to
      acknowledge it `own` times and hold `held` references. */
  datatype Focus = Focus(id: nat, own: nat, held: nat)

  const IDLE := Focus(0, 0, 0)

  /** `pend` are entries taken off a queue by a running flush. */
  ghost predicate OkFor(net: Net, pend: seq<W.Entry>, f: Focus, id: nat)
    requires id < |net.msgs|
  {
    MsgOk(net.msgs[id],
          Copies(net.writers, id, false) + CountIn(pend, id, false),
          Copies(net.writers, id, true) + CountIn(pend, id, true),
          if id == f.id then f.own else 0, if id == f.id then f.held else 0)
  }

  ghost predicate WindowsOk(cfg: Config, net: Net)
    requires |net.windows| == |cfg.sources|
  {
    forall s :: 0 <= s < |cfg.sources| ==>
      net.windows[s] + Outstanding(net.msgs, s) == cfg.sources[s].initWindow
  }

  ghost predicate Inv(cfg: Config, net: Net, pend: seq<W.Entry>, f: Focus) {
    && Shape(cfg, net)
    && (forall id :: 0 <= id < |net.msgs| ==> OkFor(net, pend, f, id))
    && WindowsOk(cfg, net)
  }

  /** Changing one message, and opening its source's window if that message's
      stack became empty. */
  lemma {:induction false} UpdateKeepsInv(cfg: Config, net: Net, pend: seq<W.Entry>, f: Focus, net': Net, f': Focus)
    requires Inv(cfg, net, pend, f) && Shape(cfg, net') && f.id == f'.id < |net.msgs|
    requires net'.writers == net.writers && |net'.msgs| == |net.msgs|
    requires net'.msgs == net.msgs[f.id := net'.msgs[f.id]]
    requires OkFor(net', pend, f', f.id)
    requires net'.msgs[f.id].source == net.msgs[f.id].source
    requires net.msgs[f.id].blocks == [] ==> net'.msgs[f.id].blocks == []
    requires forall s :: 0 <= s < |cfg.sources| ==>
      net'.windows[s] == net.windows[s] + Open(net.msgs[f.id], s) - Open(net'.msgs[f.id], s)
    ensures Inv(cfg, net', pend, f')
  {
    forall id | 0 <= id < |net'.msgs|
      ensures OkFor(net', pend, f', id)
    {
      if id != f.id {
        assert OkFor(net, pend, f, id) && net'.msgs[id] == net.msgs[id];
      }
    }
    forall s | 0 <= s < |cfg.sources|
      ensures net'.windows[s] + Outstanding(net'.msgs, s) == cfg.sources[s].initWindow
    {
      OutstandingUpdate(net.msgs, f.id, net'.msgs[f.id], s);
    }
  }

  lemma {:induction false} RefKeepsInv(cfg: Config, net: Net, pend: seq<W.Entry>, f: Focus)
    requires Inv(cfg, net, pend, f) && f.id < |net.msgs| && f.own > 0
    ensures Inv(cfg, OnRef(net, f.id), pend, f.(held := f.held + 1))
  {
    assert OkFor(net, pend, f, f.id);
    RefKeepsOk(net.msgs[f.id], Copies(net.writers, f.id, false) + CountIn(pend, f.id, false),
               Copies(net.writers, f.id, true) + CountIn(pend, f.id, true), f.own, f.held);
    MsgOpKeepsShape(cfg, net, f.id, GroupAck);
    UpdateKeepsInv(cfg, net, pend, f, OnRef(net, f.id), f.(held := f.held + 1));
  }

  lemma {:induction false} UnrefKeepsInv(cfg: Config, net: Net, pend: seq<W.Entry>, f: Focus)
    requires Inv(cfg, net, pend, f) && f.id < |net.msgs| && f.held > 0
    ensures Inv(cfg, OnUnref(net, f.id), pend, f.(held := f.held - 1))
  {
    assert OkFor(net, pend, f, f.id);
    UnrefKeepsOk(net.msgs[f.id], Copies(net.writers, f.id, false) + CountIn(pend, f.id, false),
                 Copies(net.writers, f.id, true) + CountIn(pend, f.id, true), f.own, f.held);
    MsgOpKeepsShape(cfg, net, f.id, GroupAck);
    UpdateKeepsInv(cfg, net, pend, f, OnUnref(net, f.id), f.(held := f.held - 1));
  }

  lemma {:induction false} IncKeepsInv(cfg: Config, net: Net, pend: seq<W.Entry>, f: Focus)
    requires Inv(cfg, net, pend, f) && f.id < |net.msgs| && f.own > 0
    ensures Inv(cfg, OnInc(net, f.id), pend, f.(own := f.own + 1))
  {
    assert OkFor(net, pend, f, f.id);
    IncKeepsOk(net.msgs[f.id], Copies(net.writers, f.id, false) + CountIn(pend, f.id, false),
               Copies(net.writers, f.id, true) + CountIn(pend, f.id, true), f.own, f.held);
    MsgOpKeepsShape(cfg, net, f.id, GroupAck);
    UpdateKeepsInv(cfg, net, pend, f, OnInc(net, f.id), f.(own := f.own + 1));
  }

  lemma {:induction false} StartKeepsInv(cfg: Config, net: Net, pend: seq<W.Entry>, f: Focus, owner: Owner)
    requires Inv(cfg, net, pend, f) && f.id < |net.msgs| && f.own > 0 && f.held > 0 && owner != SourceAck
    ensures Inv(cfg, OnStart(net, f.id, owner), pend, f.(held := f.held - 1))
  {
    assert OkFor(net, pend, f, f.id);
    StartKeepsOk(net.msgs[f.id], owner, Copies(net.writers, f.id, false) + CountIn(pend, f.id, false),
                 Copies(net.writers, f.id, true) + CountIn(pend, f.id, true), f.own, f.held);
    MsgOpKeepsShape(cfg, net, f.id, owner);
    UpdateKeepsInv(cfg, net, pend, f, OnStart(net, f.id, owner), f.(held := f.held - 1));
  }

  lemma {:induction false} AckKeepsInv(cfg: Config, net: Net, pend: seq<W.Entry>, f: Focus)
    requires Inv(cfg, net, pend, f) && f.id < |net.msgs| && f.own > 0
    ensures Inv(cfg, OnAck(net, f.id), pend, f.(own := f.own - 1))
  {
    assert OkFor(net, pend, f, f.id);
    AckKeepsOk(net.msgs[f.id], Copies(net.writers, f.id, false) + CountIn(pend, f.id, false),
               Copies(net.writers, f.id, true) + CountIn(pend, f.id, true), f.own, f.held);
    MsgOpKeepsShape(cfg, net, f.id, GroupAck);
    UpdateKeepsInv(cfg, net, pend, f, OnAck(net, f.id), f.(own := f.own - 1));
  }

  /** A new message enters with one acknowledgement owed by the center's call. */
  lemma {:induction false} NewKeepsInv(cfg: Config, net: Net, src: nat)
    requires Inv(cfg, net, [], IDLE) && src < |cfg.sources|
    ensures Inv(cfg, OnNew(net, src), [], Focus(|net.msgs|, 1, 0))
  {
    var net' := OnNew(net, src);
    var id := |net.msgs|;
    var m := net'.msgs[id];
    StartOwesSame(NewMsg(src), SourceAck);
    CopiesAbsent(net.writers, id, false);
    CopiesAbsent(net.writers, id, true);
    var f := Focus(id, 1, 0);
    assert OkFor(net', [], f, id);
    forall i | 0 <= i < id ensures OkFor(net', [], f, i) {
      assert OkFor(net, [], IDLE, i) && net'.msgs[i] == net.msgs[i];
    }
    forall s | 0 <= s < |cfg.sources|
      ensures net'.windows[s] + Outstanding(net'.msgs, s) == cfg.sources[s].initWindow
    {
      assert net'.msgs[..|net'.msgs| - 1] == net.msgs;
    }
  }

  /** A copy that the running call still has to acknowledge (if flow controlled)
      and holds a reference for becomes a queued copy that does. */
  lemma {:induction false} EnqueueKeepsInv(cfg: Config, net: Net, f: Focus, w: nat, e: W.Entry)
    requires Inv(cfg, net, [], f) && f.id == e.id < |net.msgs| && w < |cfg.fifo|
    requires f.held > 0 && (e.flow ==> f.own > 0)
    requires |net.writers[w].queue| != cfg.fifo[w]
    ensures Inv(cfg, OnDeliver(cfg, net, w, e), [],
                Focus(f.id, if e.flow then f.own - 1 else f.own, f.held - 1))
  {
    var st := net.writers[w];
    var net' := OnDeliver(cfg, net, w, e);
    var f' := Focus(f.id, if e.flow then f.own - 1 else f.own, f.held - 1);
    DeliverKeepsShape(cfg, net, w, e);
    forall id | 0 <= id < |net'.msgs|
      ensures OkFor(net', [], f', id)
    {
      assert OkFor(net, [], f, id);
      QueueCounts(net.writers, w, cfg.fifo[w], e, id, false);
      QueueCounts(net.writers, w, cfg.fifo[w], e, id, true);
    }
  }

  lemma {:induction false} QueueCounts(ws: seq<W.State>, w: nat, fifoSize: nat, e: W.Entry, id: nat, flowOnly: bool)
    requires w < |ws| && |ws[w].queue| != fifoSize
    ensures Copies(ws[w := W.AfterQueue(ws[w], fifoSize, e)], id, flowOnly)
         == Copies(ws, id, flowOnly) + if e.id == id && (flowOnly ==> e.flow) then 1 else 0
  {
    CopiesUpdate(ws, w, W.AfterQueue(ws[w], fifoSize, e), id, flowOnly);
    CountAppend(ws[w].queue, [e], id, flowOnly);
    assert CountIn([e], id, flowOnly) == if e.id == id && (flowOnly ==> e.flow) then 1 else 0 by {
      assert [e][1..] == [];
    }
  }

  /** Changing a writer without changing its queue. */
  lemma {:induction false} SameQueueKeepsInv(cfg: Config, net: Net, pend: seq<W.Entry>, f: Focus, w: nat, st: W.State)
    requires Inv(cfg, net, pend, f) && w < |cfg.fifo| && W.Valid(st) && st.queue == net.writers[w].queue
    ensures Inv(cfg, net.(writers := net.writers[w := st]), pend, f)
  {
    var net' := net.(writers := net.writers[w := st]);
    forall id | 0 <= id < |net'.msgs|
      ensures OkFor(net', pend, f, id)
    {
      assert OkFor(net, pend, f, id);
      CopiesUpdate(net.writers, w, st, id, false);
      CopiesUpdate(net.writers, w, st, id, true);
    }
  }

  lemma {:induction false} DeliverKeepsInv(cfg: Config, net: Net, f: Focus, w: nat, e: W.Entry)
    requires Inv(cfg, net, [], f) && f.id == e.id < |net.msgs| && w < |cfg.fifo|
    requires f.held > 0 && (e.flow ==> f.own > 0)
    ensures Inv(cfg, OnDeliver(cfg, net, w, e), [],
                Focus(f.id, if e.flow then f.own - 1 else f.own, f.held - 1))
  {
    if |net.writers[w].queue| == cfg.fifo[w] {
      var st' := W.AfterQueue(net.writers[w], cfg.fifo[w], e);
      W.QueueKeepsValid(net.writers[w], cfg.fifo[w], e);
      SameQueueKeepsInv(cfg, net, [], f, w, st');
      DropKeepsInv(cfg, net.(writers := net.writers[w := st']), f, e.flow);
    } else {
      EnqueueKeepsInv(cfg, net, f, w, e);
    }
  }

  lemma {:induction false} DropKeepsInv(cfg: Config, net: Net, f: Focus, flow: bool)
    requires Inv(cfg, net, [], f) && f.id < |net.msgs| && f.held > 0 && (flow ==> f.own > 0)
    ensures Inv(cfg, OnUnref(if flow then OnAck(net, f.id) else net, f.id), [],
                Focus(f.id, if flow then f.own - 1 else f.own, f.held - 1))
  {
    if flow {
      AckKeepsInv(cfg, net, [], f);
      UnrefKeepsInv(cfg, OnAck(net, f.id), [], f.(own := f.own - 1));
    } else {
      UnrefKeepsInv(cfg, net, [], f);
    }
  }

  // ---------------------------------------------------------------------
  // The fan-out
  // ---------------------------------------------------------------------

  lemma {:induction false} HandedKeepsInv(cfg: Config, net: Net, f: Focus, flow: bool)
    requires Inv(cfg, net, [], f) && f.id < |net.msgs| && f.own > 0
    ensures Inv(cfg, Handed(cfg, net, f.id, flow), [], f.(own := f.own + if flow then 1 else 0, held := f.held + 1))
  {
    if flow {
      IncKeepsInv(cfg, net, [], f);
      RefKeepsInv(cfg, OnInc(net, f.id), [], f.(own := f.own + 1));
    } else {
      RefKeepsInv(cfg, net, [], f);
    }
  }

  lemma {:induction false} DriverKeepsInv(cfg: Config, net: Net, p: Parcel, f: Focus, w: nat, flow: bool)
    requires Inv(cfg, net, [], f) && f.id == p.id < |net.msgs| && w < |cfg.fifo| && f.own > 0
    ensures Inv(cfg, ToDriver(cfg, net, p, w, flow), [], f)
  {
    var f' := f.(own := f.own + if flow then 1 else 0, held := f.held + 1);
    HandedKeepsInv(cfg, net, f, flow);
    DeliverKeepsInv(cfg, Handed(cfg, net, p.id, flow), f', w, W.Entry(p.id, flow, LineFor(cfg, p, w)));
  }

  lemma {:induction false} DriversKeepInv(cfg: Config, net: Net, p: Parcel, f: Focus, ws: seq<nat>, flow: bool)
    requires Inv(cfg, net, [], f) && f.id == p.id < |net.msgs| && f.own > 0
    requires forall k :: 0 <= k < |ws| ==> ws[k] < |cfg.fifo|
    ensures Inv(cfg, ToDrivers(cfg, net, p, ws, flow), [], f)
  {
    if ws != [] {
      DriversKeepInv(cfg, net, p, f, ws[..|ws| - 1], flow);
      DriverKeepsInv(cfg, ToDrivers(cfg, net, p, ws[..|ws| - 1], flow), p, f, ws[|ws| - 1], flow);
    }
  }

  /** A group's call pays the acknowledgement and the reference it was given. */
  lemma {:induction false} GroupKeepsInv(cfg: Config, net: Net, p: Parcel, f: Focus, ws: seq<nat>, flow: bool)
    requires Inv(cfg, net, [], f) && f.id == p.id < |net.msgs| && f.held > 0
    requires f.own > if flow then 1 else 0
    requires forall k :: 0 <= k < |ws| ==> ws[k] < |cfg.fifo|
    ensures Inv(cfg, ToGroup(cfg, net, p, ws, flow), [],
                Focus(f.id, if flow then f.own - 1 else f.own, f.held - 1))
  {
    if flow {
      RefKeepsInv(cfg, net, [], f);
      StartKeepsInv(cfg, OnRef(net, p.id), [], f.(held := f.held + 1), GroupAck);
    }
    var entered := GroupEntered(cfg, net, p.id, flow);
    assert Inv(cfg, entered, [], f);
    DriversKeepInv(cfg, entered, p, f, ws, flow);
    var served := ToDrivers(cfg, entered, p, ws, flow);
    if flow {
      AckKeepsInv(cfg, served, [], f);
      UnrefKeepsInv(cfg, OnAck(served, p.id), [], f.(own := f.own - 1));
    } else {
      UnrefKeepsInv(cfg, served, [], f);
    }
  }

  lemma {:induction false} RouteKeepsInv(cfg: Config, net: Net, p: Parcel, f: Focus, r: Route)
    requires ConfigOk(cfg) && r.group < |cfg.groups|
    requires Inv(cfg, net, [], f) && f.id == p.id < |net.msgs| && f.own > 0
    ensures Inv(cfg, ToRoute(cfg, net, p, r), [], f)
  {
    var f' := f.(own := f.own + if r.flow then 1 else 0, held := f.held + 1);
    HandedKeepsInv(cfg, net, f, r.flow);
    GroupKeepsInv(cfg, Handed(cfg, net, p.id, r.flow), p, f', cfg.groups[r.group], r.flow);
  }

  lemma {:induction false} RoutesKeepInv(cfg: Config, net: Net, p: Parcel, f: Focus, routes: seq<Route>)
    requires ConfigOk(cfg) && RoutesOk(cfg, routes)
    requires Inv(cfg, net, [], f) && f.id == p.id < |net.msgs| && f.own > 0
    ensures Inv(cfg, ToRoutes(cfg, net, p, routes), [], f)
  {
    if routes != [] {
      var before := routes[..|routes| - 1];
      RoutesKeepInv(cfg, net, p, f, before);
      RouteKeepsInv(cfg, ToRoutes(cfg, net, p, before), p, f, routes[|routes| - 1]);
    }
  }

  lemma {:induction false} EnteredKeepsInv(cfg: Config, net: Net, src: nat)
    requires Inv(cfg, net, [], IDLE) && src < |cfg.sources|
    ensures Inv(cfg, Entered(cfg, net, src), [], Focus(|net.msgs|, 1, 0))
  {
    var id := |net.msgs|;
    NewKeepsInv(cfg, net, src);
    RefKeepsInv(cfg, OnNew(net, src), [], Focus(id, 1, 0));
    StartKeepsInv(cfg, OnRef(OnNew(net, src), id), [], Focus(id, 1, 1), CenterAck);
  }

  /** With nothing owed by running calls it does not matter which message they
      would be running for. */
  lemma {:induction false} IdleAnywhere(cfg: Config, net: Net, pend: seq<W.Entry>, id: nat, id': nat)
    requires Inv(cfg, net, pend, Focus(id, 0, 0))
    ensures Inv(cfg, net, pend, Focus(id', 0, 0))
  {
    forall i | 0 <= i < |net.msgs| ensures OkFor(net, pend, Focus(id', 0, 0), i) {
      assert OkFor(net, pend, Focus(id, 0, 0), i);
    }
  }

  lemma {:induction false} EmitKeepsInv(cfg: Config, net: Net, src: nat, input: Input)
    requires ConfigOk(cfg) && Inv(cfg, net, [], IDLE) && src < |cfg.sources|
    ensures Inv(cfg, Emit(cfg, net, src, input), [], IDLE)
  {
    var id := |net.msgs|;
    var p := Parcel(id, src, input);
    var routes := RoutesFor(cfg, src, input);
    EnteredKeepsInv(cfg, net, src);
    RoutesKeepInv(cfg, Entered(cfg, net, src), p, Focus(id, 1, 0), routes);
    var routed := ToRoutes(cfg, Entered(cfg, net, src), p, routes);
    AckKeepsInv(cfg, routed, [], Focus(id, 1, 0));
    IdleAnywhere(cfg, OnAck(routed, id), [], id, 0);
  }

  lemma {:induction false} EmitAllKeepsInv(cfg: Config, net: Net, src: nat, inputs: seq<Input>)
    requires ConfigOk(cfg) && Inv(cfg, net, [], IDLE) && src < |cfg.sources|
    ensures Inv(cfg, EmitAll(cfg, net, src, inputs), [], IDLE)
  {
    if inputs != [] {
      var before := inputs[..|inputs| - 1];
      EmitAllKeepsInv(cfg, net, src, before);
      EmitKeepsInv(cfg, EmitAll(cfg, net, src, before), src, inputs[|inputs| - 1]);
    }
  }

  // ---------------------------------------------------------------------
  // Flushing
  // ---------------------------------------------------------------------

  lemma {:induction false} PopKeepsInv(cfg: Config, net: Net, w: nat, st: W.State, popped: seq<W.Entry>)
    requires Inv(cfg, net, [], IDLE) && w < |cfg.fifo| && W.Valid(st)
    requires net.writers[w].queue == popped + st.queue
    ensures |st.queue| <= |net.writers[w].queue|
    ensures st.queue == net.writers[w].queue[|net.writers[w].queue| - |st.queue|..]
    ensures Inv(cfg, WithWriter(cfg, net, w, st), popped, IDLE)
  {
    assert st.queue == (popped + st.queue)[|popped|..];
    var net' := WithWriter(cfg, net, w, st);
    forall id | 0 <= id < |net'.msgs| ensures OkFor(net', popped, IDLE, id) {
      assert OkFor(net, [], IDLE, id);
      PoppedCopies(net.writers, w, st, popped, id, false);
      PoppedCopies(net.writers, w, st, popped, id, true);
    }
  }

  lemma {:induction false} PoppedCopies(
    ws: seq<W.State>, w: nat, st: W.State, popped: seq<W.Entry>, id: nat, flowOnly: bool)
    requires w < |ws| && ws[w].queue == popped + st.queue
    ensures Copies(ws[w := st], id, flowOnly) + CountIn(popped, id, flowOnly) == Copies(ws, id, flowOnly)
  {
    CopiesUpdate(ws, w, st, id, flowOnly);
    CountAppend(popped, st.queue, id, flowOnly);
  }

  /** A popped entry's acknowledgement and reference pass to the running flush. */
  lemma {:induction false} TakeKeepsInv(cfg: Config, net: Net, pend: seq<W.Entry>)
    requires Inv(cfg, net, pend, IDLE) && pend != [] && pend[0].id < |net.msgs|
    ensures Inv(cfg, net, pend[1..], Focus(pend[0].id, if pend[0].flow then 1 else 0, 1))
  {
    var e := pend[0];
    var f := Focus(e.id, if e.flow then 1 else 0, 1);
    forall id | 0 <= id < |net.msgs| ensures OkFor(net, pend[1..], f, id) {
      assert OkFor(net, pend, IDLE, id);
    }
  }

  lemma {:induction false} SettleOneKeepsInv(cfg: Config, net: Net, pend: seq<W.Entry>)
    requires Inv(cfg, net, pend, IDLE) && pend != [] && pend[0].id < |net.msgs|
    ensures Inv(cfg, SettleOne(cfg, net, pend[0]), pend[1..], IDLE)
  {
    var e := pend[0];
    var f := Focus(e.id, if e.flow then 1 else 0, 1);
    TakeKeepsInv(cfg, net, pend);
    if e.flow {
      AckKeepsInv(cfg, net, pend[1..], f);
      UnrefKeepsInv(cfg, OnAck(net, e.id), pend[1..], f.(own := 0));
    } else {
      UnrefKeepsInv(cfg, net, pend[1..], f);
    }
    IdleAnywhere(cfg, SettleOne(cfg, net, e), pend[1..], e.id, 0);
  }

  lemma {:induction false} SettleKeepsInv(cfg: Config, net: Net, pend: seq<W.Entry>)
    requires Inv(cfg, net, pend, IDLE)
    requires forall k :: 0 <= k < |pend| ==> pend[k].id < |net.msgs|
    ensures Inv(cfg, Settle(cfg, net, pend), [], IDLE)
    decreases |pend|
  {
    if pend != [] {
      SettleOneKeepsInv(cfg, net, pend);
      SettleKeepsInv(cfg, SettleOne(cfg, net, pend[0]), pend[1..]);
    } else {
      assert pend == [];
    }
  }

  lemma {:induction false} FlushKeepsInv(cfg: Config, net: Net, w: nat, io: seq<W.Io>)
    requires Inv(cfg, net, [], IDLE) && w < |cfg.fifo|
    ensures Inv(cfg, FlushWriter(cfg, net, w, io), [], IDLE)
  {
    var st := net.writers[w];
    var after := W.AfterFlush(st, io);
    W.FlushKeepsValid(st, io);
    W.FlushPopsHead(st, io);
    PopKeepsInv(cfg, net, w, after, W.Popped(st, after));
    SettleKeepsInv(cfg, WithWriter(cfg, net, w, after), W.Popped(st, after));
  }

  // ---------------------------------------------------------------------
  // Every run
  // ---------------------------------------------------------------------

  lemma {:induction false} StepKeepsInv(cfg: Config, net: Net, ev: Event)
    requires ConfigOk(cfg) && Inv(cfg, net, [], IDLE) && Enabled(cfg, net, ev)
    ensures Inv(cfg, Step(cfg, net, ev), [], IDLE)
  {
    match ev {
      case Dispatch(src, inputs) => EmitAllKeepsInv(cfg, net, src, inputs);
      case Flush(w, io) => FlushKeepsInv(cfg, net, w, io);
      case Broken(w) => SameQueueKeepsInv(cfg, net, [], IDLE, w, net.writers[w].(open := false));
      case Reopen(w, d) => SameQueueKeepsInv(cfg, net, [], IDLE, w, net.writers[w].(open := d));
    }
  }

  /** Tokens, references and windows are conserved in every reachable state. */
  lemma {:induction false} RunKeepsInv(cfg: Config, run: seq<Event>)
    requires ConfigOk(cfg) && IsRun(cfg, run)
    ensures Inv(cfg, After(cfg, run), [], IDLE)
  {
    if run == [] {
      InitialShape(cfg);
    } else {
      var before := run[..|run| - 1];
      RunKeepsInv(cfg, before);
      StepKeepsInv(cfg, After(cfg, before), run[|run| - 1]);
    }
  }

  /** In every reachable state: no message was ever used after it was freed; a
      message was freed exactly if no copy of it is queued, and once; its source
      was told exactly if no flow-controlled copy of it is queued, and once. */
  lemma {:induction false} MessagesAccounted(cfg: Config, run: seq<Event>, id: nat)
    requires ConfigOk(cfg) && IsRun(cfg, run) && id < |After(cfg, run).msgs|
    ensures var net := After(cfg, run);
      var m := net.msgs[id];
      && !m.fault
      && m.refs == |m.blocks| + Copies(net.writers, id, false)
      && Owed(m.blocks) == Copies(net.writers, id, true)
      && m.frees <= 1 && m.wakes <= 1
      && (m.frees == 1 <==> Copies(net.writers, id, false) == 0 && Copies(net.writers, id, true) == 0)
      && (m.wakes == 1 <==> Copies(net.writers, id, true) == 0)
  {
    RunKeepsInv(cfg, run);
    var net := After(cfg, run);
    assert OkFor(net, [], IDLE, id);
    SettledMeans(net.msgs[id], Copies(net.writers, id, false), Copies(net.writers, id, true));
  }

  /** In every reachable state each window and the messages of its source that
      are not yet acknowledged add up to the initial window. */
  lemma {:induction false} WindowsConserved(cfg: Config, run: seq<Event>, s: nat)
    requires ConfigOk(cfg) && IsRun(cfg, run) && s < |cfg.sources|
    ensures After(cfg, run).windows[s] + Outstanding(After(cfg, run).msgs, s) == cfg.sources[s].initWindow
  {
    RunKeepsInv(cfg, run);
  }
}
