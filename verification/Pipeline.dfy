/** The message pipeline as a state machine: readers emit messages into the
    center (logsource.c, center.c), which hands them to destination groups
    (dgroup.c) and so to queue writers (logwriter.c); writers acknowledge later,
    when they flush. */
module Pipeline {
  import opened Octets
  import opened AckStack
  import opened Routing
  import W = Writers

  /** `singleRead` is LR_NOMREAD: one read attempt per dispatch. `msgSize` is the
      size of the reader's buffer. */
  datatype SourceConfig = SourceConfig(
    name: string, initWindow: int, fetchLimit: nat, singleRead: bool, msgSize: nat)

  /** A message as a reader passes it on: its text, and in `context` whatever else
      filters and templates can see of it, such as its sender and its time. */
  datatype Input = Input(text: Octets, context: nat)

  /** `groups[g]` lists the writers of destination group `g`, `fifo[w]` is the
      queue size of writer `w`. Of a message that source `src` reads,
      `accepts(src, input)` are the filter rules that accept it, and
      `format(w, src, input)` is the line that writer `w` writes for it;
      `possible(src, input)` says that `src` can read it. */
  datatype Config = Config(
    conns: seq<Connection>, groups: seq<seq<nat>>, fifo: seq<nat>, sources: seq<SourceConfig>,
    accepts: (nat, Input) -> set<nat>, format: (nat, nat, Input) -> Octets, possible: (nat, Input) -> bool)

  datatype Net = Net(msgs: seq<Msg>, writers: seq<W.State>, windows: seq<int>)

  datatype Event =
    | Dispatch(src: nat, inputs: seq<Input>)
    | Flush(w: nat, io: seq<W.Io>)
    | Broken(w: nat)
    | Reopen(w: nat, descriptor: bool)

  ghost predicate ConfigOk(cfg: Config) {
    && (forall c, k :: 0 <= c < |cfg.conns| && 0 <= k < |cfg.conns[c].dests| ==> cfg.conns[c].dests[k] < |cfg.groups|)
    && (forall g, k :: 0 <= g < |cfg.groups| && 0 <= k < |cfg.groups[g]| ==> cfg.groups[g][k] < |cfg.fifo|)
    && (forall s :: 0 <= s < |cfg.sources| ==> cfg.sources[s].fetchLimit >= 1)
  }

  ghost predicate Shape(cfg: Config, net: Net) {
    && |net.writers| == |cfg.fifo|
    && |net.windows| == |cfg.sources|
    && (forall w :: 0 <= w < |net.writers| ==> W.Valid(net.writers[w]))
    && (forall i :: 0 <= i < |net.msgs| ==> net.msgs[i].source < |cfg.sources|)
    && (forall w, k :: 0 <= w < |net.writers| && 0 <= k < |net.writers[w].queue| ==>
          net.writers[w].queue[k].id < |net.msgs|)
  }

  function NewWriters(n: nat): (ws: seq<W.State>)
    ensures |ws| == n && forall w :: 0 <= w < n ==> ws[w] == W.FRESH
  {
    if n == 0 then [] else NewWriters(n - 1) + [W.FRESH]
  }

  function OpenWindows(sources: seq<SourceConfig>): (windows: seq<int>)
    ensures |windows| == |sources| && forall s :: 0 <= s < |sources| ==> windows[s] == sources[s].initWindow
  {
    if sources == [] then []
    else OpenWindows(sources[..|sources| - 1]) + [sources[|sources| - 1].initWindow]
  }

  function Initial(cfg: Config): Net {
    Net([], NewWriters(|cfg.fifo|), OpenWindows(cfg.sources))
  }

  // ---------------------------------------------------------------------
  // Single operations
  // ---------------------------------------------------------------------

  function OnRef(net: Net, id: nat): Net
    requires id < |net.msgs|
  {
    net.(msgs := net.msgs[id := AfterRef(net.msgs[id])])
  }

  function OnUnref(net: Net, id: nat): Net
    requires id < |net.msgs|
  {
    net.(msgs := net.msgs[id := AfterUnref(net.msgs[id])])
  }

  function OnInc(net: Net, id: nat): Net
    requires id < |net.msgs|
  {
    net.(msgs := net.msgs[id := AfterInc(net.msgs[id])])
  }

  function OnStart(net: Net, id: nat, owner: Owner): Net
    requires id < |net.msgs|
  {
    net.(msgs := net.msgs[id := AfterStart(net.msgs[id], owner)])
  }

  /** An acknowledgement; if it runs the source's callback, the source's window
      opens by one. */
  function OnAck(net: Net, id: nat): Net
    requires id < |net.msgs| && net.msgs[id].source < |net.windows|
  {
    var m := net.msgs[id];
    var after := AfterAck(m);
    Net(net.msgs[id := after], net.writers,
        if after.wakes > m.wakes then net.windows[m.source := net.windows[m.source] + 1] else net.windows)
  }

  /** `log_source_queue` before it forwards: a new message with the source's
      block, and the window closed by one. */
  function OnNew(net: Net, src: nat): Net
    requires src < |net.windows|
  {
    Net(net.msgs + [AfterStart(NewMsg(src), SourceAck)], net.writers, net.windows[src := net.windows[src] - 1])
  }

  /** The writer takes the copy, or drops it when its queue is full. */
  function OnDeliver(cfg: Config, net: Net, w: nat, e: W.Entry): Net
    requires Shape(cfg, net) && w < |cfg.fifo| && e.id < |net.msgs|
  {
    var st := net.writers[w];
    var offered := net.(writers := net.writers[w := W.AfterQueue(st, cfg.fifo[w], e)]);
    if |st.queue| == cfg.fifo[w] then OnUnref(if e.flow then OnAck(offered, e.id) else offered, e.id)
    else offered
  }

  /** The operations on one message change its counters and a window at most. */
  lemma {:induction false} MsgOpKeepsShape(cfg: Config, net: Net, id: nat, owner: Owner)
    requires Shape(cfg, net) && id < |net.msgs|
    ensures Shape(cfg, OnRef(net, id)) && Shape(cfg, OnUnref(net, id)) && Shape(cfg, OnInc(net, id))
    ensures Shape(cfg, OnStart(net, id, owner))
    ensures Shape(cfg, OnAck(net, id))
  {
    AckKeepsSource(net.msgs[id]);
  }

  lemma {:induction false} AckKeepsSource(m: Msg)
    ensures AfterAck(m).source == m.source
    decreases |m.blocks|
  {
    if m.refs != 0 && m.blocks != [] {
      var top := m.blocks[0].(ack := m.blocks[0].ack + 1);
      var counted := m.(blocks := m.blocks[0 := top]);
      if top.ack == top.req && top.owner != SourceAck {
        AckKeepsSource(AfterEnd(counted));
      }
    }
  }

  lemma {:induction false} QueueOfferKeepsShape(cfg: Config, net: Net, w: nat, e: W.Entry)
    requires Shape(cfg, net) && w < |cfg.fifo| && e.id < |net.msgs|
    ensures Shape(cfg, net.(writers := net.writers[w := W.AfterQueue(net.writers[w], cfg.fifo[w], e)]))
  {
    W.QueueKeepsValid(net.writers[w], cfg.fifo[w], e);
  }

  lemma {:induction false} DeliverKeepsShape(cfg: Config, net: Net, w: nat, e: W.Entry)
    requires Shape(cfg, net) && w < |cfg.fifo| && e.id < |net.msgs|
    ensures Shape(cfg, OnDeliver(cfg, net, w, e))
    ensures |OnDeliver(cfg, net, w, e).msgs| == |net.msgs|
  {
    var st := net.writers[w];
    QueueOfferKeepsShape(cfg, net, w, e);
    var offered := net.(writers := net.writers[w := W.AfterQueue(st, cfg.fifo[w], e)]);
    MsgOpKeepsShape(cfg, offered, e.id, GroupAck);
    if e.flow {
      MsgOpKeepsShape(cfg, OnAck(offered, e.id), e.id, GroupAck);
    }
  }

  // ---------------------------------------------------------------------
  // The synchronous fan-out
  // ---------------------------------------------------------------------

  /** A delivery in progress: a message, its number and its source. */
  datatype Parcel = Parcel(id: nat, src: nat, input: Input)

  function LineFor(cfg: Config, p: Parcel, w: nat): Octets {
    cfg.format(w, p.src, p.input)
  }

  /** A message just before it is handed to a group or a driver: counted if flow
      controlled, and referenced. */
  function Handed(cfg: Config, net: Net, id: nat, flow: bool): (r: Net)
    requires Shape(cfg, net) && id < |net.msgs|
    ensures Shape(cfg, r) && |r.msgs| == |net.msgs|
  {
    MsgOpKeepsShape(cfg, net, id, GroupAck);
    var counted := if flow then OnInc(net, id) else net;
    MsgOpKeepsShape(cfg, counted, id, GroupAck);
    OnRef(counted, id)
  }

  /** One round of the driver loop of `log_dest_group_queue`. */
  function ToDriver(cfg: Config, net: Net, p: Parcel, w: nat, flow: bool): (r: Net)
    requires Shape(cfg, net) && w < |cfg.fifo| && p.id < |net.msgs|
    ensures Shape(cfg, r) && |r.msgs| == |net.msgs|
  {
    DeliverKeepsShape(cfg, Handed(cfg, net, p.id, flow), w, W.Entry(p.id, flow, LineFor(cfg, p, w)));
    OnDeliver(cfg, Handed(cfg, net, p.id, flow), w, W.Entry(p.id, flow, LineFor(cfg, p, w)))
  }

  function ToDrivers(cfg: Config, net: Net, p: Parcel, ws: seq<nat>, flow: bool): (r: Net)
    requires Shape(cfg, net) && p.id < |net.msgs|
    requires forall k :: 0 <= k < |ws| ==> ws[k] < |cfg.fifo|
    ensures Shape(cfg, r) && |r.msgs| == |net.msgs|
  {
    if ws == [] then net
    else ToDriver(cfg, ToDrivers(cfg, net, p, ws[..|ws| - 1], flow), p, ws[|ws| - 1], flow)
  }

  /** The part of `log_dest_group_queue` before its driver loop. */
  function GroupEntered(cfg: Config, net: Net, id: nat, flow: bool): (r: Net)
    requires Shape(cfg, net) && id < |net.msgs|
    ensures Shape(cfg, r) && |r.msgs| == |net.msgs|
  {
    MsgOpKeepsShape(cfg, net, id, GroupAck);
    MsgOpKeepsShape(cfg, OnRef(net, id), id, GroupAck);
    if flow then OnStart(OnRef(net, id), id, GroupAck) else net
  }

  /** The part of `log_dest_group_queue` after its driver loop. */
  function GroupLeft(cfg: Config, net: Net, id: nat, flow: bool): (r: Net)
    requires Shape(cfg, net) && id < |net.msgs|
    ensures Shape(cfg, r) && |r.msgs| == |net.msgs|
  {
    MsgOpKeepsShape(cfg, net, id, GroupAck);
    MsgOpKeepsShape(cfg, OnAck(net, id), id, GroupAck);
    OnUnref(if flow then OnAck(net, id) else net, id)
  }

  function ToGroup(cfg: Config, net: Net, p: Parcel, ws: seq<nat>, flow: bool): (r: Net)
    requires Shape(cfg, net) && p.id < |net.msgs|
    requires forall k :: 0 <= k < |ws| ==> ws[k] < |cfg.fifo|
    ensures Shape(cfg, r) && |r.msgs| == |net.msgs|
  {
    GroupLeft(cfg, ToDrivers(cfg, GroupEntered(cfg, net, p.id, flow), p, ws, flow), p.id, flow)
  }

  /** One delivery of `log_center_queue`. */
  function ToRoute(cfg: Config, net: Net, p: Parcel, r: Route): (after: Net)
    requires ConfigOk(cfg) && Shape(cfg, net) && p.id < |net.msgs| && r.group < |cfg.groups|
    ensures Shape(cfg, after) && |after.msgs| == |net.msgs|
  {
    ToGroup(cfg, Handed(cfg, net, p.id, r.flow), p, cfg.groups[r.group], r.flow)
  }

  ghost predicate RoutesOk(cfg: Config, routes: seq<Route>) {
    forall k :: 0 <= k < |routes| ==> routes[k].group < |cfg.groups|
  }

  function ToRoutes(cfg: Config, net: Net, p: Parcel, routes: seq<Route>): (after: Net)
    requires ConfigOk(cfg) && Shape(cfg, net) && p.id < |net.msgs| && RoutesOk(cfg, routes)
    ensures Shape(cfg, after) && |after.msgs| == |net.msgs|
  {
    if routes == [] then net
    else ToRoute(cfg, ToRoutes(cfg, net, p, routes[..|routes| - 1]), p, routes[|routes| - 1])
  }

  function RoutesFor(cfg: Config, src: nat, input: Input): (routes: seq<Route>)
    requires ConfigOk(cfg) && src < |cfg.sources|
    ensures RoutesOk(cfg, routes)
  {
    var f := Facts(cfg.sources[src].name, cfg.accepts(src, input));
    assert RoutesOk(cfg, Routes(cfg.conns, f)) by { RoutesInRange(cfg, f); }
    Routes(cfg.conns, f)
  }

  lemma {:induction false} RoutesInRange(cfg: Config, f: Facts)
    requires ConfigOk(cfg)
    ensures RoutesOk(cfg, Routes(cfg.conns, f))
  {
    var routes := Routes(cfg.conns, f);
    forall k | 0 <= k < |routes| ensures routes[k].group < |cfg.groups| {
      var c, d := RouteHasOrigin(cfg.conns, f, |cfg.conns|, routes[k]);
    }
  }

  /** The part of the source's and the center's queueing before the deliveries. */
  function Entered(cfg: Config, net: Net, src: nat): (r: Net)
    requires Shape(cfg, net) && src < |cfg.sources|
    ensures Shape(cfg, r) && |r.msgs| == |net.msgs| + 1
  {
    var id := |net.msgs|;
    MsgOpKeepsShape(cfg, OnNew(net, src), id, CenterAck);
    MsgOpKeepsShape(cfg, OnRef(OnNew(net, src), id), id, CenterAck);
    OnStart(OnRef(OnNew(net, src), id), id, CenterAck)
  }

  /** A reader emits one message: `log_source_queue`, then `log_center_queue`,
      which ends with its own acknowledgement. */
  function Emit(cfg: Config, net: Net, src: nat, input: Input): (r: Net)
    requires ConfigOk(cfg) && Shape(cfg, net) && src < |cfg.sources|
    ensures Shape(cfg, r) && |r.msgs| == |net.msgs| + 1
  {
    var id := |net.msgs|;
    var routed := ToRoutes(cfg, Entered(cfg, net, src), Parcel(id, src, input), RoutesFor(cfg, src, input));
    MsgOpKeepsShape(cfg, routed, id, CenterAck);
    OnAck(routed, id)
  }

  function EmitAll(cfg: Config, net: Net, src: nat, inputs: seq<Input>): (r: Net)
    requires ConfigOk(cfg) && Shape(cfg, net) && src < |cfg.sources|
    ensures Shape(cfg, r) && |r.msgs| == |net.msgs| + |inputs|
  {
    if inputs == [] then net
    else Emit(cfg, EmitAll(cfg, net, src, inputs[..|inputs| - 1]), src, inputs[|inputs| - 1])
  }

  /** The source's window as it stands before each message of a dispatch. */
  function Gate(cfg: Config, net: Net, src: nat, inputs: seq<Input>): (gate: seq<int>)
    requires ConfigOk(cfg) && Shape(cfg, net) && src < |cfg.sources|
    ensures |gate| == |inputs|
  {
    if inputs == [] then []
    else
      var before := inputs[..|inputs| - 1];
      Gate(cfg, net, src, before) + [EmitAll(cfg, net, src, before).windows[src]]
  }

  // ---------------------------------------------------------------------
  // Flushing
  // ---------------------------------------------------------------------

  /** A popped entry is acknowledged, if flow controlled, and released. */
  function SettleOne(cfg: Config, net: Net, e: W.Entry): (r: Net)
    requires Shape(cfg, net) && e.id < |net.msgs|
    ensures Shape(cfg, r) && |r.msgs| == |net.msgs|
  {
    MsgOpKeepsShape(cfg, net, e.id, GroupAck);
    MsgOpKeepsShape(cfg, OnAck(net, e.id), e.id, GroupAck);
    OnUnref(if e.flow then OnAck(net, e.id) else net, e.id)
  }

  function Settle(cfg: Config, net: Net, popped: seq<W.Entry>): (r: Net)
    requires Shape(cfg, net)
    requires forall k :: 0 <= k < |popped| ==> popped[k].id < |net.msgs|
    ensures Shape(cfg, r) && |r.msgs| == |net.msgs|
    decreases |popped|
  {
    if popped == [] then net else Settle(cfg, SettleOne(cfg, net, popped[0]), popped[1..])
  }

  /** Replacing a writer by one with (the end of) the same queue. */
  function WithWriter(cfg: Config, net: Net, w: nat, st: W.State): (r: Net)
    requires Shape(cfg, net) && w < |cfg.fifo| && W.Valid(st)
    requires |st.queue| <= |net.writers[w].queue|
    requires st.queue == net.writers[w].queue[|net.writers[w].queue| - |st.queue|..]
    ensures Shape(cfg, r)
  {
    net.(writers := net.writers[w := st])
  }

  function FlushWriter(cfg: Config, net: Net, w: nat, io: seq<W.Io>): (r: Net)
    requires Shape(cfg, net) && w < |cfg.fifo|
    ensures Shape(cfg, r) && |r.msgs| == |net.msgs|
  {
    var st := net.writers[w];
    var after := W.AfterFlush(st, io);
    W.FlushKeepsValid(st, io);
    W.FlushPopsHead(st, io);
    Settle(cfg, WithWriter(cfg, net, w, after), W.Popped(st, after))
  }

  // ---------------------------------------------------------------------
  // Runs
  // ---------------------------------------------------------------------

  /** What the reader guarantees of one dispatch: at most `fetchLimit`
      messages, the first one only with an open window, and with a single read
      attempt every one only with an open window. */
  ghost predicate GateOk(gate: seq<int>, fetchLimit: nat, singleRead: bool) {
    && |gate| <= fetchLimit
    && (gate != [] ==> gate[0] > 0)
    && (singleRead ==> forall k :: 0 <= k < |gate| ==> gate[k] > 0)
  }

  /** The source can read these messages. */
  ghost predicate AllPossible(cfg: Config, src: nat, inputs: seq<Input>) {
    forall k :: 0 <= k < |inputs| ==> cfg.possible(src, inputs[k])
  }

  ghost predicate Enabled(cfg: Config, net: Net, ev: Event)
    requires ConfigOk(cfg) && Shape(cfg, net)
  {
    match ev
    case Dispatch(src, inputs) =>
      && src < |cfg.sources| && AllPossible(cfg, src, inputs)
      && GateOk(Gate(cfg, net, src, inputs), cfg.sources[src].fetchLimit, cfg.sources[src].singleRead)
    case Flush(w, _) => w < |cfg.fifo| && net.writers[w].open
    case Broken(w) => w < |cfg.fifo|
    case Reopen(w, _) => w < |cfg.fifo|
  }

  function Step(cfg: Config, net: Net, ev: Event): (r: Net)
    requires ConfigOk(cfg) && Shape(cfg, net) && Enabled(cfg, net, ev)
    ensures Shape(cfg, r)
  {
    match ev
    case Dispatch(src, inputs) => EmitAll(cfg, net, src, inputs)
    case Flush(w, io) => FlushWriter(cfg, net, w, io)
    case Broken(w) => WithWriter(cfg, net, w, net.writers[w].(open := false))
    case Reopen(w, descriptor) => WithWriter(cfg, net, w, net.writers[w].(open := descriptor))
  }

  /** A writer whose descriptor broke is not flushed until it has a new one; the
      queue waits, and what was not written of a line. */
  lemma {:induction false} BrokenWaits(cfg: Config, net: Net, w: nat, io: seq<W.Io>)
    requires ConfigOk(cfg) && Shape(cfg, net) && w < |cfg.fifo|
    ensures var broken := Step(cfg, net, Broken(w));
      !Enabled(cfg, broken, Flush(w, io)) && broken == net.(writers := broken.writers)
    ensures SameQueues(net, Step(cfg, net, Broken(w)))
  {
  }

  lemma {:induction false} ReopenedGoesOn(cfg: Config, net: Net, w: nat, descriptor: bool, io: seq<W.Io>)
    requires ConfigOk(cfg) && Shape(cfg, net) && w < |cfg.fifo|
    ensures var reopened := Step(cfg, net, Reopen(w, descriptor));
      (Enabled(cfg, reopened, Flush(w, io)) <==> descriptor) && reopened == net.(writers := reopened.writers)
    ensures SameQueues(net, Step(cfg, net, Reopen(w, descriptor)))
  {
  }

  ghost predicate SameQueues(a: Net, b: Net) {
    |a.writers| == |b.writers| && forall w :: 0 <= w < |a.writers| ==>
      a.writers[w].queue == b.writers[w].queue && a.writers[w].partial == b.writers[w].partial
  }

  lemma {:induction false} InitialShape(cfg: Config)
    ensures Shape(cfg, Initial(cfg))
  {
    assert W.Valid(W.FRESH);
  }

  /** A run: every event is enabled in the state in which it happens. */
  ghost predicate IsRun(cfg: Config, run: seq<Event>)
    requires ConfigOk(cfg)
    decreases |run|, 0
  {
    run == [] ||
    var before := run[..|run| - 1];
    IsRun(cfg, before) && Enabled(cfg, After(cfg, before), run[|run| - 1])
  }

  /** The state a run leads to. */
  ghost function After(cfg: Config, run: seq<Event>): (net: Net)
    requires ConfigOk(cfg) && IsRun(cfg, run)
    ensures Shape(cfg, net)
    decreases |run|, 1
  {
    InitialShape(cfg);
    if run == [] then Initial(cfg)
    else Step(cfg, After(cfg, run[..|run| - 1]), run[|run| - 1])
  }
}
