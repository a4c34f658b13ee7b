/** The pipeline as the program runs it: message and writer objects updated in
    place by the source's, the center's, the groups' and the writers' queueing.
    Every method is proved to take the step `Pipeline` specifies. */
module Daemon {
  import opened Sequences
  import opened AckStack
  import opened Routing
  import opened Pipeline
  import W = Writers

  ghost function MsgViews(ms: seq<LogMessage>): (vs: seq<Msg>)
    reads ms
    ensures |vs| == |ms| && forall i :: 0 <= i < |ms| ==> vs[i] == ms[i].View()
  {
    seq(|ms|, i requires 0 <= i < |ms| reads ms => ms[i].View())
  }

  ghost function WriterViews(ws: seq<W.LogWriter>): (vs: seq<W.State>)
    reads ws
    ensures |vs| == |ws| && forall i :: 0 <= i < |ws| ==> vs[i] == ws[i].View()
  {
    seq(|ws|, i requires 0 <= i < |ws| reads ws => ws[i].View())
  }

  lemma {:induction false} NewKeepsShape(cfg: Config, net: Net, src: nat)
    requires Shape(cfg, net) && src < |cfg.sources|
    ensures Shape(cfg, OnNew(net, src))
  {
  }

  lemma {:induction false} DriversStep(cfg: Config, net: Net, p: Parcel, ws: seq<nat>, flow: bool, i: nat)
    requires Shape(cfg, net) && p.id < |net.msgs| && i < |ws|
    requires forall k :: 0 <= k < |ws| ==> ws[k] < |cfg.fifo|
    ensures ToDrivers(cfg, net, p, ws[..i + 1], flow)
      == ToDriver(cfg, ToDrivers(cfg, net, p, ws[..i], flow), p, ws[i], flow)
  {
    assert ws[..i + 1][..i] == ws[..i];
  }

  lemma {:induction false} EmitStep(cfg: Config, net: Net, src: nat, inputs: seq<Input>, i: nat)
    requires ConfigOk(cfg) && Shape(cfg, net) && src < |cfg.sources| && i < |inputs|
    ensures EmitAll(cfg, net, src, inputs[..i + 1]) == Emit(cfg, EmitAll(cfg, net, src, inputs[..i]), src, inputs[i])
  {
    assert inputs[..i + 1][..i] == inputs[..i];
  }

  /** A new writer whose queue has `fifoSize` places. */
  ghost predicate Blank(w: W.LogWriter, fifoSize: nat)
    reads w
  {
    w.fifoSize == fifoSize && w.View() == W.FRESH
  }

  class LogCenter {
    const cfg: Config
    var messages: seq<LogMessage>
    var writers: seq<W.LogWriter>
    var windows: seq<int>

    ghost function View(): Net
      reads this, messages, writers
    {
      Net(MsgViews(messages), WriterViews(writers), windows)
    }

    ghost predicate Ok()
      reads this, messages, writers
    {
      && ConfigOk(cfg)
      && Distinct(messages) && Distinct(writers)
      && |writers| == |cfg.fifo|
      && (forall w :: 0 <= w < |writers| ==> writers[w].fifoSize == cfg.fifo[w])
      && Shape(cfg, View())
    }

    /** An empty pipeline over new writers, with all windows as configured. */
    constructor (cfg: Config, writers: seq<W.LogWriter>)
      requires ConfigOk(cfg) && |writers| == |cfg.fifo| && Distinct(writers)
      requires forall w :: 0 <= w < |writers| ==> Blank(writers[w], cfg.fifo[w])
      ensures this.cfg == cfg && messages == [] && this.writers == writers
      ensures Ok() && View() == Initial(cfg)
    {
      this.cfg := cfg;
      messages := [];
      this.writers := writers;
      windows := Initial(cfg).windows;
      new;
      InitialShape(cfg);
      assert MsgViews(messages) == Initial(cfg).msgs;
      assert WriterViews(writers) == Initial(cfg).writers;
    }

    method Ref(id: nat)
      requires Ok() && id < |messages|
      modifies messages[id]
      ensures Ok() && View() == OnRef(old(View()), id)
    {
      MsgOpKeepsShape(cfg, View(), id, GroupAck);
      messages[id].Ref();
      assert MsgViews(messages) == old(MsgViews(messages))[id := messages[id].View()];
    }

    method Unref(id: nat)
      requires Ok() && id < |messages|
      modifies messages[id]
      ensures Ok() && View() == OnUnref(old(View()), id)
    {
      MsgOpKeepsShape(cfg, View(), id, GroupAck);
      messages[id].Unref();
      assert MsgViews(messages) == old(MsgViews(messages))[id := messages[id].View()];
    }

    method Inc(id: nat)
      requires Ok() && id < |messages|
      modifies messages[id]
      ensures Ok() && View() == OnInc(old(View()), id)
    {
      MsgOpKeepsShape(cfg, View(), id, GroupAck);
      messages[id].AckBlockInc();
      assert MsgViews(messages) == old(MsgViews(messages))[id := messages[id].View()];
    }

    method Start(id: nat, owner: Owner)
      requires Ok() && id < |messages|
      modifies messages[id]
      ensures Ok() && View() == OnStart(old(View()), id, owner)
    {
      MsgOpKeepsShape(cfg, View(), id, owner);
      messages[id].AckBlockStart(owner);
      assert MsgViews(messages) == old(MsgViews(messages))[id := messages[id].View()];
    }

    /** `log_msg_ack`; when it runs the source's callback, that callback's
        `window_size++` happens here. */
    method Ack(id: nat)
      requires Ok() && id < |messages|
      modifies `windows, messages[id]
      ensures Ok() && View() == OnAck(old(View()), id)
    {
      MsgOpKeepsShape(cfg, View(), id, GroupAck);
      ghost var goal := OnAck(View(), id);
      var src := messages[id].source;
      assert src == View().msgs[id].source;
      var woken := messages[id].Ack();
      if woken {
        windows := windows[src := windows[src] + 1];
      }
      assert MsgViews(messages) == goal.msgs;
      assert WriterViews(writers) == goal.writers;
      assert View() == goal;
    }

    method Offer(w: nat, e: W.Entry) returns (kept: bool)
      requires Ok() && w < |writers| && e.id < |messages|
      modifies writers[w]
      ensures Ok()
      ensures kept <==> |old(View()).writers[w].queue| != cfg.fifo[w]
      ensures View() == old(View()).(writers :=
        old(View()).writers[w := W.AfterQueue(old(View()).writers[w], cfg.fifo[w], e)])
    {
      QueueOfferKeepsShape(cfg, View(), w, e);
      assert View().writers[w] == writers[w].View();
      kept := writers[w].Queue(e);
      assert WriterViews(writers) == old(WriterViews(writers))[w := writers[w].View()];
      assert MsgViews(messages) == old(MsgViews(messages));
    }

    /** A copy is given up: acknowledged if flow controlled, and released. This
        is `log_msg_drop`, and what a flush does with an entry it pops. */
    method SettleEntry(e: W.Entry)
      requires Ok() && e.id < |messages|
      modifies `windows, messages[e.id]
      ensures Ok() && View() == SettleOne(cfg, old(View()), e)
    {
      if e.flow {
        Ack(e.id);
      }
      Unref(e.id);
    }

    /** A writer's queueing, with `log_msg_drop` when its queue is full. */
    method Deliver(w: nat, e: W.Entry)
      requires Ok() && w < |writers| && e.id < |messages|
      modifies `windows, messages[e.id], writers[w]
      ensures Ok() && View() == OnDeliver(cfg, old(View()), w, e)
    {
      var kept := Offer(w, e);
      if !kept {
        SettleEntry(e);
      }
    }

    method ToOneDriver(p: Parcel, w: nat, flow: bool)
      requires Ok() && w < |writers| && p.id < |messages|
      modifies `windows, messages[p.id], writers[w]
      ensures Ok() && View() == ToDriver(cfg, old(View()), p, w, flow)
    {
      if flow {
        Inc(p.id);
      }
      Ref(p.id);
      Deliver(w, W.Entry(p.id, flow, LineFor(cfg, p, w)));
    }

    /** The driver loop of `log_dest_group_queue`. */
    method QueueDrivers(p: Parcel, ws: seq<nat>, flow: bool)
      requires Ok() && p.id < |messages|
      requires forall k :: 0 <= k < |ws| ==> ws[k] < |cfg.fifo|
      modifies `windows, messages[p.id], writers
      ensures Ok() && View() == ToDrivers(cfg, old(View()), p, ws, flow)
    {
      ghost var entered := View();
      for i := 0 to |ws|
        invariant Ok() && messages == old(messages) && writers == old(writers)
        invariant View() == ToDrivers(cfg, entered, p, ws[..i], flow)
      {
        DriversStep(cfg, entered, p, ws, flow, i);
        ToOneDriver(p, ws[i], flow);
      }
      assert ws[..|ws|] == ws;
    }

    /** `log_dest_group_queue` for the group whose drivers are `ws`. */
    method GroupQueue(p: Parcel, ws: seq<nat>, flow: bool)
      requires Ok() && p.id < |messages|
      requires forall k :: 0 <= k < |ws| ==> ws[k] < |cfg.fifo|
      modifies `windows, messages[p.id], writers
      ensures Ok() && View() == ToGroup(cfg, old(View()), p, ws, flow)
    {
      if flow {
        Ref(p.id);
        Start(p.id, GroupAck);
      }
      assert View() == GroupEntered(cfg, old(View()), p.id, flow);
      QueueDrivers(p, ws, flow);
      if flow {
        Ack(p.id);
      }
      Unref(p.id);
    }

    method DeliverRoute(p: Parcel, r: Route)
      requires Ok() && p.id < |messages| && r.group < |cfg.groups|
      modifies `windows, messages[p.id], writers
      ensures Ok() && View() == ToRoute(cfg, old(View()), p, r)
    {
      if r.flow {
        Inc(p.id);
      }
      Ref(p.id);
      GroupQueue(p, cfg.groups[r.group], r.flow);
    }

    /** The deliveries of `log_center_queue`, over the routes it selects. */
    method DeliverAll(p: Parcel, routes: seq<Route>)
      requires Ok() && p.id < |messages| && RoutesOk(cfg, routes)
      modifies `windows, messages[p.id], writers
      ensures Ok() && View() == ToRoutes(cfg, old(View()), p, routes)
    {
      ghost var before := View();
      for i := 0 to |routes|
        invariant Ok() && messages == old(messages) && writers == old(writers)
        invariant View() == ToRoutes(cfg, before, p, routes[..i])
      {
        assert routes[..i + 1][..i] == routes[..i];
        ghost var mid := View();
        DeliverRoute(p, routes[i]);
        assert View() == ToRoute(cfg, mid, p, routes[i]);
      }
      assert routes[..|routes|] == routes;
    }

    /** A new message of source `src` with the source's block, and the window
        closed by one. */
    method NewMessage(src: nat)
      requires Ok() && src < |cfg.sources|
      modifies this
      ensures writers == old(writers) && |messages| == |old(messages)| + 1
      ensures messages[..|old(messages)|] == old(messages) && fresh(messages[|old(messages)|])
      ensures Ok() && View() == OnNew(old(View()), src)
    {
      NewKeepsShape(cfg, View(), src);
      ghost var goal := OnNew(View(), src);
      var m := new LogMessage(src);
      m.AckBlockStart(SourceAck);
      messages := messages + [m];
      windows := windows[src := windows[src] - 1];
      assert MsgViews(messages) == goal.msgs;
      assert WriterViews(writers) == goal.writers;
      assert View() == goal;
    }

    method Enter(src: nat)
      requires Ok() && src < |cfg.sources|
      modifies this
      ensures writers == old(writers) && |messages| == |old(messages)| + 1
      ensures messages[..|old(messages)|] == old(messages) && fresh(messages[|old(messages)|])
      ensures Ok() && View() == Entered(cfg, old(View()), src)
    {
      var id := |messages|;
      NewMessage(src);
      Ref(id);
      Start(id, CenterAck);
    }

    /** The two passes of `log_center_queue` over the connections. */
    method CenterQueue(src: nat, id: nat, input: Input)
      requires Ok() && src < |cfg.sources| && id < |messages|
      modifies `windows, messages[id], writers
      ensures Ok() && View() == ToRoutes(cfg, old(View()), Parcel(id, src, input), RoutesFor(cfg, src, input))
    {
      var routes := Select(cfg.conns, Facts(cfg.sources[src].name, cfg.accepts(src, input)));
      assert routes == RoutesFor(cfg, src, input);
      DeliverAll(Parcel(id, src, input), routes);
    }

    /** `log_source_queue` for a new message of source `src`, and with it
        `log_center_queue`. */
    method SourceQueue(src: nat, input: Input)
      requires Ok() && src < |cfg.sources|
      modifies this, writers
      ensures writers == old(writers) && |messages| == |old(messages)| + 1
      ensures Extends(old(messages))
      ensures Ok() && View() == Emit(cfg, old(View()), src, input)
    {
      var id := |messages|;
      Enter(src);
      CenterQueue(src, id, input);
      Ack(id);
    }

    method FlushQueue(w: nat, io: seq<W.Io>) returns (popped: seq<W.Entry>)
      requires Ok() && w < |writers| && writers[w].open
      modifies writers[w]
      ensures Ok()
      ensures var before := old(View());
        var after := W.AfterFlush(before.writers[w], io);
        && |after.queue| <= |before.writers[w].queue|
        && popped == W.Popped(before.writers[w], after)
        && W.Valid(after)
        && before.writers[w].queue == popped + after.queue
        && View() == before.(writers := before.writers[w := after])
    {
      ghost var before, st := View(), View().writers[w];
      assert st == writers[w].View();
      popped := writers[w].FlushLog(io);
      ghost var after := W.AfterFlush(st, io);
      FlushPops(st, io, popped);
      assert WriterViews(writers) == before.writers[w := after];
      assert MsgViews(messages) == before.msgs;
      ReplacedShape(cfg, before, w, after, popped);
    }

    method SettleAll(popped: seq<W.Entry>)
      requires Ok() && forall k :: 0 <= k < |popped| ==> popped[k].id < |messages|
      modifies `windows, messages
      ensures Ok() && View() == Settle(cfg, old(View()), popped)
    {
      for i := 0 to |popped|
        invariant Ok() && messages == old(messages) && writers == old(writers)
        invariant Settle(cfg, View(), popped[i..]) == Settle(cfg, old(View()), popped)
      {
        assert popped[i..][0] == popped[i] && popped[i..][1..] == popped[i + 1..];
        SettleEntry(popped[i]);
      }
      assert popped[|popped|..] == [];
    }

    /** A writer's flush. The acknowledgements follow the writes here; they
        touch messages and windows only, so the order does not show. */
    method FlushLog(w: nat, io: seq<W.Io>)
      requires Ok() && w < |writers| && writers[w].open
      modifies `windows, messages, writers[w]
      ensures Ok() && View() == FlushWriter(cfg, old(View()), w, io)
    {
      var popped := FlushQueue(w, io);
      SettleAll(popped);
    }

    twostate predicate Extends(before: seq<LogMessage>)
      reads this
    {
      && |before| <= |messages|
      && (forall k :: 0 <= k < |before| ==> messages[k] == before[k])
      && forall k :: |before| <= k < |messages| ==> fresh(messages[k])
    }

    /** One dispatch of a reader: its messages go out one after the other. */
    method Dispatch(src: nat, inputs: seq<Input>)
      requires Ok() && src < |cfg.sources|
      modifies this, writers
      ensures writers == old(writers) && Extends(old(messages))
      ensures Ok() && View() == EmitAll(cfg, old(View()), src, inputs)
    {
      ghost var before := View();
      for i := 0 to |inputs|
        invariant Ok() && writers == old(writers) && Extends(old(messages))
        invariant View() == EmitAll(cfg, before, src, inputs[..i])
      {
        EmitStep(cfg, before, src, inputs, i);
        SourceQueue(src, inputs[i]);
      }
      assert inputs[..|inputs|] == inputs;
    }

    /** `log_writer_broken`, and `log_writer_reopen`. */
    method SetDescriptor(w: nat, descriptor: bool)
      requires Ok() && w < |writers|
      modifies writers[w]
      ensures Ok() && View() == WithWriter(cfg, old(View()), w, old(View()).writers[w].(open := descriptor))
    {
      ghost var before, st := View(), View().writers[w];
      assert st == writers[w].View();
      ghost var after := st.(open := descriptor);
      writers[w].Reopen(descriptor);
      assert WriterViews(writers) == before.writers[w := after];
      assert MsgViews(messages) == before.msgs;
      ReplacedShape(cfg, before, w, after, []);
    }

    /** One event of a run. */
    method Perform(ev: Event)
      requires Ok() && Enabled(cfg, View(), ev)
      modifies this, messages, writers
      ensures writers == old(writers) && Extends(old(messages))
      ensures Ok() && View() == Step(cfg, old(View()), ev)
    {
      match ev
      case Dispatch(src, inputs) => Dispatch(src, inputs);
      case Flush(w, io) => FlushLog(w, io);
      case Broken(w) => SetDescriptor(w, false);
      case Reopen(w, descriptor) => SetDescriptor(w, descriptor);
    }

    /** A whole run from the start leads where the specification says, so what
        is proved of `After` holds of these objects. */
    method Execute(run: seq<Event>)
      requires Ok() && messages == [] && IsRun(cfg, run) && View() == Initial(cfg)
      modifies this, writers
      ensures Ok() && View() == After(cfg, run)
    {
      for i := 0 to |run|
        invariant Ok() && writers == old(writers) && forall k :: 0 <= k < |messages| ==> fresh(messages[k])
        invariant IsRun(cfg, run[..i]) && View() == After(cfg, run[..i])
      {
        RunStep(cfg, run, i);
        Perform(run[i]);
      }
      assert run[..|run|] == run;
    }
  }

  lemma {:induction false} FlushPops(st: W.State, io: seq<W.Io>, popped: seq<W.Entry>)
    requires W.Valid(st) && popped + W.AfterFlush(st, io).queue == st.queue
    ensures var after := W.AfterFlush(st, io);
      |after.queue| <= |st.queue| && popped == W.Popped(st, after) && W.Valid(after)
  {
    W.FlushKeepsValid(st, io);
    assert popped == st.queue[..|popped|];
  }

  lemma {:induction false} ReplacedShape(cfg: Config, net: Net, w: nat, after: W.State, popped: seq<W.Entry>)
    requires Shape(cfg, net) && w < |cfg.fifo| && W.Valid(after) && net.writers[w].queue == popped + after.queue
    ensures Shape(cfg, net.(writers := net.writers[w := after]))
  {
    assert after.queue == net.writers[w].queue[|popped|..];
    assert net.(writers := net.writers[w := after]) == WithWriter(cfg, net, w, after);
  }

  /** Every beginning of a run is a run. */
  lemma {:induction false} RunPrefix(cfg: Config, run: seq<Event>, n: nat)
    requires ConfigOk(cfg) && IsRun(cfg, run) && n <= |run|
    ensures IsRun(cfg, run[..n])
  {
    if n < |run| {
      RunPrefix(cfg, run[..|run| - 1], n);
      assert run[..|run| - 1][..n] == run[..n];
    } else {
      assert run[..n] == run;
    }
  }

  lemma {:induction false} RunStep(cfg: Config, run: seq<Event>, i: nat)
    requires ConfigOk(cfg) && IsRun(cfg, run) && i < |run|
    ensures IsRun(cfg, run[..i]) && Enabled(cfg, After(cfg, run[..i]), run[i])
    ensures IsRun(cfg, run[..i + 1]) && After(cfg, run[..i + 1]) == Step(cfg, After(cfg, run[..i]), run[i])
  {
    var now := run[..i + 1];
    RunPrefix(cfg, run, i + 1);
    assert now[..|now| - 1] == run[..i] && now[|now| - 1] == run[i];
    LastStep(cfg, now, run[..i], run[i]);
  }

  lemma {:induction false} LastStep(cfg: Config, run: seq<Event>, before: seq<Event>, last: Event)
    requires ConfigOk(cfg) && IsRun(cfg, run) && run != []
    requires before == run[..|run| - 1] && last == run[|run| - 1]
    ensures IsRun(cfg, before) && Enabled(cfg, After(cfg, before), last)
    ensures After(cfg, run) == Step(cfg, After(cfg, before), last)
  {
  }
}
