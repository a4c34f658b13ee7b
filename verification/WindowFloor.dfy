/** How far a source's window can close, whatever the routes are: the readers'
    gate alone bounds it in every run. */
module WindowFloor {
  import opened AckStack
  import opened Pipeline
  import opened Tokens
  import opened NoLoss
  import W = Writers

  /** One emission closes the window of its source by at most one, and closes no
      other window. */
  lemma {:induction false} EmitClosesOne(cfg: Config, net: Net, src: nat, input: Input, s: nat)
    requires ConfigOk(cfg) && Shape(cfg, net) && src < |cfg.sources| && s < |cfg.sources|
    ensures Emit(cfg, net, src, input).windows[s] >= net.windows[s] - if s == src then 1 else 0
  {
    var id := |net.msgs|;
    var entered := Entered(cfg, net, src);
    var p := Parcel(id, src, input);
    var routes := RoutesFor(cfg, src, input);
    RoutesEase(cfg, entered, p, routes);
    MsgOpEases(cfg, ToRoutes(cfg, entered, p, routes), id, CenterAck);
  }

  lemma {:induction false} EmitAllCloses(cfg: Config, net: Net, src: nat, inputs: seq<Input>, s: nat)
    requires ConfigOk(cfg) && Shape(cfg, net) && src < |cfg.sources| && s < |cfg.sources|
    ensures EmitAll(cfg, net, src, inputs).windows[s] >= net.windows[s] - if s == src then |inputs| else 0
  {
    if inputs != [] {
      var before := inputs[..|inputs| - 1];
      EmitAllCloses(cfg, net, src, before, s);
      EmitClosesOne(cfg, EmitAll(cfg, net, src, before), src, inputs[|inputs| - 1], s);
    }
  }

  lemma {:induction false} DispatchKeepsFloor(cfg: Config, net: Net, src: nat, inputs: seq<Input>)
    requires ConfigOk(cfg) && Inv(cfg, net, [], IDLE) && FloorOk(cfg, net) && Enabled(cfg, net, Dispatch(src, inputs))
    ensures FloorOk(cfg, EmitAll(cfg, net, src, inputs))
  {
    forall s | 0 <= s < |cfg.sources|
      ensures EmitAll(cfg, net, src, inputs).windows[s] >= cfg.sources[s].initWindow - Budget(cfg.sources[s])
    {
      EmitAllCloses(cfg, net, src, inputs, s);
      if s == src && inputs != [] {
        var before := inputs[..|inputs| - 1];
        EmitAllCloses(cfg, net, src, before, s);
        GateAllows(cfg, net, src, inputs);
        EmitClosesOne(cfg, EmitAll(cfg, net, src, before), src, inputs[|inputs| - 1], s);
      }
    }
  }

  lemma {:induction false} FlushOpens(cfg: Config, net: Net, w: nat, io: seq<W.Io>)
    requires Shape(cfg, net) && w < |cfg.fifo|
    ensures Eased(net, FlushWriter(cfg, net, w, io))
  {
    var st := net.writers[w];
    var after := W.AfterFlush(st, io);
    W.FlushKeepsValid(st, io);
    W.FlushPopsHead(st, io);
    SettleEases(cfg, WithWriter(cfg, net, w, after), W.Popped(st, after));
  }

  lemma {:induction false} FlushKeepsFloor(cfg: Config, net: Net, w: nat, io: seq<W.Io>)
    requires ConfigOk(cfg) && Shape(cfg, net) && FloorOk(cfg, net) && w < |cfg.fifo|
    ensures FloorOk(cfg, FlushWriter(cfg, net, w, io))
  {
    FlushOpens(cfg, net, w, io);
  }

  lemma {:induction false} RunKeepsFloor(cfg: Config, run: seq<Event>)
    requires ConfigOk(cfg) && IsRun(cfg, run)
    ensures FloorOk(cfg, After(cfg, run))
  {
    if run != [] {
      var before := run[..|run| - 1];
      RunKeepsFloor(cfg, before);
      RunKeepsInv(cfg, before);
      match run[|run| - 1] {
        case Dispatch(src, inputs) => DispatchKeepsFloor(cfg, After(cfg, before), src, inputs);
        case Flush(w, io) => FlushKeepsFloor(cfg, After(cfg, before), w, io);
        case Broken(_) =>
        case Reopen(_, _) =>
      }
    }
  }

  /** In every reachable state the window of a source that started open is above
      minus its fetch limit, and not below zero if its reader reads once per
      dispatch; and its unacknowledged messages stay within its budget. */
  lemma {:induction false} WindowBounded(cfg: Config, run: seq<Event>, s: nat)
    requires ConfigOk(cfg) && IsRun(cfg, run) && s < |cfg.sources| && cfg.sources[s].initWindow > 0
    ensures var sc := cfg.sources[s];
      var net := After(cfg, run);
      && (if sc.singleRead then 0 else 1 - sc.fetchLimit) <= net.windows[s] <= sc.initWindow
      && Outstanding(net.msgs, s) <= Budget(sc)
  {
    RunKeepsFloor(cfg, run);
    RunKeepsInv(cfg, run);
    WindowsConserved(cfg, run, s);
    OpenWindowMeansBudget(cfg, After(cfg, run), s);
  }
}
