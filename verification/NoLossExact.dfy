/** The budget condition of `NoLoss` is exact: a guarded writer whose queue is
    shorter than the total budget of its sources does drop a message in some
    run. In particular the sum of the initial windows is not enough. */
module NoLossExact {
  import opened Octets
  import opened AckStack
  import opened Routing
  import opened Pipeline
  import opened Tokens
  import opened Delivery
  import opened NoLoss
  import W = Writers

  // ---------------------------------------------------------------------
  // What one emission adds to a queue when nothing is dropped
  // ---------------------------------------------------------------------

  /** From `a` to `b` the writer was offered `hits` copies of message `id`;
      without a drop all of them were added at the tail. */
  ghost predicate Grown(a: W.State, b: W.State, fifoSize: nat, id: nat, hits: nat) {
    && a.dropped <= b.dropped
    && (|a.queue| <= fifoSize ==> |b.queue| <= fifoSize)
    && (a.dropped == b.dropped ==>
          && |b.queue| == |a.queue| + hits
          && b.queue[..|a.queue|] == a.queue
          && forall k :: |a.queue| <= k < |b.queue| ==> b.queue[k].id == id && b.queue[k].flow)
  }

  lemma {:induction false} GrownTwice(
    a: W.State, b: W.State, c: W.State, fifoSize: nat, id: nat, first: nat, second: nat)
    requires Grown(a, b, fifoSize, id, first) && Grown(b, c, fifoSize, id, second)
    ensures Grown(a, c, fifoSize, id, first + second)
  {
    if a.dropped == c.dropped {
      forall k | 0 <= k < |a.queue| ensures c.queue[k] == a.queue[k] {
        assert c.queue[k] == c.queue[..|b.queue|][k] && b.queue[k] == b.queue[..|a.queue|][k];
      }
      forall k | |a.queue| <= k < |c.queue| ensures c.queue[k].id == id && c.queue[k].flow {
        if k < |b.queue| {
          assert c.queue[k] == c.queue[..|b.queue|][k];
        }
      }
    }
  }

  lemma {:induction false} OfferGrows(st: W.State, fifoSize: nat, e: W.Entry)
    requires e.flow
    ensures Grown(st, W.AfterQueue(st, fifoSize, e), fifoSize, e.id, 1)
  {
  }

  lemma {:induction false} DriverGrows(cfg: Config, net: Net, p: Parcel, last: nat, flow: bool, w: nat)
    requires Shape(cfg, net) && p.id < |net.msgs| && w < |cfg.fifo| && last < |cfg.fifo|
    requires last == w ==> flow
    ensures Grown(net.writers[w], ToDriver(cfg, net, p, last, flow).writers[w], cfg.fifo[w], p.id,
                  if last == w then 1 else 0)
  {
    DriverWriters(cfg, net, p, last, flow);
    if last == w {
      OfferGrows(net.writers[w], cfg.fifo[w], W.Entry(p.id, flow, LineFor(cfg, p, w)));
    }
  }

  lemma {:induction false} DriversGrow(cfg: Config, net: Net, p: Parcel, ws: seq<nat>, flow: bool, w: nat)
    requires Shape(cfg, net) && p.id < |net.msgs| && w < |cfg.fifo|
    requires forall k :: 0 <= k < |ws| ==> ws[k] < |cfg.fifo|
    requires w in ws ==> flow
    ensures Grown(net.writers[w], ToDrivers(cfg, net, p, ws, flow).writers[w], cfg.fifo[w], p.id, Hits(ws, w))
  {
    if ws != [] {
      var before := ws[..|ws| - 1];
      var last := ws[|ws| - 1];
      DriversGrow(cfg, net, p, before, flow, w);
      var mid := ToDrivers(cfg, net, p, before, flow);
      DriverGrows(cfg, mid, p, last, flow, w);
      GrownTwice(net.writers[w], mid.writers[w], ToDriver(cfg, mid, p, last, flow).writers[w],
                 cfg.fifo[w], p.id, Hits(before, w), if last == w then 1 else 0);
    }
  }

  lemma {:induction false} RouteGrows(cfg: Config, net: Net, p: Parcel, r: Route, w: nat)
    requires ConfigOk(cfg) && Shape(cfg, net) && p.id < |net.msgs| && w < |cfg.fifo| && r.group < |cfg.groups|
    requires w in cfg.groups[r.group] ==> r.flow
    ensures Grown(net.writers[w], ToRoute(cfg, net, p, r).writers[w], cfg.fifo[w], p.id, Hits(cfg.groups[r.group], w))
  {
    var held := Handed(cfg, net, p.id, r.flow);
    DriversGrow(cfg, GroupEntered(cfg, held, p.id, r.flow), p, cfg.groups[r.group], r.flow, w);
  }

  lemma {:induction false} RoutesGrow(cfg: Config, net: Net, p: Parcel, routes: seq<Route>, w: nat)
    requires ConfigOk(cfg) && Shape(cfg, net) && p.id < |net.msgs| && w < |cfg.fifo| && RoutesOk(cfg, routes)
    requires RoutesGuarded(cfg, routes, w)
    ensures Grown(net.writers[w], ToRoutes(cfg, net, p, routes).writers[w], cfg.fifo[w], p.id,
                  Hits(WritersOf(cfg, routes), w))
  {
    if routes != [] {
      var before := routes[..|routes| - 1];
      var last := routes[|routes| - 1];
      RoutesGrow(cfg, net, p, before, w);
      var mid := ToRoutes(cfg, net, p, before);
      RouteGrows(cfg, mid, p, last, w);
      HitsAppend(WritersOf(cfg, before), cfg.groups[last.group], w);
      GrownTwice(net.writers[w], mid.writers[w], ToRoute(cfg, mid, p, last).writers[w], cfg.fifo[w], p.id,
                 Hits(WritersOf(cfg, before), w), Hits(cfg.groups[last.group], w));
    }
  }

  lemma {:induction false} EmitGrows(cfg: Config, net: Net, src: nat, input: Input, w: nat)
    requires ConfigOk(cfg) && Shape(cfg, net) && src < |cfg.sources| && w < |cfg.fifo| && Guarded(cfg, w)
    ensures Grown(net.writers[w], Emit(cfg, net, src, input).writers[w], cfg.fifo[w], |net.msgs|,
                  Hits(Reached(cfg, src, input), w))
  {
    RoutesAreGuarded(cfg, src, input, w);
    RoutesGrow(cfg, Entered(cfg, net, src), Parcel(|net.msgs|, src, input), RoutesFor(cfg, src, input), w);
  }

  // ---------------------------------------------------------------------
  // Other messages stay as they were
  // ---------------------------------------------------------------------

  ghost predicate OnlyTouched(net: Net, net': Net, id: nat) {
    && |net'.msgs| == |net.msgs|
    && forall i :: 0 <= i < |net.msgs| && i != id ==> net'.msgs[i] == net.msgs[i]
  }

  lemma {:induction false} DriversTouch(cfg: Config, net: Net, p: Parcel, ws: seq<nat>, flow: bool)
    requires Shape(cfg, net) && p.id < |net.msgs|
    requires forall k :: 0 <= k < |ws| ==> ws[k] < |cfg.fifo|
    ensures OnlyTouched(net, ToDrivers(cfg, net, p, ws, flow), p.id)
  {
    if ws != [] {
      DriversTouch(cfg, net, p, ws[..|ws| - 1], flow);
    }
  }

  lemma {:induction false} RouteTouches(cfg: Config, net: Net, p: Parcel, r: Route)
    requires ConfigOk(cfg) && Shape(cfg, net) && p.id < |net.msgs| && r.group < |cfg.groups|
    ensures OnlyTouched(net, ToRoute(cfg, net, p, r), p.id)
  {
    var held := Handed(cfg, net, p.id, r.flow);
    DriversTouch(cfg, GroupEntered(cfg, held, p.id, r.flow), p, cfg.groups[r.group], r.flow);
  }

  lemma {:induction false} RoutesTouch(cfg: Config, net: Net, p: Parcel, routes: seq<Route>)
    requires ConfigOk(cfg) && Shape(cfg, net) && p.id < |net.msgs| && RoutesOk(cfg, routes)
    ensures OnlyTouched(net, ToRoutes(cfg, net, p, routes), p.id)
  {
    if routes != [] {
      RoutesTouch(cfg, net, p, routes[..|routes| - 1]);
      RouteTouches(cfg, ToRoutes(cfg, net, p, routes[..|routes| - 1]), p, routes[|routes| - 1]);
    }
  }

  lemma {:induction false} EmitTouches(cfg: Config, net: Net, src: nat, input: Input)
    requires ConfigOk(cfg) && Shape(cfg, net) && src < |cfg.sources|
    ensures var r := Emit(cfg, net, src, input);
      r.msgs[..|net.msgs|] == net.msgs && r.msgs[|net.msgs|].source == src
  {
    var id := |net.msgs|;
    var p := Parcel(id, src, input);
    RoutesTouch(cfg, Entered(cfg, net, src), p, RoutesFor(cfg, src, input));
    RoutesEase(cfg, Entered(cfg, net, src), p, RoutesFor(cfg, src, input));
    AckKeepsSource(ToRoutes(cfg, Entered(cfg, net, src), p, RoutesFor(cfg, src, input)).msgs[id]);
  }

  // ---------------------------------------------------------------------
  // A message kept in the queue holds its source's window down
  // ---------------------------------------------------------------------

  /** From `before` to `after` the window of `src` closed by `d`, no other did. */
  ghost predicate Closed(before: seq<int>, after: seq<int>, src: nat, d: int) {
    && |after| == |before|
    && forall s :: 0 <= s < |before| ==> after[s] == before[s] - if s == src then d else 0
  }

  /** If the message reaches `w` and is not dropped there, its copies are queued
      there, the window of its source closes by exactly one and no other window
      changes. */
  lemma {:induction false} EmitHolds(cfg: Config, net: Net, src: nat, input: Input, w: nat)
    requires ConfigOk(cfg) && Inv(cfg, net, [], IDLE) && src < |cfg.sources| && w < |cfg.fifo| && Guarded(cfg, w)
    requires w in Reached(cfg, src, input)
    requires Emit(cfg, net, src, input).writers[w].dropped == net.writers[w].dropped
    ensures var r := Emit(cfg, net, src, input);
      && Closed(net.windows, r.windows, src, 1)
      && |r.writers[w].queue| == |net.writers[w].queue| + Hits(Reached(cfg, src, input), w)
  {
    var r := Emit(cfg, net, src, input);
    var id := |net.msgs|;
    EmitGrows(cfg, net, src, input, w);
    HitsMember(Reached(cfg, src, input), w);
    EmitKeepsInv(cfg, net, src, input);
    CopyCounted(r.writers[w].queue, |net.writers[w].queue|);
    QueuedIsOpen(cfg, r, IDLE, w, id);
    EmitTouches(cfg, net, src, input);
    forall s | 0 <= s < |cfg.sources| ensures r.windows[s] == net.windows[s] - if s == src then 1 else 0 {
      assert r.msgs[..|r.msgs| - 1] == net.msgs;
      assert Outstanding(r.msgs, s) == Outstanding(net.msgs, s) + Open(r.msgs[id], s);
    }
  }

  lemma {:induction false} EmitAllDropsGrow(cfg: Config, net: Net, src: nat, inputs: seq<Input>, w: nat)
    requires ConfigOk(cfg) && Shape(cfg, net) && src < |cfg.sources| && w < |cfg.fifo| && Guarded(cfg, w)
    ensures EmitAll(cfg, net, src, inputs).writers[w].dropped >= net.writers[w].dropped
    ensures |net.writers[w].queue| <= cfg.fifo[w] ==> |EmitAll(cfg, net, src, inputs).writers[w].queue| <= cfg.fifo[w]
  {
    if inputs != [] {
      var before := inputs[..|inputs| - 1];
      EmitAllDropsGrow(cfg, net, src, before, w);
      EmitGrows(cfg, EmitAll(cfg, net, src, before), src, inputs[|inputs| - 1], w);
    }
  }

  lemma {:induction false} EmitAllHolds(cfg: Config, net: Net, src: nat, inputs: seq<Input>, w: nat, hits: nat)
    requires ConfigOk(cfg) && Inv(cfg, net, [], IDLE) && src < |cfg.sources| && w < |cfg.fifo| && Guarded(cfg, w)
    requires hits > 0 && forall k :: 0 <= k < |inputs| ==> Hits(Reached(cfg, src, inputs[k]), w) == hits
    requires EmitAll(cfg, net, src, inputs).writers[w].dropped == net.writers[w].dropped
    ensures var r := EmitAll(cfg, net, src, inputs);
      && Closed(net.windows, r.windows, src, |inputs|)
      && |r.writers[w].queue| == |net.writers[w].queue| + hits * |inputs|
  {
    if inputs != [] {
      var before := inputs[..|inputs| - 1];
      var mid := EmitAll(cfg, net, src, before);
      assert mid.writers[w].dropped == net.writers[w].dropped by {
        EmitAllDropsGrow(cfg, net, src, before, w);
        EmitGrows(cfg, mid, src, inputs[|inputs| - 1], w);
      }
      EmitAllHolds(cfg, net, src, before, w, hits);
      EmitAllKeepsInv(cfg, net, src, before);
      HitsMember(Reached(cfg, src, inputs[|inputs| - 1]), w);
      OneMore(hits, |before|, |inputs|, 1);
      EmitHolds(cfg, mid, src, inputs[|inputs| - 1], w);
      ClosedTwice(net.windows, mid.windows, EmitAll(cfg, net, src, inputs).windows, src, |before|, 1);
    }
  }

  lemma {:induction false} ClosedTwice(a: seq<int>, b: seq<int>, c: seq<int>, src: nat, d: int, e: int)
    requires Closed(a, b, src, d) && Closed(b, c, src, e)
    ensures Closed(a, c, src, d + e)
  {
  }

  // ---------------------------------------------------------------------
  // Filling the queue
  // ---------------------------------------------------------------------

  /** How far the windows of the first `n` sources are closed, as often as each
      can hit `w`. */
  ghost function Used(cfg: Config, windows: seq<int>, w: nat, n: nat): int
    requires ConfigOk(cfg) && n <= |cfg.sources| == |windows|
  {
    if n == 0 then 0
    else Used(cfg, windows, w, n - 1) + Most(cfg, n - 1, w) * (cfg.sources[n - 1].initWindow - windows[n - 1])
  }

  lemma {:induction false} Spread(m: int, a: int, b: int, d: int)
    requires b == a + d
    ensures m * b == m * a + m * d
  {
  }

  lemma {:induction false} UsedUpdate(
    cfg: Config, windows: seq<int>, after: seq<int>, w: nat, n: nat, s: nat, d: int)
    requires ConfigOk(cfg) && n <= |cfg.sources| == |windows| && s < |windows|
    requires Closed(windows, after, s, d)
    ensures Used(cfg, after, w, n) == Used(cfg, windows, w, n) + if s < n then Most(cfg, s, w) * d else 0
  {
    if n > 0 {
      UsedUpdate(cfg, windows, after, w, n - 1, s, d);
      var init := cfg.sources[n - 1].initWindow;
      Spread(Most(cfg, n - 1, w), init - windows[n - 1], init - after[n - 1], windows[n - 1] - after[n - 1]);
    }
  }

  /** A state that was reached without flushing `w` and without drops there. */
  ghost predicate Filling(cfg: Config, net: Net, w: nat)
    requires ConfigOk(cfg)
  {
    && Inv(cfg, net, [], IDLE) && w < |cfg.fifo|
    && net.writers[w].dropped == 0
    && |net.writers[w].queue| <= cfg.fifo[w]
    && |net.writers[w].queue| == Used(cfg, net.windows, w, |cfg.sources|)
    && (forall s :: 0 <= s < |cfg.sources| && Most(cfg, s, w) > 0 ==>
          net.windows[s] > 0 || net.windows[s] == cfg.sources[s].initWindow - Budget(cfg.sources[s]))
  }

  lemma {:induction false} ExhaustedIsBudget(cfg: Config, windows: seq<int>, w: nat, n: nat)
    requires ConfigOk(cfg) && n <= |cfg.sources| == |windows|
    requires forall s :: 0 <= s < n && Most(cfg, s, w) > 0 ==>
      windows[s] == cfg.sources[s].initWindow - Budget(cfg.sources[s])
    ensures Used(cfg, windows, w, n) == TotalBudget(cfg, w, n)
  {
    if n > 0 {
      ExhaustedIsBudget(cfg, windows, w, n - 1);
    }
  }

  lemma {:induction false} UntouchedUsesNothing(cfg: Config, w: nat, n: nat)
    requires ConfigOk(cfg) && n <= |cfg.sources|
    ensures Used(cfg, Initial(cfg).windows, w, n) == 0
  {
    if n > 0 {
      UntouchedUsesNothing(cfg, w, n - 1);
      assert Initial(cfg).windows[n - 1] == cfg.sources[n - 1].initWindow;
    }
  }

  function BatchSize(sc: SourceConfig, window: int): nat {
    if sc.singleRead || window > 1 then 1 else sc.fetchLimit
  }

  /** The dispatch that closes a window further: one message, or as many as the
      fetch limit allows when the window is about to close. */
  function Batch(sc: SourceConfig, window: int, input: Input): seq<Input> {
    seq(BatchSize(sc, window), _ => input)
  }

  lemma {:induction false} BatchEnabled(cfg: Config, net: Net, s: nat, input: Input)
    requires ConfigOk(cfg) && Shape(cfg, net) && s < |cfg.sources| && net.windows[s] > 0
    requires cfg.possible(s, input)
    ensures Enabled(cfg, net, Dispatch(s, Batch(cfg.sources[s], net.windows[s], input)))
  {
    FirstGate(cfg, net, s, Batch(cfg.sources[s], net.windows[s], input));
  }

  lemma {:induction false} BatchKeepsFilling(cfg: Config, net: Net, w: nat, s: nat, input: Input, r: Net)
    requires ConfigOk(cfg) && Guarded(cfg, w) && Filling(cfg, net, w)
    requires s < |cfg.sources| && Most(cfg, s, w) > 0 && net.windows[s] > 0
    requires Hits(Reached(cfg, s, input), w) == Most(cfg, s, w)
    requires r == EmitAll(cfg, net, s, Batch(cfg.sources[s], net.windows[s], input))
    requires r.writers[w].dropped == 0
    ensures Filling(cfg, r, w) && |r.writers[w].queue| > |net.writers[w].queue|
  {
    var inputs := Batch(cfg.sources[s], net.windows[s], input);
    EmitAllHolds(cfg, net, s, inputs, w, Most(cfg, s, w));
    EmitAllKeepsInv(cfg, net, s, inputs);
    EmitAllDropsGrow(cfg, net, s, inputs, w);
    ClosedKeepsFilling(cfg, net, r, w, s, |inputs|);
  }

  lemma {:induction false} ClosedKeepsFilling(cfg: Config, net: Net, r: Net, w: nat, s: nat, n: nat)
    requires ConfigOk(cfg) && Filling(cfg, net, w) && Inv(cfg, r, [], IDLE)
    requires s < |cfg.sources| && Most(cfg, s, w) > 0 && net.windows[s] > 0
    requires n == BatchSize(cfg.sources[s], net.windows[s])
    requires Closed(net.windows, r.windows, s, n)
    requires r.writers[w].dropped == 0 && |r.writers[w].queue| <= cfg.fifo[w]
    requires |r.writers[w].queue| == |net.writers[w].queue| + Most(cfg, s, w) * n
    ensures Filling(cfg, r, w) && |r.writers[w].queue| > |net.writers[w].queue|
  {
    UsedUpdate(cfg, net.windows, r.windows, w, |cfg.sources|, s, n);
    OpenWindowMeansBudget(cfg, net, s);
  }

  /** A reader with one read per dispatch emits at most one message in each. */
  ghost predicate OneByOne(cfg: Config, run: seq<Event>) {
    forall i :: 0 <= i < |run| && run[i].Dispatch? ==>
      run[i].src < |cfg.sources| && (cfg.sources[run[i].src].singleRead ==> |run[i].inputs| <= 1)
  }

  /** One more dispatch of a run that fills the queue of `w`: it drops a
      message there or fills the queue further. */
  lemma {:induction false} Fill(
    cfg: Config, w: nat, run: seq<Event>, net: Net, s: nat)
    returns (more: seq<Event>, r: Net)
    requires ConfigOk(cfg) && Guarded(cfg, w) && Filling(cfg, net, w) && IsRun(cfg, run) && net == After(cfg, run)
    requires s < |cfg.sources| && Most(cfg, s, w) > 0 && net.windows[s] > 0 && OneByOne(cfg, run)
    ensures IsRun(cfg, more) && r == After(cfg, more) && Shape(cfg, r) && OneByOne(cfg, more)
    ensures r.writers[w].dropped > 0 || (Filling(cfg, r, w) && |r.writers[w].queue| > |net.writers[w].queue|)
  {
    MostIsReached(cfg, s, w);
    var input :| cfg.possible(s, input) && Hits(Reached(cfg, s, input), w) == Most(cfg, s, w);
    more, r := RunBatch(cfg, run, net, s, input);
    if r.writers[w].dropped == 0 {
      BatchKeepsFilling(cfg, net, w, s, input, r);
    }
  }

  lemma {:induction false} RunBatch(cfg: Config, run: seq<Event>, net: Net, s: nat, input: Input)
    returns (more: seq<Event>, r: Net)
    requires ConfigOk(cfg) && IsRun(cfg, run) && OneByOne(cfg, run) && net == After(cfg, run) && Shape(cfg, net)
    requires s < |cfg.sources| && cfg.possible(s, input) && net.windows[s] > 0
    ensures IsRun(cfg, more) && OneByOne(cfg, more) && r == After(cfg, more) && Shape(cfg, r)
    ensures r == EmitAll(cfg, net, s, Batch(cfg.sources[s], net.windows[s], input))
  {
    var ev := Dispatch(s, Batch(cfg.sources[s], net.windows[s], input));
    BatchEnabled(cfg, net, s, input);
    RunExtended(cfg, run, ev);
    more, r := run + [ev], EmitAll(cfg, net, s, ev.inputs);
  }

  /** When every feeding source has used up its budget the queue is too long. */
  lemma {:induction false} SomeWindowOpen(cfg: Config, net: Net, w: nat) returns (s: nat)
    requires ConfigOk(cfg) && Filling(cfg, net, w) && cfg.fifo[w] < TotalBudget(cfg, w, |cfg.sources|)
    ensures s < |cfg.sources| && Most(cfg, s, w) > 0 && net.windows[s] > 0
  {
    if s': nat :| s' < |cfg.sources| && Most(cfg, s', w) > 0 && net.windows[s'] > 0 {
      s := s';
    } else {
      s := 0;
      ExhaustedIsBudget(cfg, net.windows, w, |cfg.sources|);
      assert false;
    }
  }

  /** Extending a run that fills the queue of `w` until something is dropped. */
  lemma {:induction false} Overfill(cfg: Config, w: nat, run: seq<Event>, net: Net) returns (bad: seq<Event>)
    requires ConfigOk(cfg) && Guarded(cfg, w) && w < |cfg.fifo| && cfg.fifo[w] < TotalBudget(cfg, w, |cfg.sources|)
    requires Filling(cfg, net, w) && IsRun(cfg, run) && net == After(cfg, run) && OneByOne(cfg, run)
    ensures IsRun(cfg, bad) && After(cfg, bad).writers[w].dropped > 0 && OneByOne(cfg, bad)
    decreases cfg.fifo[w] - |net.writers[w].queue|
  {
    var s := SomeWindowOpen(cfg, net, w);
    var r;
    bad, r := Fill(cfg, w, run, net, s);
    if r.writers[w].dropped == 0 {
      bad := Overfill(cfg, w, bad, r);
    }
  }

  lemma {:induction false} RunExtended(cfg: Config, run: seq<Event>, ev: Event)
    requires ConfigOk(cfg) && IsRun(cfg, run) && Enabled(cfg, After(cfg, run), ev)
    ensures IsRun(cfg, run + [ev]) && After(cfg, run + [ev]) == Step(cfg, After(cfg, run), ev)
  {
    assert (run + [ev])[..|run + [ev]| - 1] == run;
  }

  /** No run drops a message at `w`. */
  ghost predicate NeverDrops(cfg: Config, w: nat)
    requires ConfigOk(cfg) && w < |cfg.fifo|
  {
    forall run :: IsRun(cfg, run) ==> After(cfg, run).writers[w].dropped == 0
  }

  lemma {:induction false} StartIsFilling(cfg: Config, w: nat)
    requires ConfigOk(cfg) && w < |cfg.fifo|
    ensures IsRun(cfg, []) && Filling(cfg, After(cfg, []), w)
  {
    RunKeepsInv(cfg, []);
    UntouchedUsesNothing(cfg, w, |cfg.sources|);
  }

  /** A guarded writer loses nothing, in any run, exactly if its queue holds the
      budgets of the sources that feed it. */
  lemma {:induction false} NoLossExactly(cfg: Config, w: nat)
    requires ConfigOk(cfg) && w < |cfg.fifo| && Guarded(cfg, w)
    ensures NeverDrops(cfg, w) <==> cfg.fifo[w] >= TotalBudget(cfg, w, |cfg.sources|)
  {
    if cfg.fifo[w] >= TotalBudget(cfg, w, |cfg.sources|) {
      forall run | IsRun(cfg, run) ensures After(cfg, run).writers[w].dropped == 0 {
        RunKeepsSafe(cfg, run, w);
      }
    } else {
      StartIsFilling(cfg, w);
      var bad := Overfill(cfg, w, [], After(cfg, []));
    }
  }

  /** With such a queue nothing is lost end to end: in every run the bytes a
      guarded writer has written, then the rest of its partial line, then its
      queued lines are the lines of all messages routed to it, in order. */
  lemma {:induction false} NothingLost(cfg: Config, run: seq<Event>, w: nat)
    requires ConfigOk(cfg) && IsRun(cfg, run) && w < |cfg.fifo| && Guarded(cfg, w)
    requires cfg.fifo[w] >= TotalBudget(cfg, w, |cfg.sources|)
    ensures var st := After(cfg, run).writers[w];
      && (st.partial.Partial? ==> st.partial.pos < |st.partial.line|)
      && st.sent + W.Tail(st.partial) + W.Lines(st.queue) == Concat(TextOf(Offered(cfg, run, w)))
  {
    RunKeepsSafe(cfg, run, w);
    StreamIsOffered(cfg, run, w);
  }

  // ---------------------------------------------------------------------
  // The initial windows alone are not enough
  // ---------------------------------------------------------------------

  /** One source with a window of one that reads on after its window closed, and
      one flow-controlled route to a writer with room for one message. */
  function OneSource(): Config {
    Config([Connection({"s"}, [], [0], false, false, false, true)], [[0]], [1], [SourceConfig("s", 1, 2, false, 8)],
           (_, _) => {}, (_, _, input: Input) => input.text, (_, input: Input) => input.text == "a")
  }

  lemma {:induction false} OneRoute(conns: seq<Connection>, f: Facts)
    requires |conns| == 1 && Matches(conns[0], f) && !conns[0].fallback
    ensures Routes(conns, f) == RoutesOf(conns[0])
  {
    assert !UsesFallback(conns, f);
    assert Served(conns, f, 0);
    assert RoutesUpTo(conns, f, 0) == [] && [] + RoutesOf(conns[0]) == RoutesOf(conns[0]);
  }

  lemma {:induction false} OneWriter(cfg: Config, routes: seq<Route>)
    requires RoutesOk(cfg, routes) && |routes| == 1 && cfg.groups[routes[0].group] == [0]
    ensures WritersOf(cfg, routes) == [0]
  {
    assert routes[..0] == [] && WritersOf(cfg, []) == [] && [] + [0] == [0];
  }

  lemma {:induction false} NoFilter(c: Connection, f: Facts)
    requires c.filters == [] && f.source in c.sources
    ensures Matches(c, f)
  {
  }

  lemma {:induction false} OneSourceReaches(input: Input)
    ensures ConfigOk(OneSource()) && Reached(OneSource(), 0, input) == [0]
  {
    var cfg := OneSource();
    var f := Facts("s", cfg.accepts(0, input));
    assert cfg.conns[0].filters == [] && !cfg.conns[0].fallback;
    NoFilter(cfg.conns[0], f);
    OneRoute(cfg.conns, f);
    OneWriter(cfg, RoutesFor(cfg, 0, input));
  }

  lemma {:induction false} OneHit()
    ensures Hits([0], 0) == 1
  {
    assert [0][..0] == [];
  }

  lemma {:induction false} OneSourceBudget()
    ensures ConfigOk(OneSource()) && Guarded(OneSource(), 0) && TotalBudget(OneSource(), 0, 1) == 2
  {
    OneSourceReaches(Input("a", 0));
    OneMost();
    assert TotalBudget(OneSource(), 0, 0) == 0;
  }

  lemma {:induction false} OneMost()
    ensures ConfigOk(OneSource()) && Most(OneSource(), 0, 0) == 1
  {
    var cfg := OneSource();
    OneSourceReaches(Input("a", 0));
    OneHit();
    MostIsMaximum(cfg, 0, 0, Input("a", 0));
    MostIsReached(cfg, 0, 0);
    var input :| cfg.possible(0, input) && Hits(Reached(cfg, 0, input), 0) == Most(cfg, 0, 0);
    OneSourceReaches(input);
  }

  /** A queue as long as the sum of the initial windows does not rule out a
      drop, although flow control is on everywhere. */
  lemma {:induction false} InitialWindowsNotEnough()
    ensures var cfg := OneSource();
      && ConfigOk(cfg) && Guarded(cfg, 0) && cfg.fifo[0] == cfg.sources[0].initWindow
      && exists run :: IsRun(cfg, run) && After(cfg, run).writers[0].dropped > 0
  {
    OneSourceBudget();
    NoLossExactly(OneSource(), 0);
  }

  // ---------------------------------------------------------------------
  // Filters that exclude each other
  // ---------------------------------------------------------------------

  /** Two flow-controlled statements to one group, filter 1 being "not filter 0",
      and a writer with room for one message. */
  function Exclusive(): Config {
    Config([Connection({"s"}, [0], [0], false, false, false, true),
            Connection({"s"}, [1], [0], false, false, false, true)],
           [[0]], [1], [SourceConfig("s", 1, 1, true, 8)],
           (_, input: Input) => if input.text == "a" then {0} else {1},
           (_, _, input: Input) => input.text, (_, _) => true)
  }

  lemma {:induction false} OneFilter(c: Connection, f: Facts, k: nat)
    requires c.filters == [k] && f.source in c.sources
    ensures Matches(c, f) <==> k in f.accepted
  {
    assert c.filters[0] == k;
  }

  lemma {:induction false} OneOfTwo(conns: seq<Connection>, f: Facts)
    requires |conns| == 2 && (Matches(conns[0], f) <==> !Matches(conns[1], f))
    requires forall c :: c in conns ==> !c.fallback && !c.final
    ensures Routes(conns, f) == RoutesOf(if Matches(conns[0], f) then conns[0] else conns[1])
  {
    assert Matches(conns[0], f) || Matches(conns[1], f);
    assert !UsesFallback(conns, f);
    assert RoutesUpTo(conns, f, 0) == [];
    assert Served(conns, f, 0) <==> Matches(conns[0], f);
    assert Served(conns, f, 1) <==> Matches(conns[1], f);
    assert RoutesUpTo(conns, f, 1) == if Matches(conns[0], f) then RoutesOf(conns[0]) else [];
  }

  lemma {:induction false} ExclusiveReaches(input: Input)
    ensures ConfigOk(Exclusive()) && Reached(Exclusive(), 0, input) == [0]
  {
    var cfg := Exclusive();
    var f := Facts("s", cfg.accepts(0, input));
    OneFilter(cfg.conns[0], f, 0);
    OneFilter(cfg.conns[1], f, 1);
    OneOfTwo(cfg.conns, f);
    OneWriter(cfg, RoutesFor(cfg, 0, input));
  }

  lemma {:induction false} ExclusiveMost()
    ensures ConfigOk(Exclusive()) && Most(Exclusive(), 0, 0) <= 1
  {
    var cfg := Exclusive();
    ExclusiveReaches(Input("a", 0));
    OneHit();
    if Most(cfg, 0, 0) > 1 {
      MostIsReached(cfg, 0, 0);
      var input :| cfg.possible(0, input) && Hits(Reached(cfg, 0, input), 0) == Most(cfg, 0, 0);
      ExclusiveReaches(input);
    }
  }

  /** A queue of one is enough here, since no message passes both filters: what
      counts is what one message can do, not what the statements name. */
  lemma {:induction false} ExclusiveFiltersNeverDrop()
    ensures ConfigOk(Exclusive()) && Guarded(Exclusive(), 0) && NeverDrops(Exclusive(), 0)
  {
    ExclusiveMost();
    OneCopyEach(Exclusive());
  }

  lemma {:induction false} OneCopyEach(cfg: Config)
    requires ConfigOk(cfg) && |cfg.sources| == 1 && |cfg.fifo| == 1 && Guarded(cfg, 0)
    requires Most(cfg, 0, 0) <= 1 && 0 <= Budget(cfg.sources[0]) <= cfg.fifo[0]
    ensures NeverDrops(cfg, 0)
  {
    AtMostOnce(Most(cfg, 0, 0), Budget(cfg.sources[0]));
    assert TotalBudget(cfg, 0, 0) == 0;
    var total := TotalBudget(cfg, 0, |cfg.sources|);
    assert total == TotalBudget(cfg, 0, 0) + Most(cfg, 0, 0) * Budget(cfg.sources[0]);
    NoLossExactly(cfg, 0);
  }

  lemma {:induction false} AtMostOnce(m: nat, b: int)
    requires m <= 1 && b >= 0
    ensures 0 <= m * b <= b
  {
  }
}
