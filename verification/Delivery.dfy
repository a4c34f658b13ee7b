/** What reaches a writer: every delivery of a run is either queued, in order,
    or counted as dropped, and what is queued comes out unchanged. */
module Delivery {
  import opened Octets
  import opened Routing
  import opened Pipeline
  import W = Writers

  // ---------------------------------------------------------------------
  // What a run offers to a writer
  // ---------------------------------------------------------------------

  /** A copy of a message as a writer gets it: its line, and whether the route it
      came over is flow controlled. */
  datatype Copy = Copy(line: Octets, flow: bool)

  /** The copies that a walk over `ws` offers to writer `w`. */
  function OfferedBy(cfg: Config, p: Parcel, ws: seq<nat>, flow: bool, w: nat): seq<Copy> {
    if ws == [] then []
    else
      OfferedBy(cfg, p, ws[..|ws| - 1], flow, w)
        + if ws[|ws| - 1] == w then [Copy(LineFor(cfg, p, w), flow)] else []
  }

  /** The copies that a list of routes offers to writer `w`. */
  function OfferedOver(cfg: Config, p: Parcel, routes: seq<Route>, w: nat): seq<Copy>
    requires RoutesOk(cfg, routes)
  {
    if routes == [] then []
    else
      var last := routes[|routes| - 1];
      OfferedOver(cfg, p, routes[..|routes| - 1], w) + OfferedBy(cfg, p, cfg.groups[last.group], last.flow, w)
  }

  /** The writers that a list of routes reaches, in order. */
  function WritersOf(cfg: Config, routes: seq<Route>): seq<nat>
    requires RoutesOk(cfg, routes)
  {
    if routes == [] then []
    else WritersOf(cfg, routes[..|routes| - 1]) + cfg.groups[routes[|routes| - 1].group]
  }

  /** The writers a message of source `src` is delivered to. */
  function Reached(cfg: Config, src: nat, input: Input): seq<nat>
    requires ConfigOk(cfg) && src < |cfg.sources|
  {
    WritersOf(cfg, RoutesFor(cfg, src, input))
  }

  function OfferedByAll(cfg: Config, src: nat, inputs: seq<Input>, w: nat): seq<Copy>
    requires ConfigOk(cfg) && src < |cfg.sources|
  {
    if inputs == [] then []
    else
      var last := inputs[|inputs| - 1];
      OfferedByAll(cfg, src, inputs[..|inputs| - 1], w)
        + OfferedOver(cfg, Parcel(0, src, last), RoutesFor(cfg, src, last), w)
  }

  /** The copies a whole run offers to writer `w`, oldest first. */
  ghost function Offered(cfg: Config, run: seq<Event>, w: nat): seq<Copy>
    requires ConfigOk(cfg) && IsRun(cfg, run)
  {
    if run == [] then []
    else
      var last := run[|run| - 1];
      Offered(cfg, run[..|run| - 1], w) +
        if last.Dispatch? then OfferedByAll(cfg, last.src, last.inputs, w) else []
  }

  lemma {:induction false} OfferedSameLines(cfg: Config, p: Parcel, q: Parcel, ws: seq<nat>, flow: bool, w: nat)
    requires p.src == q.src && p.input == q.input
    ensures OfferedBy(cfg, p, ws, flow, w) == OfferedBy(cfg, q, ws, flow, w)
  {
    if ws != [] {
      OfferedSameLines(cfg, p, q, ws[..|ws| - 1], flow, w);
    }
  }

  lemma {:induction false} OfferedSameCopies(cfg: Config, p: Parcel, q: Parcel, routes: seq<Route>, w: nat)
    requires RoutesOk(cfg, routes) && p.src == q.src && p.input == q.input
    ensures OfferedOver(cfg, p, routes, w) == OfferedOver(cfg, q, routes, w)
  {
    if routes != [] {
      var last := routes[|routes| - 1];
      OfferedSameCopies(cfg, p, q, routes[..|routes| - 1], w);
      OfferedSameLines(cfg, p, q, cfg.groups[last.group], last.flow, w);
    }
  }

  // ---------------------------------------------------------------------
  // Who is offered what
  // ---------------------------------------------------------------------

  lemma {:induction false} OfferedByMember(cfg: Config, p: Parcel, ws: seq<nat>, flow: bool, w: nat)
    ensures w in ws ==> Copy(LineFor(cfg, p, w), flow) in OfferedBy(cfg, p, ws, flow, w)
    ensures forall c :: c in OfferedBy(cfg, p, ws, flow, w) ==> w in ws && c == Copy(LineFor(cfg, p, w), flow)
  {
    if ws != [] {
      OfferedByMember(cfg, p, ws[..|ws| - 1], flow, w);
    }
  }

  lemma {:induction false} OfferedOverMember(cfg: Config, p: Parcel, routes: seq<Route>, w: nat, r: Route)
    requires RoutesOk(cfg, routes) && r in routes && w in cfg.groups[r.group]
    ensures Copy(LineFor(cfg, p, w), r.flow) in OfferedOver(cfg, p, routes, w)
  {
    var last := routes[|routes| - 1];
    if r == last {
      OfferedByMember(cfg, p, cfg.groups[last.group], last.flow, w);
    } else {
      OfferedOverMember(cfg, p, routes[..|routes| - 1], w, r);
    }
  }

  lemma {:induction false} OfferedOverOrigin(cfg: Config, p: Parcel, routes: seq<Route>, w: nat, c: Copy)
    returns (r: Route)
    requires RoutesOk(cfg, routes) && c in OfferedOver(cfg, p, routes, w)
    ensures r in routes && r.group < |cfg.groups| && w in cfg.groups[r.group] && c == Copy(LineFor(cfg, p, w), r.flow)
  {
    var last := routes[|routes| - 1];
    OfferedByMember(cfg, p, cfg.groups[last.group], last.flow, w);
    if c in OfferedBy(cfg, p, cfg.groups[last.group], last.flow, w) {
      r := last;
    } else {
      r := OfferedOverOrigin(cfg, p, routes[..|routes| - 1], w, c);
    }
  }

  /** A log statement takes a message: its sources include the message's source, and
      its filters accept it. */
  ghost predicate Takes(cfg: Config, src: nat, input: Input, i: nat)
    requires src < |cfg.sources| && i < |cfg.conns|
  {
    && (cfg.conns[i].catchall || cfg.sources[src].name in cfg.conns[i].sources)
    && forall k :: 0 <= k < |cfg.conns[i].filters| ==> cfg.conns[i].filters[k] in cfg.accepts(src, input)
  }

  lemma {:induction false} TakesMatches(cfg: Config, src: nat, input: Input, i: nat)
    requires src < |cfg.sources| && i < |cfg.conns|
    ensures Takes(cfg, src, input, i) <==>
      Matches(cfg.conns[i], Facts(cfg.sources[src].name, cfg.accepts(src, input)))
  {
  }

  /** A writer in a destination of a statement that takes the message is offered a
      copy with its line and the statement's flow control, unless a final statement
      of that kind that takes the message comes before, or the statement is a
      fallback and another one takes the message. */
  lemma {:induction false} CopyIsOffered(cfg: Config, src: nat, input: Input, i: nat, k: nat, w: nat)
    requires ConfigOk(cfg) && src < |cfg.sources| && i < |cfg.conns| && k < |cfg.conns[i].dests|
    requires w in cfg.groups[cfg.conns[i].dests[k]] && Takes(cfg, src, input, i)
    requires forall j :: 0 <= j < i && Takes(cfg, src, input, j) && cfg.conns[j].final ==>
      cfg.conns[j].fallback != cfg.conns[i].fallback
    requires !cfg.conns[i].fallback ||
      forall j :: 0 <= j < |cfg.conns| && !cfg.conns[j].fallback ==> !Takes(cfg, src, input, j)
    ensures Copy(cfg.format(w, src, input), cfg.conns[i].flow) in OfferedByAll(cfg, src, [input], w)
  {
    var f := Facts(cfg.sources[src].name, cfg.accepts(src, input));
    forall j | 0 <= j < |cfg.conns| ensures Takes(cfg, src, input, j) <==> Matches(cfg.conns[j], f) {
      TakesMatches(cfg, src, input, j);
    }
    DestinationIsRouted(cfg.conns, f, i, k);
    var r := Route(cfg.conns[i].dests[k], cfg.conns[i].flow);
    OfferedOverMember(cfg, Parcel(0, src, input), RoutesFor(cfg, src, input), w, r);
    assert [input][..0] == [];
  }

  /** And it is offered nothing else. */
  lemma {:induction false} OfferedHasOrigin(cfg: Config, src: nat, input: Input, w: nat, c: Copy)
    returns (i: nat, k: nat)
    requires ConfigOk(cfg) && src < |cfg.sources| && c in OfferedByAll(cfg, src, [input], w)
    ensures i < |cfg.conns| && k < |cfg.conns[i].dests| && w in cfg.groups[cfg.conns[i].dests[k]]
    ensures Takes(cfg, src, input, i) && c == Copy(cfg.format(w, src, input), cfg.conns[i].flow)
  {
    var f := Facts(cfg.sources[src].name, cfg.accepts(src, input));
    assert [input][..0] == [] && c in OfferedOver(cfg, Parcel(0, src, input), RoutesFor(cfg, src, input), w);
    var r := OfferedOverOrigin(cfg, Parcel(0, src, input), RoutesFor(cfg, src, input), w, c);
    i, k := RouteHasOrigin(cfg.conns, f, |cfg.conns|, r);
    TakesMatches(cfg, src, input, i);
  }

  // ---------------------------------------------------------------------
  // The tally of one writer
  // ---------------------------------------------------------------------

  function CopiesIn(entries: seq<W.Entry>): seq<Copy> {
    seq(|entries|, k requires 0 <= k < |entries| => Copy(entries[k].line, entries[k].flow))
  }

  function TextOf(copies: seq<Copy>): seq<Octets> {
    seq(|copies|, k requires 0 <= k < |copies| => copies[k].line)
  }

  /** `st` accepted or dropped all of `offered`; without drops, it accepted
      exactly `offered`. */
  ghost predicate Tally(st: W.State, offered: seq<Copy>) {
    && |st.accepted| + st.dropped == |offered|
    && (st.dropped == 0 ==> CopiesIn(st.accepted) == offered)
  }

  lemma {:induction false} QueueTallies(st: W.State, fifoSize: nat, e: W.Entry, offered: seq<Copy>)
    requires Tally(st, offered)
    ensures Tally(W.AfterQueue(st, fifoSize, e), offered + [Copy(e.line, e.flow)])
  {
    assert CopiesIn(st.accepted + [e]) == CopiesIn(st.accepted) + [Copy(e.line, e.flow)];
  }

  lemma {:induction false} DriverWriters(cfg: Config, net: Net, p: Parcel, w: nat, flow: bool)
    requires Shape(cfg, net) && w < |cfg.fifo| && p.id < |net.msgs|
    ensures ToDriver(cfg, net, p, w, flow).writers
      == net.writers[w := W.AfterQueue(net.writers[w], cfg.fifo[w], W.Entry(p.id, flow, LineFor(cfg, p, w)))]
  {
  }

  lemma {:induction false} DriversTally(
    cfg: Config, net: Net, p: Parcel, ws: seq<nat>, flow: bool, w: nat, offered: seq<Copy>)
    requires Shape(cfg, net) && p.id < |net.msgs| && w < |cfg.fifo|
    requires forall k :: 0 <= k < |ws| ==> ws[k] < |cfg.fifo|
    requires Tally(net.writers[w], offered)
    ensures Tally(ToDrivers(cfg, net, p, ws, flow).writers[w], offered + OfferedBy(cfg, p, ws, flow, w))
  {
    if ws == [] {
      assert offered + [] == offered;
    } else {
      var before := ws[..|ws| - 1];
      var last := ws[|ws| - 1];
      DriversTally(cfg, net, p, before, flow, w, offered);
      var mid := ToDrivers(cfg, net, p, before, flow);
      DriverWriters(cfg, mid, p, last, flow);
      var sofar := offered + OfferedBy(cfg, p, before, flow, w);
      if last == w {
        QueueTallies(mid.writers[w], cfg.fifo[w], W.Entry(p.id, flow, LineFor(cfg, p, w)), sofar);
        assert sofar + [Copy(LineFor(cfg, p, w), flow)] == offered + OfferedBy(cfg, p, ws, flow, w);
      } else {
        assert sofar == offered + OfferedBy(cfg, p, ws, flow, w);
      }
    }
  }

  lemma {:induction false} GroupTallies(
    cfg: Config, net: Net, p: Parcel, ws: seq<nat>, flow: bool, w: nat, offered: seq<Copy>)
    requires Shape(cfg, net) && p.id < |net.msgs| && w < |cfg.fifo|
    requires forall k :: 0 <= k < |ws| ==> ws[k] < |cfg.fifo|
    requires Tally(net.writers[w], offered)
    ensures Tally(ToGroup(cfg, net, p, ws, flow).writers[w], offered + OfferedBy(cfg, p, ws, flow, w))
  {
    DriversTally(cfg, GroupEntered(cfg, net, p.id, flow), p, ws, flow, w, offered);
  }

  lemma {:induction false} RouteTallies(cfg: Config, net: Net, p: Parcel, r: Route, w: nat, offered: seq<Copy>)
    requires ConfigOk(cfg) && Shape(cfg, net) && p.id < |net.msgs| && w < |cfg.fifo| && r.group < |cfg.groups|
    requires Tally(net.writers[w], offered)
    ensures Tally(ToRoute(cfg, net, p, r).writers[w], offered + OfferedBy(cfg, p, cfg.groups[r.group], r.flow, w))
  {
    GroupTallies(cfg, Handed(cfg, net, p.id, r.flow), p, cfg.groups[r.group], r.flow, w, offered);
  }

  lemma {:induction false} RoutesTally(
    cfg: Config, net: Net, p: Parcel, routes: seq<Route>, w: nat, offered: seq<Copy>)
    requires ConfigOk(cfg) && Shape(cfg, net) && p.id < |net.msgs| && w < |cfg.fifo| && RoutesOk(cfg, routes)
    requires Tally(net.writers[w], offered)
    ensures Tally(ToRoutes(cfg, net, p, routes).writers[w], offered + OfferedOver(cfg, p, routes, w))
  {
    if routes == [] {
      assert offered + [] == offered;
    } else {
      var before := routes[..|routes| - 1];
      var last := routes[|routes| - 1];
      RoutesTally(cfg, net, p, before, w, offered);
      var first := OfferedOver(cfg, p, before, w);
      RouteTallies(cfg, ToRoutes(cfg, net, p, before), p, last, w, offered + first);
      Regroup(offered, first, OfferedBy(cfg, p, cfg.groups[last.group], last.flow, w));
    }
  }

  lemma {:induction false} EmitTallies(cfg: Config, net: Net, src: nat, input: Input, w: nat, offered: seq<Copy>)
    requires ConfigOk(cfg) && Shape(cfg, net) && src < |cfg.sources| && w < |cfg.fifo|
    requires Tally(net.writers[w], offered)
    ensures Tally(Emit(cfg, net, src, input).writers[w],
                  offered + OfferedOver(cfg, Parcel(0, src, input), RoutesFor(cfg, src, input), w))
  {
    var p := Parcel(|net.msgs|, src, input);
    RoutesTally(cfg, Entered(cfg, net, src), p, RoutesFor(cfg, src, input), w, offered);
    OfferedSameCopies(cfg, p, Parcel(0, src, input), RoutesFor(cfg, src, input), w);
  }

  lemma {:induction false} EmitAllTallies(
    cfg: Config, net: Net, src: nat, inputs: seq<Input>, w: nat, offered: seq<Copy>)
    requires ConfigOk(cfg) && Shape(cfg, net) && src < |cfg.sources| && w < |cfg.fifo|
    requires Tally(net.writers[w], offered)
    ensures Tally(EmitAll(cfg, net, src, inputs).writers[w], offered + OfferedByAll(cfg, src, inputs, w))
  {
    if inputs == [] {
      assert offered + [] == offered;
    } else {
      var before := inputs[..|inputs| - 1];
      var last := inputs[|inputs| - 1];
      EmitAllTallies(cfg, net, src, before, w, offered);
      var first := OfferedByAll(cfg, src, before, w);
      EmitTallies(cfg, EmitAll(cfg, net, src, before), src, last, w, offered + first);
      Regroup(offered, first, OfferedOver(cfg, Parcel(0, src, last), RoutesFor(cfg, src, last), w));
    }
  }

  lemma {:induction false} SettleWriters(cfg: Config, net: Net, popped: seq<W.Entry>)
    requires Shape(cfg, net)
    requires forall k :: 0 <= k < |popped| ==> popped[k].id < |net.msgs|
    ensures Settle(cfg, net, popped).writers == net.writers
    decreases |popped|
  {
    if popped != [] {
      SettleWriters(cfg, SettleOne(cfg, net, popped[0]), popped[1..]);
    }
  }

  lemma {:induction false} FlushTallies(cfg: Config, net: Net, w': nat, io: seq<W.Io>, w: nat, offered: seq<Copy>)
    requires Shape(cfg, net) && w' < |cfg.fifo| && w < |cfg.fifo|
    requires Tally(net.writers[w], offered)
    ensures Tally(FlushWriter(cfg, net, w', io).writers[w], offered)
  {
    var st := net.writers[w'];
    var after := W.AfterFlush(st, io);
    W.FlushKeepsValid(st, io);
    W.FlushPopsHead(st, io);
    SettleWriters(cfg, WithWriter(cfg, net, w', after), W.Popped(st, after));
  }

  lemma {:induction false} StepTallies(cfg: Config, net: Net, ev: Event, w: nat, offered: seq<Copy>)
    requires ConfigOk(cfg) && Shape(cfg, net) && Enabled(cfg, net, ev) && w < |cfg.fifo|
    requires Tally(net.writers[w], offered)
    ensures Tally(Step(cfg, net, ev).writers[w],
                  offered + if ev.Dispatch? then OfferedByAll(cfg, ev.src, ev.inputs, w) else [])
  {
    assert offered + [] == offered;
    match ev {
      case Dispatch(src, inputs) => EmitAllTallies(cfg, net, src, inputs, w, offered);
      case Flush(w', io) => FlushTallies(cfg, net, w', io, w, offered);
      case Broken(_) =>
      case Reopen(_, _) =>
    }
  }

  /** In every run every delivery to a writer is either accepted or counted as
      dropped, and without drops the accepted copies are the offered ones, each with
      the flow control of its route. */
  lemma {:induction false} RunTallies(cfg: Config, run: seq<Event>, w: nat)
    requires ConfigOk(cfg) && IsRun(cfg, run) && w < |cfg.fifo|
    ensures Tally(After(cfg, run).writers[w], Offered(cfg, run, w))
  {
    if run == [] {
      assert After(cfg, run).writers[w] == W.FRESH;
    } else {
      var before := run[..|run| - 1];
      RunTallies(cfg, before, w);
      StepTallies(cfg, After(cfg, before), run[|run| - 1], w, Offered(cfg, before, w));
    }
  }

  lemma {:induction false} LinesOfText(entries: seq<W.Entry>)
    ensures W.Lines(entries) == Concat(TextOf(CopiesIn(entries)))
  {
    if entries != [] {
      assert TextOf(CopiesIn(entries))[1..] == TextOf(CopiesIn(entries[1..]));
      LinesOfText(entries[1..]);
    }
  }

  /** End to end: as long as a writer has dropped nothing, the bytes it has
      written, then the rest of its partial line, then its queued lines are the
      lines of all the messages routed to it, in the order of emission; across
      short writes, refusals, errors and replaced descriptors. */
  lemma {:induction false} StreamIsOffered(cfg: Config, run: seq<Event>, w: nat)
    requires ConfigOk(cfg) && IsRun(cfg, run) && w < |cfg.fifo|
    requires After(cfg, run).writers[w].dropped == 0
    ensures var st := After(cfg, run).writers[w];
      && (st.partial.Partial? ==> st.partial.pos < |st.partial.line|)
      && st.sent + W.Tail(st.partial) + W.Lines(st.queue) == Concat(TextOf(Offered(cfg, run, w)))
  {
    RunTallies(cfg, run, w);
    var st := After(cfg, run).writers[w];
    W.StreamConserved(st);
    LinesOfText(st.accepted);
  }
}
