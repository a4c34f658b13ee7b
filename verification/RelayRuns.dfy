/** Two daemons in a row, end to end: what one of them routes to a writer, in any
    run, comes out of the reader at the other end, however the bytes arrive. */
module RelayRuns {
  import opened Octets
  import opened Framing
  import opened Routing
  import opened Pipeline
  import opened Delivery
  import opened Reading
  import opened ReaderTurns
  import opened Wire
  import opened RelayStream
  import NoLoss
  import NoLossExact
  import W = Writers

  // ---------------------------------------------------------------------
  // Frames of a beginning
  // ---------------------------------------------------------------------

  lemma {:induction false} PrefixFrames(a: Octets, s: Octets, cap: nat)
    requires cap >= 1 && a <= s
    ensures Frames(a, cap).frames <= Frames(s, cap).frames
  {
    CutAnywhere(a, s[|a|..], cap);
    assert a + s[|a|..] == s;
  }

  /** What a reader has handed on of the stream of `ms`, after a beginning of it
      or all of it. */
  lemma {:induction false} ReadComesBack(
    s: Setup, st: State, ms: seq<Outgoing>, all: Octets, opt: Options, bad: Octets -> bool)
    requires Ready(s, st) && all == Concat(LinesOf(ms)) && Stream(st) <= all && NUL !in all
    requires AllRelayable(ms, opt, bad) && AllFit(ms, s.msgSize)
    ensures |st.out| <= |ms| && forall i :: 0 <= i < |st.out| ==> Returns(st.out[i], ms[i], opt, bad)
    ensures Stream(st) == all && AllRead(st) ==> |st.out| == |ms| && st.buf == []
  {
    RelayPreserves(ms, s.msgSize, opt, bad);
    NulFreeWithin(st, all);
    assert st.eaten <= all;
    PrefixFrames(st.eaten, all, s.msgSize);
    if Stream(st) == all && AllRead(st) {
      Drained(s, st);
      assert st.buf + [] == st.buf && Read(st) == all;
    }
  }

  lemma {:induction false} NulFreeWithin(st: State, all: Octets)
    requires Stream(st) <= all && NUL !in all
    ensures NulFree(st) && st.eaten <= all
  {
    var t := Stream(st);
    assert forall i :: 0 <= i < |t| ==> t[i] == all[i];
    StreamNulFree(st);
    assert st.eaten == t[..|st.eaten|];
  }

  // ---------------------------------------------------------------------
  // The writer at this end
  // ---------------------------------------------------------------------

  /** The line of a message that can be relayed to a reader with a buffer of `cap`
      bytes. */
  ghost predicate IsRelayLine(line: Octets, cap: nat, opt: Options, bad: Octets -> bool) {
    NUL !in line && |line| <= cap + 1 && exists m :: line == LineOf(m) && Relayable(m, opt, bad)
  }

  ghost predicate AreRelayLines(lines: seq<Octets>, cap: nat, opt: Options, bad: Octets -> bool) {
    forall k :: 0 <= k < |lines| ==> IsRelayLine(lines[k], cap, opt, bad)
  }

  ghost predicate AreRelayCopies(copies: seq<Copy>, cap: nat, opt: Options, bad: Octets -> bool) {
    forall k :: 0 <= k < |copies| ==> IsRelayLine(copies[k].line, cap, opt, bad)
  }

  /** Writer `w` writes messages that can be relayed. */
  ghost predicate RelaysAt(cfg: Config, w: nat, cap: nat, opt: Options, bad: Octets -> bool) {
    forall src, input :: cfg.possible(src, input) ==> IsRelayLine(cfg.format(w, src, input), cap, opt, bad)
  }

  lemma {:induction false} MessagesOf(lines: seq<Octets>, cap: nat, opt: Options, bad: Octets -> bool)
    returns (ms: seq<Outgoing>)
    requires AreRelayLines(lines, cap, opt, bad)
    ensures lines == LinesOf(ms) && NUL !in Concat(lines)
    ensures AllRelayable(ms, opt, bad) && AllFit(ms, cap)
  {
    ms := [];
    if lines != [] {
      assert IsRelayLine(lines[0], cap, opt, bad);
      var m :| lines[0] == LineOf(m) && Relayable(m, opt, bad);
      var more := MessagesOf(lines[1..], cap, opt, bad);
      ms := [m] + more;
      assert ms[1..] == more;
    }
  }

  lemma {:induction false} OfferedByIsRelayed(
    cfg: Config, p: Parcel, ws: seq<nat>, flow: bool, w: nat, cap: nat, opt: Options, bad: Octets -> bool)
    requires IsRelayLine(LineFor(cfg, p, w), cap, opt, bad)
    ensures AreRelayCopies(OfferedBy(cfg, p, ws, flow, w), cap, opt, bad)
  {
    if ws != [] {
      OfferedByIsRelayed(cfg, p, ws[..|ws| - 1], flow, w, cap, opt, bad);
    }
  }

  lemma {:induction false} OfferedOverIsRelayed(
    cfg: Config, p: Parcel, routes: seq<Route>, w: nat, cap: nat, opt: Options, bad: Octets -> bool)
    requires RoutesOk(cfg, routes) && IsRelayLine(LineFor(cfg, p, w), cap, opt, bad)
    ensures AreRelayCopies(OfferedOver(cfg, p, routes, w), cap, opt, bad)
  {
    if routes != [] {
      var last := routes[|routes| - 1];
      OfferedOverIsRelayed(cfg, p, routes[..|routes| - 1], w, cap, opt, bad);
      OfferedByIsRelayed(cfg, p, cfg.groups[last.group], last.flow, w, cap, opt, bad);
    }
  }

  lemma {:induction false} OfferedByAllIsRelayed(
    cfg: Config, src: nat, inputs: seq<Input>, w: nat, cap: nat, opt: Options, bad: Octets -> bool)
    requires ConfigOk(cfg) && src < |cfg.sources|
    requires RelaysAt(cfg, w, cap, opt, bad) && AllPossible(cfg, src, inputs)
    ensures AreRelayCopies(OfferedByAll(cfg, src, inputs, w), cap, opt, bad)
  {
    if inputs != [] {
      var last, before := inputs[|inputs| - 1], inputs[..|inputs| - 1];
      OfferedByAllIsRelayed(cfg, src, before, w, cap, opt, bad);
      assert cfg.possible(src, last);
      OfferedOverIsRelayed(cfg, Parcel(0, src, last), RoutesFor(cfg, src, last), w, cap, opt, bad);
    }
  }

  lemma {:induction false} OfferedIsRelayed(
    cfg: Config, run: seq<Event>, w: nat, cap: nat, opt: Options, bad: Octets -> bool)
    requires ConfigOk(cfg) && IsRun(cfg, run) && RelaysAt(cfg, w, cap, opt, bad)
    ensures AreRelayCopies(Offered(cfg, run, w), cap, opt, bad)
  {
    if run != [] {
      var last, before := run[|run| - 1], run[..|run| - 1];
      OfferedIsRelayed(cfg, before, w, cap, opt, bad);
      if last.Dispatch? {
        OfferedByAllIsRelayed(cfg, last.src, last.inputs, w, cap, opt, bad);
      }
    }
  }

  // ---------------------------------------------------------------------
  // From one daemon to the other
  // ---------------------------------------------------------------------

  /** Everything that was routed to the writer has been written, and has arrived. */
  predicate AllWritten(st: W.State, arrived: Octets) {
    st.queue == [] && !st.partial.Partial? && arrived == st.sent
  }

  /** A guarded writer with a queue that holds the budgets, and any reader of what
      it has sent so far: whatever run of the pipeline and whatever order of
      arrivals and dispatches, the messages the reader has handed on parse back, one
      by one, into the first of the messages routed to the writer; and when all is
      written, arrived and read, they are all of them. */
  lemma {:induction false} RelayEndToEnd(
    cfg: Config, run: seq<Event>, w: nat, s: Setup, window: int, turns: seq<Turn>, opt: Options, bad: Octets -> bool)
    returns (ms: seq<Outgoing>)
    requires ConfigOk(cfg) && IsRun(cfg, run) && w < |cfg.fifo| && NoLoss.Guarded(cfg, w)
    requires cfg.fifo[w] >= NoLoss.TotalBudget(cfg, w, |cfg.sources|)
    requires s.msgSize >= 1 && s.fetchLimit >= 1 && RelaysAt(cfg, w, s.msgSize, opt, bad)
    requires Arrived(turns) <= After(cfg, run).writers[w].sent
    ensures LinesOf(ms) == TextOf(Offered(cfg, run, w))
    ensures var r := AfterTurns(s, window, turns);
      |r.out| <= |ms| && forall i :: 0 <= i < |r.out| ==> Returns(r.out[i], ms[i], opt, bad)
    ensures var r := AfterTurns(s, window, turns);
      AllWritten(After(cfg, run).writers[w], Arrived(turns)) && AllRead(r) ==> |r.out| == |ms| && r.buf == []
  {
    OfferedIsRelayed(cfg, run, w, s.msgSize, opt, bad);
    ms := MessagesOf(TextOf(Offered(cfg, run, w)), s.msgSize, opt, bad);
    NoLossExact.NothingLost(cfg, run, w);
    TurnsKeepReady(s, window, turns);
    var st, all := After(cfg, run).writers[w], Concat(TextOf(Offered(cfg, run, w)));
    SentIsBeginning(st, all, Arrived(turns));
    ReadComesBack(s, AfterTurns(s, window, turns), ms, all, opt, bad);
  }

  lemma {:induction false} SentIsBeginning(st: W.State, all: Octets, arrived: Octets)
    requires st.partial.Partial? ==> st.partial.pos < |st.partial.line|
    requires st.sent + W.Tail(st.partial) + W.Lines(st.queue) == all && arrived <= st.sent
    ensures arrived <= all && (AllWritten(st, arrived) ==> arrived == all)
  {
  }
}
