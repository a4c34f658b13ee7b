/** Every run of the pipeline's state machine is a run of readers: the dispatches
    it lets happen are dispatches that a reader does when the right lines come
    and the acknowledgements are those of the run. */
module ReaderRuns {
  import opened Octets
  import opened Framing
  import opened Pipeline
  import opened NoLoss
  import opened NoLossExact
  import opened WindowFloor
  import opened Reading
  import opened EndOfStream

  // ---------------------------------------------------------------------
  // One dispatch
  // ---------------------------------------------------------------------

  /** The window of the source when `k` messages of a dispatch have been emitted. */
  function WindowAt(cfg: Config, net: Net, src: nat, inputs: seq<Input>, k: nat): int
    requires ConfigOk(cfg) && Shape(cfg, net) && src < |cfg.sources| && k <= |inputs|
  {
    EmitAll(cfg, net, src, inputs[..k]).windows[src]
  }

  lemma {:induction false} WindowStep(cfg: Config, net: Net, src: nat, inputs: seq<Input>, k: nat)
    requires ConfigOk(cfg) && Shape(cfg, net) && src < |cfg.sources| && k < |inputs|
    ensures WindowAt(cfg, net, src, inputs, k + 1) >= WindowAt(cfg, net, src, inputs, k) - 1
    ensures Gate(cfg, net, src, inputs)[k] == WindowAt(cfg, net, src, inputs, k)
  {
    assert inputs[..k + 1][..k] == inputs[..k];
    EmitClosesOne(cfg, EmitAll(cfg, net, src, inputs[..k]), src, inputs[k], src);
    GatePrefix(cfg, net, src, inputs, k + 1);
    assert Gate(cfg, net, src, inputs)[..k + 1][k] == Gate(cfg, net, src, inputs)[k];
  }

  /** The acknowledgements that arrive while message `k` is handed on. */
  function Arrived(cfg: Config, net: Net, src: nat, inputs: seq<Input>, k: nat): nat
    requires ConfigOk(cfg) && Shape(cfg, net) && src < |cfg.sources| && k < |inputs|
  {
    WindowStep(cfg, net, src, inputs, k);
    WindowAt(cfg, net, src, inputs, k + 1) - WindowAt(cfg, net, src, inputs, k) + 1
  }

  function Arrivals(cfg: Config, net: Net, src: nat, inputs: seq<Input>): (acks: seq<nat>)
    requires ConfigOk(cfg) && Shape(cfg, net) && src < |cfg.sources|
    ensures |acks| == |inputs|
  {
    seq(|inputs|, k requires 0 <= k < |inputs| => Arrived(cfg, net, src, inputs, k))
  }

  /** All the windows of a dispatch, the last one included. */
  function Windows(cfg: Config, net: Net, src: nat, inputs: seq<Input>): (ws: seq<int>)
    requires ConfigOk(cfg) && Shape(cfg, net) && src < |cfg.sources|
    ensures |ws| == |inputs| + 1
  {
    seq(|inputs| + 1, k requires 0 <= k <= |inputs| => WindowAt(cfg, net, src, inputs, k))
  }

  lemma {:induction false} WindowsMean(cfg: Config, net: Net, src: nat, inputs: seq<Input>)
    requires ConfigOk(cfg) && Shape(cfg, net) && src < |cfg.sources|
    ensures var ws := Windows(cfg, net, src, inputs);
      && ws[0] == net.windows[src] && ws[|inputs|] == EmitAll(cfg, net, src, inputs).windows[src]
      && ws[..|inputs|] == Gate(cfg, net, src, inputs)
  {
    var ws := Windows(cfg, net, src, inputs);
    forall k | 0 <= k < |inputs| ensures Gate(cfg, net, src, inputs)[k] == ws[k] {
      WindowStep(cfg, net, src, inputs, k);
    }
    assert inputs[..0] == [];
    assert inputs[..|inputs|] == inputs;
  }

  lemma {:induction false} WindowsRise(cfg: Config, net: Net, src: nat, inputs: seq<Input>, k: nat)
    requires ConfigOk(cfg) && Shape(cfg, net) && src < |cfg.sources| && k < |inputs|
    ensures var ws := Windows(cfg, net, src, inputs);
      ws[k + 1] == ws[k] - 1 + Arrivals(cfg, net, src, inputs)[k]
  {
  }

  /** The reader of a source. */
  predicate ReaderOf(cfg: Config, src: nat, s: Setup) {
    src < |cfg.sources| && s.fetchLimit == cfg.sources[src].fetchLimit && s.singleRead == cfg.sources[src].singleRead
  }

  /** The acknowledgements from message number `n` on. */
  ghost predicate SeesFrom(s: Setup, n: nat, acks: seq<nat>) {
    forall k :: 0 <= k < |acks| ==> s.acks(n + k) == acks[k]
  }

  lemma {:induction false} RisesThrough(s: Setup, st: State, ws: seq<int>, acks: seq<nat>)
    requires |ws| == |acks| + 1 && ws[0] == st.window && SeesFrom(s, |st.out|, acks)
    requires forall k :: 0 <= k < |acks| ==> ws[k + 1] == ws[k] - 1 + acks[k]
    ensures Through(s, st, ws, |acks|)
  {
  }

  lemma {:induction false} GoesThrough(cfg: Config, net: Net, src: nat, inputs: seq<Input>, s: Setup, st: State)
    requires ConfigOk(cfg) && Shape(cfg, net) && src < |cfg.sources| && st.window == net.windows[src]
    requires SeesFrom(s, |st.out|, Arrivals(cfg, net, src, inputs))
    ensures Through(s, st, Windows(cfg, net, src, inputs), |inputs|)
  {
    var ws, acks := Windows(cfg, net, src, inputs), Arrivals(cfg, net, src, inputs);
    WindowsMean(cfg, net, src, inputs);
    forall k | 0 <= k < |acks| ensures ws[k + 1] == ws[k] - 1 + acks[k] {
      WindowsRise(cfg, net, src, inputs, k);
    }
    RisesThrough(s, st, ws, acks);
  }

  /** A dispatch that is enabled is done by a reader that has the same window, an
      empty buffer and the right lines before it. */
  lemma {:induction false} DispatchIsReached(
    cfg: Config, net: Net, src: nat, inputs: seq<Input>, s: Setup, st: State, lines: seq<Octets>, rest: Octets)
    requires ConfigOk(cfg) && Shape(cfg, net) && Enabled(cfg, net, Dispatch(src, inputs)) && ReaderOf(cfg, src, s)
    requires |lines| == |inputs| && AreTexts(lines) && Fits(s, lines)
    requires st.buf == [] && !st.complete && st.ahead == Joined(lines) + rest && st.window == net.windows[src]
    requires SeesFrom(s, |st.out|, Arrivals(cfg, net, src, inputs))
    ensures Dispatched(s, st, Reads(s, lines)) == Going(State(
      [], false, rest, EmitAll(cfg, net, src, inputs).windows[src], st.eaten + Joined(lines),
      st.out + Trimmed(lines), Gate(cfg, net, src, inputs)))
  {
    var ws := Windows(cfg, net, src, inputs);
    WindowsMean(cfg, net, src, inputs);
    GoesThrough(cfg, net, src, inputs, s, st);
    GateIsReached(s, st, lines, rest, ws);
  }

  // ---------------------------------------------------------------------
  // A whole run
  // ---------------------------------------------------------------------

  function Texts(inputs: seq<Input>): seq<Octets> {
    seq(|inputs|, k requires 0 <= k < |inputs| => inputs[k].text)
  }

  /** What a source can read are lines: without line ending, and not empty. */
  ghost predicate ReadsLinesOnly(cfg: Config, src: nat) {
    forall input :: cfg.possible(src, input) ==> IsText(input.text) && Trim(input.text) == input.text
  }

  /** The messages that source `src` emits in an event. */
  function Emissions(ev: Event, src: nat): seq<Input> {
    if ev.Dispatch? && ev.src == src then ev.inputs else []
  }

  /** The inputs of source `src` in a run, oldest first. */
  function InputsOf(run: seq<Event>, src: nat): seq<Input> {
    if run == [] then [] else InputsOf(run[..|run| - 1], src) + Emissions(run[|run| - 1], src)
  }

  /** The acknowledgements during each message of source `src`. */
  ghost function AcksOf(cfg: Config, run: seq<Event>, src: nat): (acks: seq<nat>)
    requires ConfigOk(cfg) && IsRun(cfg, run) && src < |cfg.sources|
    ensures |acks| == |InputsOf(run, src)|
  {
    if run == [] then []
    else
      var before := run[..|run| - 1];
      AcksOf(cfg, before, src) + Arrivals(cfg, After(cfg, before), src, Emissions(run[|run| - 1], src))
  }

  /** What an event that happens in `net` means for the reader of source `src`.
      Before it the reader's window has moved to that of the source. */
  ghost function ReaderStep(net: Net, ev: Event, src: nat, s: Setup, st: State): State
    requires src < |net.windows|
  {
    var moved := st.(window := net.windows[src]);
    if ev.Dispatch? && ev.src == src then Result(s, Dispatched(s, moved, Reads(s, Texts(ev.inputs)))) else moved
  }

  /** The reader of source `src` after a run, if `stream` is what it reads. */
  ghost function ReaderAfter(cfg: Config, run: seq<Event>, src: nat, s: Setup, stream: Octets): State
    requires ConfigOk(cfg) && IsRun(cfg, run) && src < |cfg.sources|
  {
    if run == [] then Beginning(stream, cfg.sources[src].initWindow)
    else
      var before := run[..|run| - 1];
      ReaderStep(After(cfg, before), run[|run| - 1], src, s, ReaderAfter(cfg, before, src, s, stream))
  }

  ghost predicate FitRun(run: seq<Event>, src: nat, s: Setup) {
    forall i :: 0 <= i < |run| ==> Fits(s, Texts(Emissions(run[i], src)))
  }

  /** The acknowledgements the reader sees are those of the run. */
  ghost predicate SeesAcks(s: Setup, acks: seq<nat>) {
    forall n :: 0 <= n < |acks| ==> s.acks(n) == acks[n]
  }

  lemma {:induction false} JoinedAppend(a: seq<Octets>, b: seq<Octets>)
    ensures Joined(a + b) == Joined(a) + Joined(b)
  {
    if a == [] {
      assert a + b == b;
    } else {
      assert (a + b)[1..] == a[1..] + b;
      JoinedAppend(a[1..], b);
    }
  }

  lemma {:induction false} TextsAppend(a: seq<Input>, b: seq<Input>)
    ensures Texts(a + b) == Texts(a) + Texts(b)
  {
  }

  /** The reader has handed on exactly the messages of the run and waits for
      `rest`. */
  ghost predicate HasRead(st: State, inputs: seq<Input>, rest: Octets) {
    st.buf == [] && !st.complete && st.ahead == rest && st.out == Texts(inputs)
  }

  /** A dispatch of the reader has the windows of the pipeline. */
  ghost predicate SameWindows(cfg: Config, net: Net, ev: Event, src: nat, r: State)
    requires ConfigOk(cfg) && Shape(cfg, net) && src < |cfg.sources|
  {
    ev.Dispatch? && ev.src == src ==>
      && r.gate == Gate(cfg, net, src, ev.inputs)
      && r.window == EmitAll(cfg, net, src, ev.inputs).windows[src]
  }

  lemma {:induction false} PossibleTexts(cfg: Config, src: nat, inputs: seq<Input>)
    requires ReadsLinesOnly(cfg, src) && AllPossible(cfg, src, inputs)
    ensures AreTexts(Texts(inputs)) && Trimmed(Texts(inputs)) == Texts(inputs)
  {
    forall k | 0 <= k < |inputs| ensures IsText(Texts(inputs)[k]) && Trim(Texts(inputs)[k]) == Texts(inputs)[k] {
      assert cfg.possible(src, inputs[k]);
    }
  }

  lemma {:induction false} EventIsReached(
    cfg: Config, net: Net, ev: Event, src: nat, s: Setup, rest: Octets, st: State, earlier: seq<Input>)
    requires ConfigOk(cfg) && Shape(cfg, net) && Enabled(cfg, net, ev) && ReaderOf(cfg, src, s)
    requires ReadsLinesOnly(cfg, src) && Fits(s, Texts(Emissions(ev, src)))
    requires HasRead(st, earlier, Joined(Texts(Emissions(ev, src))) + rest)
    requires SeesFrom(s, |st.out|, Arrivals(cfg, net, src, Emissions(ev, src)))
    ensures var r := ReaderStep(net, ev, src, s, st);
      HasRead(r, earlier + Emissions(ev, src), rest) && SameWindows(cfg, net, ev, src, r)
  {
    if ev.Dispatch? && ev.src == src {
      var lines := Texts(ev.inputs);
      var moved := st.(window := net.windows[src]);
      assert Enabled(cfg, net, Dispatch(src, ev.inputs)) && ev == Dispatch(src, ev.inputs);
      PossibleTexts(cfg, src, ev.inputs);
      DispatchIsReached(cfg, net, src, ev.inputs, s, moved, lines, rest);
      TextsAppend(earlier, ev.inputs);
    } else {
      StreamSplits(earlier, [], rest);
    }
  }

  /** No event but a dispatch of the source itself closes its window, so the
      acknowledgements in between bring the reader's window to the source's. */
  lemma {:induction false} WindowOnlyOpens(cfg: Config, net: Net, ev: Event, src: nat, r: State)
    requires ConfigOk(cfg) && Shape(cfg, net) && Enabled(cfg, net, ev) && src < |cfg.sources|
    requires SameWindows(cfg, net, ev, src, r)
    requires !(ev.Dispatch? && ev.src == src) ==> r.window == net.windows[src]
    ensures r.window <= Step(cfg, net, ev).windows[src]
  {
    match ev {
      case Dispatch(other, inputs) => EmitAllCloses(cfg, net, other, inputs, src);
      case Flush(w, io) => FlushOpens(cfg, net, w, io);
      case Broken(_) =>
      case Reopen(_, _) =>
    }
  }

  /** Every run is reached: given the messages of its source as lines, reads, and
      acknowledgements, a reader goes through the run's dispatches, each with the
      windows the run has; and its window is never above that of the source, so
      that acknowledgements make up the difference. */
  lemma {:induction false} RunIsReached(cfg: Config, run: seq<Event>, src: nat, s: Setup, rest: Octets, stream: Octets)
    requires ConfigOk(cfg) && IsRun(cfg, run) && ReaderOf(cfg, src, s) && SeesAcks(s, AcksOf(cfg, run, src))
    requires ReadsLinesOnly(cfg, src) && FitRun(run, src, s)
    requires stream == Joined(Texts(InputsOf(run, src))) + rest
    ensures var st := ReaderAfter(cfg, run, src, s, stream);
      && HasRead(st, InputsOf(run, src), rest) && st.window <= After(cfg, run).windows[src]
      && (run != [] ==> SameWindows(cfg, After(cfg, run[..|run| - 1]), run[|run| - 1], src, st))
  {
    if run != [] {
      var last, before := run[|run| - 1], run[..|run| - 1];
      var earlier, now := InputsOf(before, src), Emissions(last, src);
      var st := ReaderAfter(cfg, before, src, s, stream);
      StreamSplits(earlier, now, rest);
      SeesBoth(s, AcksOf(cfg, before, src), Arrivals(cfg, After(cfg, before), src, now));
      FitLast(run, src, s);
      RunIsReached(cfg, before, src, s, Joined(Texts(now)) + rest, stream);
      EventIsReached(cfg, After(cfg, before), last, src, s, rest, st, earlier);
      WindowOnlyOpens(cfg, After(cfg, before), last, src, ReaderStep(After(cfg, before), last, src, s, st));
    }
  }

  lemma {:induction false} FitLast(run: seq<Event>, src: nat, s: Setup)
    requires run != [] && FitRun(run, src, s)
    ensures FitRun(run[..|run| - 1], src, s) && Fits(s, Texts(Emissions(run[|run| - 1], src)))
  {
  }

  lemma {:induction false} StreamSplits(a: seq<Input>, b: seq<Input>, rest: Octets)
    ensures Joined(Texts(a + b)) + rest == Joined(Texts(a)) + (Joined(Texts(b)) + rest)
    ensures b == [] ==> a + b == a && Joined(Texts(b)) + rest == rest
  {
    TextsAppend(a, b);
    JoinedAppend(Texts(a), Texts(b));
  }

  lemma {:induction false} SeesBoth(s: Setup, a: seq<nat>, b: seq<nat>)
    requires SeesAcks(s, a + b)
    ensures SeesAcks(s, a) && SeesFrom(s, |a|, b)
  {
    forall k | 0 <= k < |a| ensures s.acks(k) == a[k] {
      assert (a + b)[k] == a[k];
    }
    forall k | 0 <= k < |b| ensures s.acks(|a| + k) == b[k] {
      assert (a + b)[|a| + k] == b[k];
    }
  }

  // ---------------------------------------------------------------------
  // Every run is reached
  // ---------------------------------------------------------------------

  lemma {:induction false} LineInJoined(lines: seq<Octets>, k: nat)
    requires k < |lines|
    ensures |lines[k]| < |Joined(lines)|
  {
    if k > 0 {
      LineInJoined(lines[1..], k - 1);
    }
  }

  /** A buffer size that is enough for a run. */
  lemma {:induction false} RoomFor(run: seq<Event>, src: nat) returns (room: nat)
    ensures room >= 1 && forall s: Setup :: s.msgSize >= room ==> FitRun(run, src, s)
  {
    room := 1;
    if run != [] {
      var before := RoomFor(run[..|run| - 1], src);
      var lines := Texts(Emissions(run[|run| - 1], src));
      room := before + |Joined(lines)|;
      forall k | 0 <= k < |lines| ensures |lines[k]| < |Joined(lines)| {
        LineInJoined(lines, k);
      }
      forall s: Setup, i | s.msgSize >= room && 0 <= i < |run| ensures Fits(s, Texts(Emissions(run[i], src))) {
        assert i < |run| - 1 ==> run[..|run| - 1][i] == run[i] && FitRun(run[..|run| - 1], src, s);
      }
    }
  }

  /** A reader with a buffer of `msgSize` bytes goes through the run: it hands on
      the messages of the run. */
  ghost predicate HasReader(cfg: Config, run: seq<Event>, src: nat, msgSize: nat, rest: Octets)
    requires ConfigOk(cfg) && IsRun(cfg, run) && src < |cfg.sources|
  {
    exists s: Setup :: ReaderOf(cfg, src, s) && s.msgSize == msgSize &&
      HasRead(ReaderAfter(cfg, run, src, s, Joined(Texts(InputsOf(run, src))) + rest), InputsOf(run, src), rest)
  }

  function Indexed(acks: seq<nat>): nat -> nat {
    (n: nat) => if n < |acks| then acks[n] else 0
  }

  lemma {:induction false} IndexedSees(s: Setup, acks: seq<nat>)
    requires s.acks == Indexed(acks)
    ensures SeesAcks(s, acks)
  {
  }

  /** The reader of a source with its acknowledgements in a run. */
  ghost function ReaderFor(cfg: Config, run: seq<Event>, src: nat, msgSize: nat): Setup
    requires ConfigOk(cfg) && IsRun(cfg, run) && src < |cfg.sources|
  {
    var sc := cfg.sources[src];
    Setup(msgSize, sc.fetchLimit, sc.singleRead, false, Indexed(AcksOf(cfg, run, src)))
  }

  lemma {:induction false} FittingIsReached(cfg: Config, run: seq<Event>, src: nat, msgSize: nat, rest: Octets)
    requires ConfigOk(cfg) && IsRun(cfg, run) && src < |cfg.sources| && ReadsLinesOnly(cfg, src)
    requires FitRun(run, src, ReaderFor(cfg, run, src, msgSize))
    ensures HasReader(cfg, run, src, msgSize, rest)
  {
    var s := ReaderFor(cfg, run, src, msgSize);
    IndexedSees(s, AcksOf(cfg, run, src));
    RunIsReached(cfg, run, src, s, rest, Joined(Texts(InputsOf(run, src))) + rest);
  }

  /** For every run and every source that reads lines there is a reader, with some
      size of its buffer, that goes through the run. */
  lemma {:induction false} EveryRunIsReached(cfg: Config, run: seq<Event>, src: nat, rest: Octets)
    returns (msgSize: nat)
    requires ConfigOk(cfg) && IsRun(cfg, run) && src < |cfg.sources| && ReadsLinesOnly(cfg, src)
    ensures HasReader(cfg, run, src, msgSize, rest)
  {
    msgSize := RoomFor(run, src);
    assert ReaderFor(cfg, run, src, msgSize).msgSize >= msgSize;
    FittingIsReached(cfg, run, src, msgSize, rest);
  }

  // ---------------------------------------------------------------------
  // Drops are reached
  // ---------------------------------------------------------------------

  /** What source `src` can read are lines, shorter than its buffer. */
  ghost predicate ReadsShortLines(cfg: Config, src: nat) {
    && src < |cfg.sources| && ReadsLinesOnly(cfg, src)
    && forall input :: cfg.possible(src, input) ==> |input.text| < cfg.sources[src].msgSize
  }

  lemma {:induction false} OneByOneFits(cfg: Config, run: seq<Event>, src: nat, s: Setup)
    requires ConfigOk(cfg) && IsRun(cfg, run) && OneByOne(cfg, run) && ReadsShortLines(cfg, src)
    requires ReaderOf(cfg, src, s) && s.msgSize == cfg.sources[src].msgSize && s.msgSize >= 1
    ensures FitRun(run, src, s)
    decreases |run|
  {
    if run != [] {
      var before, now := run[..|run| - 1], Emissions(run[|run| - 1], src);
      assert OneByOne(cfg, before);
      OneByOneFits(cfg, before, src, s);
      assert AllPossible(cfg, src, now) && (s.singleRead ==> |now| <= 1);
      ShortFits(cfg, src, s, now);
      forall i | 0 <= i < |run| ensures Fits(s, Texts(Emissions(run[i], src))) {
        assert i < |run| - 1 ==> before[i] == run[i];
      }
    }
  }

  lemma {:induction false} ShortFits(cfg: Config, src: nat, s: Setup, inputs: seq<Input>)
    requires ReadsShortLines(cfg, src) && s.msgSize == cfg.sources[src].msgSize && s.msgSize >= 1
    requires AllPossible(cfg, src, inputs) && (s.singleRead ==> |inputs| <= 1)
    ensures Fits(s, Texts(inputs))
  {
    var lines := Texts(inputs);
    forall k | 0 <= k < |lines| ensures |lines[k]| < s.msgSize {
      assert cfg.possible(src, inputs[k]);
    }
    if |lines| == 1 {
      assert lines[1..] == [] && Joined(lines) == lines[0] + [LF] + Joined([]);
    } else if |lines| == 0 {
      assert Joined(lines) == [];
    }
  }

  /** The readers of the sources that read short lines go through the run with the
      buffers they have. */
  ghost predicate ReadersReach(cfg: Config, run: seq<Event>, rest: Octets)
    requires ConfigOk(cfg) && IsRun(cfg, run)
  {
    forall src :: 0 <= src < |cfg.sources| && ReadsShortLines(cfg, src) && cfg.sources[src].msgSize >= 1
      ==> HasReader(cfg, run, src, cfg.sources[src].msgSize, rest)
  }

  /** A guarded writer whose queue is too short does drop a message, in a run that
      the readers go through whatever comes behind it. */
  lemma {:induction false} ReadersOverfill(cfg: Config, w: nat, rest: Octets) returns (run: seq<Event>)
    requires ConfigOk(cfg) && w < |cfg.fifo| && Guarded(cfg, w) && cfg.fifo[w] < TotalBudget(cfg, w, |cfg.sources|)
    ensures IsRun(cfg, run) && After(cfg, run).writers[w].dropped > 0 && ReadersReach(cfg, run, rest)
  {
    StartIsFilling(cfg, w);
    run := Overfill(cfg, w, [], After(cfg, []));
    forall src | 0 <= src < |cfg.sources| && ReadsShortLines(cfg, src) && cfg.sources[src].msgSize >= 1
      ensures HasReader(cfg, run, src, cfg.sources[src].msgSize, rest)
    {
      var msgSize := cfg.sources[src].msgSize;
      OneByOneFits(cfg, run, src, ReaderFor(cfg, run, src, msgSize));
      FittingIsReached(cfg, run, src, msgSize, rest);
    }
  }
}
