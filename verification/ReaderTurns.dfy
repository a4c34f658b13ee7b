/** The stream reader over all its dispatches: bytes arrive, acknowledgements open
    its window, and it is dispatched when the window is open. */
module ReaderTurns {
  import opened Octets
  import opened Framing
  import opened Reading
  import opened EndOfStream

  datatype Turn = Arrives(bytes: Octets) | Opens(acks: nat) | Fetches(answers: seq<Answer>)

  /** At the end of the file or an error this is the state before the flush. */
  function AfterTurn(s: Setup, st: State, turn: Turn): State {
    match turn
    case Arrives(bytes) => st.(ahead := st.ahead + bytes)
    case Opens(acks) => st.(window := st.window + acks)
    case Fetches(answers) => Last(Dispatched(s, st, answers))
  }

  function AfterTurns(s: Setup, window: int, turns: seq<Turn>): State {
    if turns == [] then Beginning([], window)
    else AfterTurn(s, AfterTurns(s, window, turns[..|turns| - 1]), turns[|turns| - 1])
  }

  function Arrived(turns: seq<Turn>): Octets {
    if turns == [] then []
    else
      var last := turns[|turns| - 1];
      Arrived(turns[..|turns| - 1]) + if last.Arrives? then last.bytes else []
  }

  /** The reader has read what arrived and has no whole line left. */
  predicate AllRead(st: State) {
    st.ahead == [] && !st.complete
  }

  lemma {:induction false} ArrivesKeeps(s: Setup, st: State, bytes: Octets)
    requires Ready(s, st)
    ensures var r := AfterTurn(s, st, Arrives(bytes));
      Ready(s, r) && Stream(r) == Stream(st) + bytes
  {
    var r := AfterTurn(s, st, Arrives(bytes));
    Join3(st.buf, st.ahead, bytes);
    Join3(st.eaten, st.buf + st.ahead, bytes);
    if NulFree(r) {
      assert r.ahead[..|st.ahead|] == st.ahead;
      assert NulFree(st);
    }
  }

  /** In every order of arrivals, acknowledgements and dispatches the messages stay
      exact, and no byte that arrived is lost, repeated or reordered. */
  lemma {:induction false} TurnsKeepReady(s: Setup, window: int, turns: seq<Turn>)
    requires s.msgSize >= 1 && s.fetchLimit >= 1
    ensures var r := AfterTurns(s, window, turns);
      Ready(s, r) && Stream(r) == Arrived(turns)
  {
    if turns == [] {
      BeginningIsReady(s, [], window);
    } else {
      var before, last := turns[..|turns| - 1], turns[|turns| - 1];
      var st := AfterTurns(s, window, before);
      TurnsKeepReady(s, window, before);
      match last {
        case Arrives(bytes) => ArrivesKeeps(s, st, bytes);
        case Opens(acks) => assert NulFree(st.(window := st.window + acks)) <==> NulFree(st);
        case Fetches(answers) => DispatchKeepsReady(s, st, answers);
      }
    }
  }

  // ---------------------------------------------------------------------
  // The end of the stream, whatever came before
  // ---------------------------------------------------------------------

  /** Every dispatch began with an open window, and none met the end. */
  ghost predicate Goes(s: Setup, window: int, turns: seq<Turn>) {
    turns == [] ||
    (var before, last := turns[..|turns| - 1], turns[|turns| - 1];
     && Goes(s, window, before)
     && (last.Fetches? ==>
           var st := AfterTurns(s, window, before);
           st.window > 0 && Dispatched(s, st, last.answers).Going?))
  }

  /** After these turns a dispatch meets the end of a stream without NULs. */
  ghost predicate MeetsEnd(s: Setup, window: int, turns: seq<Turn>, answers: seq<Answer>) {
    var st := AfterTurns(s, window, turns);
    Goes(s, window, turns) && NUL !in Arrived(turns) && st.window > 0 && Dispatched(s, st, answers).Ended?
  }

  /** A reader with these parameters and this initial window never ends a stream
      wrongly. */
  ghost predicate NeverEndsWrongly(msgSize: nat, fetchLimit: nat, singleRead: bool, window: int) {
    forall s: Setup, turns: seq<Turn>, answers: seq<Answer> ::
      s.msgSize == msgSize && s.fetchLimit == fetchLimit && s.singleRead == singleRead
      && MeetsEnd(s, window, turns, answers)
      ==> Exact(s, Result(s, Dispatched(s, AfterTurns(s, window, turns), answers)))
  }

  lemma {:induction false} GoesOn(s: Setup, window: int, turns: seq<Turn>, turn: Turn)
    requires Goes(s, window, turns)
    requires turn.Fetches? ==>
      AfterTurns(s, window, turns).window > 0
      && Dispatched(s, AfterTurns(s, window, turns), turn.answers).Going?
    ensures Goes(s, window, turns + [turn])
    ensures AfterTurns(s, window, turns + [turn]) == AfterTurn(s, AfterTurns(s, window, turns), turn)
    ensures Arrived(turns + [turn]) == Arrived(turns) + if turn.Arrives? then turn.bytes else []
  {
    assert (turns + [turn])[..|turns + [turn]| - 1] == turns;
  }

  /** A dispatch that hands on one line and gets no acknowledgement. */
  lemma {:induction false} ClosesByOne(s: Setup, st: State)
    requires !s.singleRead && s.msgSize >= 3 && s.fetchLimit >= 1 && forall n: nat :: s.acks(n) == 0
    requires st.buf == [] && !st.complete && st.ahead == "a" + [LF] && st.window > 0
    ensures var d := Dispatched(s, st, [Got(2)]);
      d.Going? && d.st.buf == [] && AllRead(d.st) && d.st.window == st.window - 1
  {
    var lines, ws := ["a"], [st.window, st.window - 1];
    assert lines[1..] == [] && Joined([]) == [] && Joined(lines) + [] == "a" + [LF];
    assert Sizes(lines) == [Got(2)] && IsText("a");
    GateIsReached(s, st, lines, [], ws);
  }

  /** A state of the reader in which nothing waits. */
  predicate Idle(st: State, window: int) {
    st.buf == [] && AllRead(st) && st.window == window
  }

  lemma {:induction false} OneMoreLine(s: Setup, window: nat, turns: seq<Turn>, st: State) returns (more: seq<Turn>)
    requires !s.singleRead && s.msgSize >= 3 && s.fetchLimit >= 1 && forall n: nat :: s.acks(n) == 0
    requires Goes(s, window, turns) && NUL !in Arrived(turns)
    requires st == AfterTurns(s, window, turns) && Idle(st, st.window) && st.window > 0
    ensures Goes(s, window, more) && NUL !in Arrived(more)
    ensures Idle(AfterTurns(s, window, more), st.window - 1)
  {
    var line := "a" + [LF];
    var there := st.(ahead := st.ahead + line);
    assert there.ahead == line;
    ClosesByOne(s, there);
    GoesOn(s, window, turns, Arrives(line));
    more := turns + [Arrives(line)];
    GoesOn(s, window, more, Fetches([Got(2)]));
    more := more + [Fetches([Got(2)])];
  }

  /** Line by line, without acknowledgements, every window closes down to one. */
  lemma {:induction false} ClosesToOne(s: Setup, window: nat, n: nat) returns (turns: seq<Turn>)
    requires !s.singleRead && s.msgSize >= 3 && s.fetchLimit >= 1 && (forall m: nat :: s.acks(m) == 0) && n < window
    ensures Goes(s, window, turns) && NUL !in Arrived(turns)
    ensures Idle(AfterTurns(s, window, turns), window - n)
  {
    turns := [];
    if n > 0 {
      turns := ClosesToOne(s, window, n - 1);
      turns := OneMoreLine(s, window, turns, AfterTurns(s, window, turns));
    }
  }

  lemma {:induction false} LastLineMerges(s: Setup, st: State)
    requires !s.singleRead && s.msgSize >= 3 && s.fetchLimit >= 2 && forall n: nat :: s.acks(n) == 0
    requires Ready(s, st) && NulFree(st) && st.buf == [] && !st.complete
    requires st.ahead == "a" + [LF] + [LF] && st.window == 1
    ensures var d := Dispatched(s, st, [Got(3), Broke]);
      d.Ended? && !Exact(s, Result(s, d))
  {
    var start := st.(gate := []);
    LeavesLineFeed(s, start, 0, ReadAll(s, start, [Got(3), Broke], 0));
    EndExactly(s, st, [Got(3), Broke]);
  }

  /** A run of any such reader that ends wrongly. */
  lemma {:induction false} EndsWrongly(s: Setup, window: nat) returns (turns: seq<Turn>)
    requires !s.singleRead && s.msgSize >= 3 && s.fetchLimit >= 2 && window > 0 && forall n: nat :: s.acks(n) == 0
    ensures MeetsEnd(s, window, turns, [Got(3), Broke])
    ensures !Exact(s, Result(s, Dispatched(s, AfterTurns(s, window, turns), [Got(3), Broke])))
  {
    turns := ClosesToOne(s, window, window - 1);
    var last := "a" + [LF] + [LF];
    var st := AfterTurns(s, window, turns);
    var there := st.(ahead := st.ahead + last);
    assert there.ahead == last;
    GoesOn(s, window, turns, Arrives(last));
    turns := turns + [Arrives(last)];
    TurnsKeepReady(s, window, turns);
    StreamNulFree(there);
    LastLineMerges(s, there);
  }

  /** A matter of the configuration alone: whatever comes in whatever order, no
      stream ends wrongly if and only if the reader reads once per dispatch, or
      hands on at most one message in each, or its buffer has no room for a message
      and another line. A larger initial window does not help. */
  lemma {:induction false} NeverEndsWronglyExactly(msgSize: nat, fetchLimit: nat, singleRead: bool, window: nat)
    requires msgSize >= 1 && fetchLimit >= 1 && window >= 1
    ensures NeverEndsWrongly(msgSize, fetchLimit, singleRead, window)
      <==> singleRead || fetchLimit == 1 || msgSize < 3
  {
    if singleRead || fetchLimit == 1 || msgSize < 3 {
      forall s: Setup, turns: seq<Turn>, answers: seq<Answer> |
        s.msgSize == msgSize && s.fetchLimit == fetchLimit && s.singleRead == singleRead
        && MeetsEnd(s, window, turns, answers)
        ensures Exact(s, Result(s, Dispatched(s, AfterTurns(s, window, turns), answers)))
      {
        var st := AfterTurns(s, window, turns);
        TurnsKeepReady(s, window, turns);
        StreamNulFree(st);
        EndsRightExactly(msgSize, fetchLimit, singleRead, st.window);
        assert Starts(s, st, msgSize, fetchLimit, singleRead, st.window);
      }
    } else {
      var s := Setup(msgSize, fetchLimit, singleRead, false, _ => 0);
      var turns := EndsWrongly(s, window);
    }
  }
}
