/** Which dispatches of the stream reader can end a stream wrongly: exactly
    those of a reader that reads several times per dispatch, with a window
    smaller than its fetch limit and room for three bytes. And which windows a
    reader can go through in one dispatch: all those its gate allows. */
module EndOfStream {
  import opened Octets
  import opened Framing
  import opened Pipeline
  import opened Reading

  // ---------------------------------------------------------------------
  // Dispatches that cannot end wrongly
  // ---------------------------------------------------------------------

  /** The window cannot close before the fetch limit is reached, or no whole line
      fits behind a message. */
  predicate Drains(s: Setup, st: State, count: nat) {
    st.window >= s.fetchLimit - count || s.msgSize < 3
  }

  lemma {:induction false} ScannedDrains(s: Setup, st: State, count: nat, mayRead: bool)
    requires s.fetchLimit > 0 && Drains(s, st, count) && |st.buf| <= s.msgSize
    requires mayRead || st.buf == [] || (st.window >= s.fetchLimit - count && !MayScan(s, count))
    ensures var r := Scanned(s, st, count, mayRead);
      Drains(s, r.st, r.count) && (MayScan(s, r.count) ==> !HasLine(r.st.buf))
    decreases |st.buf|
  {
    if MayScan(s, count) && HasLine(st.buf) && mayRead {
      var after := LineTaken(s, st);
      var may := after.gate == st.gate || after.window > 0;
      TrimIsPrefix(st.buf[..Eol(st.buf)]);
      ScannedDrains(s, after, count + 1, may);
    }
  }

  lemma {:induction false} ReadAllDrains(s: Setup, st: State, answers: seq<Answer>, count: nat)
    requires Ready(s, st) && Drains(s, st, count) && (count < s.fetchLimit ==> !st.complete)
    ensures var d := ReadAll(s, st, answers, count);
      d.Ended? ==> !d.before.complete
    decreases |answers|
  {
    if count < s.fetchLimit && answers != [] && !answers[0].NotNow? && !Ends(s, st, answers[0]) {
      var rc := ReadSize(s, st, answers[0].count);
      var got := Received(st, rc);
      ReceivedKeeps(s, st, rc);
      IteratedKeeps(s, got, count);
      ScannedDrains(s, got, count, true);
      if !s.singleRead {
        var i := Iterated(s, got, count);
        ReadAllDrains(s, i.st, answers[1..], i.count);
      }
    }
  }

  lemma {:induction false} DispatchDrains(s: Setup, st: State, answers: seq<Answer>)
    requires Ready(s, st) && s.fetchLimit >= 1 && Drains(s, st, 0)
    ensures var d := Dispatched(s, st, answers);
      d.Ended? ==> !d.before.complete
  {
    var start := st.(gate := []);
    assert NulFree(start) <==> NulFree(st);
    if st.complete {
      IteratedKeeps(s, start, 0);
      ScannedDrains(s, start, 0, true);
      var i := Iterated(s, start, 0);
      ReadAllDrains(s, i.st, answers, i.count);
    } else {
      ReadAllDrains(s, start, answers, 0);
    }
  }

  // ---------------------------------------------------------------------
  // Reading line by line
  // ---------------------------------------------------------------------

  /** A line that becomes a message. */
  predicate IsText(line: Octets) {
    NUL !in line && LF !in line && Trim(line) != []
  }

  predicate AreTexts(lines: seq<Octets>) {
    forall k :: 0 <= k < |lines| ==> IsText(lines[k])
  }

  function Joined(lines: seq<Octets>): Octets {
    if lines == [] then [] else lines[0] + [LF] + Joined(lines[1..])
  }

  function Trimmed(lines: seq<Octets>): seq<Octets> {
    seq(|lines|, k requires 0 <= k < |lines| => Trim(lines[k]))
  }

  /** One line has become a message. */
  function Emitted(s: Setup, st: State, line: Octets): State {
    HandedOn(s, st, LineFrame(line)).(eaten := st.eaten + (line + [LF]))
  }

  function AllEmitted(s: Setup, st: State, lines: seq<Octets>): State
    decreases |lines|
  {
    if lines == [] then st else AllEmitted(s, Emitted(s, st, lines[0]), lines[1..])
  }

  lemma {:induction false} EolOfLine(line: Octets, rest: Octets)
    requires IsText(line) && NUL !in rest
    ensures Eol(line + [LF] + rest) == |line| && HasLine(line + [LF] + rest)
    ensures (line + [LF] + rest)[..|line|] == line && (line + [LF] + rest)[|line| + 1..] == rest
  {
    var t := line + [LF] + rest;
    assert t[..|line|] == line && t[|line|] == LF;
    IndexOfUnique(t, LF, |line|);
    assert NUL !in t;
    IndexOfUnique(t, NUL, |t|);
  }

  /** Taking the first line of a buffer that holds lines. */
  lemma {:induction false} TakesLine(s: Setup, st: State, line: Octets, rest: Octets)
    requires IsText(line) && NUL !in rest && st.buf == line + [LF] + rest
    ensures HasLine(st.buf) && LineTaken(s, st) == Emitted(s, st, line).(buf := rest)
    ensures Emitted(s, st, line).window == st.window - 1 + s.acks(|st.out|)
    ensures LineTaken(s, st).gate == st.gate + [st.window]
  {
    EolOfLine(line, rest);
    assert st.buf[Eol(st.buf)] == LF;
  }

  /** A read that delivers one line, and the pass over the buffer behind it. */
  lemma {:induction false} ReadsLine(s: Setup, st: State, line: Octets, rest: Octets, count: nat)
    requires IsText(line) && |line| < s.msgSize && MayScan(s, count)
    requires st.buf == [] && !st.complete && st.ahead == line + [LF] + rest
    ensures ReadSize(s, st, |line| + 1) == |line| + 1
    ensures Iterated(s, Received(st, |line| + 1), count)
      == Scan(Emitted(s, st, line).(ahead := rest), count + 1)
  {
    var got := Received(st, |line| + 1);
    assert got.buf == line + [LF] + [] && got.ahead == rest;
    TakesLine(s, got, line, []);
    var after := LineTaken(s, got);
    assert after == Emitted(s, st, line).(ahead := rest);
    assert !HasLine(after.buf);
    assert Scanned(s, after, count + 1, after.window > 0) == Scan(after, count + 1);
  }

  /** One round of the reading loop that delivers one line. */
  lemma {:induction false} ReadsOneLine(
    s: Setup, st: State, line: Octets, rest: Octets, answers: seq<Answer>, count: nat)
    requires !s.singleRead && count < s.fetchLimit && IsText(line) && |line| < s.msgSize
    requires st.buf == [] && !st.complete && st.ahead == line + [LF] + rest
    requires answers != [] && answers[0] == Got(|line| + 1)
    ensures ReadAll(s, st, answers, count)
      == ReadAll(s, Emitted(s, st, line).(ahead := rest), answers[1..], count + 1)
  {
    ReadsLine(s, st, line, rest, count);
  }

  function Sizes(lines: seq<Octets>): seq<Answer> {
    seq(|lines|, k requires 0 <= k < |lines| => Got(|lines[k]| + 1))
  }

  lemma {:induction false} ReadsThrough(
    s: Setup, st: State, lines: seq<Octets>, rest: Octets, more: seq<Answer>, answers: seq<Answer>,
    count: nat, total: nat, end: State, d: Dispatch)
    requires !s.singleRead && count + |lines| <= s.fetchLimit && total == count + |lines|
    requires AreTexts(lines) && forall k :: 0 <= k < |lines| ==> |lines[k]| < s.msgSize
    requires st.buf == [] && !st.complete && st.ahead == Joined(lines) + rest
    requires answers == Sizes(lines) + more
    requires end == AllEmitted(s, st, lines).(ahead := rest) && d == ReadAll(s, end, more, total)
    ensures ReadAll(s, st, answers, count) == d
    decreases |lines|
  {
    Heads(lines, rest, more);
    if lines != [] {
      var line, later := lines[0], Joined(lines[1..]) + rest;
      var after := Emitted(s, st, line).(ahead := later);
      EmittedBehind(s, st, lines, later, rest);
      ReadsThrough(s, after, lines[1..], rest, more, answers[1..], count + 1, total, end, d);
      ReadsOneLine(s, st, line, later, answers, count);
    }
  }

  /** Several reads per dispatch, each of which delivers one line: every line is
      handed on in this dispatch, even when the window is closed by then. */
  lemma {:induction false} ReadsLines(s: Setup, st: State, lines: seq<Octets>, rest: Octets, more: seq<Answer>)
    requires !s.singleRead && |lines| <= s.fetchLimit
    requires AreTexts(lines) && forall k :: 0 <= k < |lines| ==> |lines[k]| < s.msgSize
    requires st.buf == [] && !st.complete && st.ahead == Joined(lines) + rest
    ensures ReadAll(s, st, Sizes(lines) + more, 0)
      == ReadAll(s, AllEmitted(s, st, lines).(ahead := rest), more, |lines|)
  {
    var end := AllEmitted(s, st, lines).(ahead := rest);
    var d := ReadAll(s, end, more, |lines|);
    ReadsThrough(s, st, lines, rest, more, Sizes(lines) + more, 0, |lines|, end, d);
  }

  lemma {:induction false} EmittedBehind(s: Setup, st: State, lines: seq<Octets>, later: Octets, rest: Octets)
    requires lines != []
    ensures AllEmitted(s, Emitted(s, st, lines[0]).(ahead := later), lines[1..]).(ahead := rest)
      == AllEmitted(s, st, lines).(ahead := rest)
  {
    EmittedApart(s, Emitted(s, st, lines[0]), lines[1..], st.buf, later);
  }

  lemma {:induction false} Heads(lines: seq<Octets>, rest: Octets, more: seq<Answer>)
    ensures lines == [] ==> Joined(lines) + rest == rest && Sizes(lines) + more == more
    ensures lines != [] ==>
      && Joined(lines) + rest == lines[0] + [LF] + (Joined(lines[1..]) + rest)
      && (Sizes(lines) + more)[0] == Got(|lines[0]| + 1)
      && (Sizes(lines) + more)[1..] == Sizes(lines[1..]) + more
  {
  }

  /** Emitting lines does not depend on the bytes behind them. */
  lemma {:induction false} EmittedApart(s: Setup, st: State, lines: seq<Octets>, buf: Octets, ahead: Octets)
    ensures AllEmitted(s, st.(buf := buf, ahead := ahead), lines)
      == AllEmitted(s, st, lines).(buf := buf, ahead := ahead)
    ensures var r := AllEmitted(s, st, lines);
      r.buf == st.buf && r.ahead == st.ahead && r.complete == st.complete
    decreases |lines|
  {
    if lines != [] {
      EmittedApart(s, Emitted(s, st, lines[0]), lines[1..], buf, ahead);
    }
  }

  // ---------------------------------------------------------------------
  // The windows of a dispatch
  // ---------------------------------------------------------------------

  /** While `n` messages are handed on the window goes through `ws`. */
  ghost predicate Through(s: Setup, st: State, ws: seq<int>, n: nat) {
    && |ws| == n + 1 && ws[0] == st.window
    && forall k :: 0 <= k < n ==> ws[k + 1] == ws[k] - 1 + s.acks(|st.out| + k)
  }

  lemma {:induction false} EmittedThrough(s: Setup, st: State, lines: seq<Octets>, ws: seq<int>)
    requires AreTexts(lines) && Through(s, st, ws, |lines|)
    ensures var r := AllEmitted(s, st, lines);
      && r.gate == st.gate + ws[..|lines|] && r.window == ws[|lines|]
      && r.out == st.out + Trimmed(lines) && r.eaten == st.eaten + Joined(lines)
    decreases |lines|
  {
    if lines != [] {
      var after := Emitted(s, st, lines[0]);
      EmittedThrough(s, after, lines[1..], ws[1..]);
      Outputs(st.out, lines);
      Gates(st.gate, ws, |lines|);
      Join3(st.eaten, lines[0] + [LF], Joined(lines[1..]));
    }
  }

  lemma {:induction false} Outputs(out: seq<Octets>, lines: seq<Octets>)
    requires lines != []
    ensures (out + [Trim(lines[0])]) + Trimmed(lines[1..]) == out + Trimmed(lines)
  {
  }

  lemma {:induction false} Gates(gate: seq<int>, ws: seq<int>, n: nat)
    requires 0 < n < |ws|
    ensures (gate + [ws[0]]) + ws[1..][..n - 1] == gate + ws[..n]
  {
  }

  lemma {:induction false} JoinedNulFree(lines: seq<Octets>)
    requires AreTexts(lines)
    ensures NUL !in Joined(lines)
  {
    if lines != [] {
      JoinedNulFree(lines[1..]);
    }
  }

  lemma {:induction false} ThroughTail(s: Setup, st: State, after: State, ws: seq<int>, n: nat)
    requires n > 0 && Through(s, st, ws, n)
    requires |after.out| == |st.out| + 1 && after.window == st.window - 1 + s.acks(|st.out|)
    ensures Through(s, after, ws[1..], n - 1)
  {
    var later := ws[1..];
    forall k | 0 <= k < n - 1 ensures later[k + 1] == later[k] - 1 + s.acks(|after.out| + k) {
      var i := k + 1;
      assert ws[i + 1] == ws[i] - 1 + s.acks(|st.out| + i) && |st.out| + i == |after.out| + k;
    }
  }

  /** Lines that are all in the buffer are taken as long as the window is open. */
  lemma {:induction false} ScansThrough(
    s: Setup, st: State, lines: seq<Octets>, ws: seq<int>, count: nat, total: nat, mayRead: bool, end: State)
    requires AreTexts(lines) && st.buf == Joined(lines) && !st.complete
    requires count + |lines| <= s.fetchLimit && total == count + |lines| && (mayRead || lines == [])
    requires Through(s, st, ws, |lines|) && forall k :: 0 < k < |lines| ==> ws[k] > 0
    requires end == AllEmitted(s, st, lines).(buf := [])
    ensures Scanned(s, st, count, mayRead) == Scan(end, total)
    decreases |lines|
  {
    if lines == [] {
      assert !HasLine(st.buf);
    } else {
      var line, later := lines[0], Joined(lines[1..]);
      JoinedNulFree(lines[1..]);
      TakesLine(s, st, line, later);
      var after := LineTaken(s, st);
      EmittedApart(s, Emitted(s, st, line), lines[1..], later, st.ahead);
      ThroughTail(s, st, after, ws, |lines|);
      assert after.window == ws[1] && (lines[1..] == [] || ws[1] > 0);
      ScansThrough(s, after, lines[1..], ws[1..], count + 1, total, after.window > 0, end);
    }
  }

  /** What `fd_read` has to answer for `lines` to be read: line by line, or all
      at once to a reader that reads once per dispatch. */
  function Reads(s: Setup, lines: seq<Octets>): seq<Answer> {
    if !s.singleRead then Sizes(lines) else if lines == [] then [] else [Got(|Joined(lines)|)]
  }

  predicate Fits(s: Setup, lines: seq<Octets>) {
    if s.singleRead then |Joined(lines)| <= s.msgSize
    else forall k :: 0 <= k < |lines| ==> |lines[k]| < s.msgSize
  }

  lemma {:induction false} IteratesLines(s: Setup, st: State, lines: seq<Octets>, ws: seq<int>, end: State)
    requires AreTexts(lines) && 0 < |lines| <= s.fetchLimit && st.buf == Joined(lines) && !st.complete
    requires Through(s, st, ws, |lines|) && forall k :: 0 < k < |lines| ==> ws[k] > 0
    requires end == AllEmitted(s, st, lines).(buf := [])
    ensures Iterated(s, st, 0) == Scan(end, |lines|)
  {
    assert Joined(lines) == lines[0] + [LF] + Joined(lines[1..]);
    JoinedNulFree(lines[1..]);
    TakesLine(s, st, lines[0], Joined(lines[1..]));
    ScansThrough(s, st, lines, ws, 0, |lines|, true, end);
  }

  lemma {:induction false} ReadsAtOnce(s: Setup, st: State, lines: seq<Octets>, rest: Octets, ws: seq<int>)
    requires s.singleRead && AreTexts(lines) && 0 < |lines| <= s.fetchLimit && |Joined(lines)| <= s.msgSize
    requires Through(s, st, ws, |lines|) && forall k :: 0 < k < |lines| ==> ws[k] > 0
    requires st.buf == [] && !st.complete && st.ahead == Joined(lines) + rest
    ensures ReadAll(s, st, Reads(s, lines), 0) == Going(AllEmitted(s, st, lines).(ahead := rest))
  {
    var size := |Joined(lines)|;
    var got := Received(st, size);
    var end := AllEmitted(s, st, lines).(ahead := rest);
    assert got == st.(buf := Joined(lines), ahead := rest);
    GotLines(s, st, lines, rest, ws, got, end);
    assert Joined(lines) != [] && ReadSize(s, st, size) == size;
    assert Reads(s, lines) == [Got(size)];
  }

  lemma {:induction false} GotLines(
    s: Setup, st: State, lines: seq<Octets>, rest: Octets, ws: seq<int>, got: State, end: State)
    requires AreTexts(lines) && 0 < |lines| <= s.fetchLimit && st.buf == [] && !st.complete
    requires Through(s, st, ws, |lines|) && forall k :: 0 < k < |lines| ==> ws[k] > 0
    requires got == st.(buf := Joined(lines), ahead := rest) && end == AllEmitted(s, st, lines).(ahead := rest)
    ensures Iterated(s, got, 0) == Scan(end, |lines|)
  {
    EmittedApart(s, st, lines, got.buf, rest);
    IteratesLines(s, got, lines, ws, end);
  }

  /** Every sequence of windows that the gate of a dispatch allows is gone through
      by a reader: with an empty buffer, when `lines` are what comes next and the
      acknowledgements are those of `ws`, one dispatch hands on just these lines,
      with just these windows, and leaves the buffer empty again. */
  lemma {:induction false} GateIsReached(s: Setup, st: State, lines: seq<Octets>, rest: Octets, ws: seq<int>)
    requires AreTexts(lines) && Fits(s, lines) && Through(s, st, ws, |lines|)
    requires GateOk(ws[..|lines|], s.fetchLimit, s.singleRead)
    requires st.buf == [] && !st.complete && st.ahead == Joined(lines) + rest
    ensures Dispatched(s, st, Reads(s, lines))
      == Going(State([], false, rest, ws[|lines|], st.eaten + Joined(lines), st.out + Trimmed(lines), ws[..|lines|]))
  {
    var start := st.(gate := []);
    EmittedThrough(s, start, lines, ws);
    EmittedApart(s, start, lines, [], st.ahead);
    assert [] + ws[..|lines|] == ws[..|lines|];
    if s.singleRead && lines != [] {
      assert forall k :: 0 < k < |lines| ==> ws[k] == ws[..|lines|][k];
      ReadsAtOnce(s, start, lines, rest, ws);
    } else if s.singleRead {
      assert Joined(lines) + rest == rest;
    } else {
      ReadsLines(s, start, lines, rest, []);
      assert Sizes(lines) + [] == Sizes(lines);
    }
  }

  // ---------------------------------------------------------------------
  // Dispatches that end wrongly
  // ---------------------------------------------------------------------

  function Repeated(line: Octets, n: nat): seq<Octets> {
    seq(n, _ => line)
  }

  /** The stream and the reads that make a reader merge lines: its window closes
      with a line feed still buffered, and then the stream ends. */
  function MergedStream(window: nat): Octets
    requires window > 0
  {
    Joined(Repeated("a", window - 1)) + ("a" + [LF] + [LF])
  }

  function MergingReads(window: nat): seq<Answer>
    requires window > 0
  {
    Sizes(Repeated("a", window - 1)) + [Got(3), Broke]
  }

  function Beginning(ahead: Octets, window: int): State {
    State([], false, ahead, window, [], [], [])
  }

  lemma {:induction false} BeginningIsReady(s: Setup, ahead: Octets, window: int)
    requires s.msgSize >= 1
    ensures Ready(s, Beginning(ahead, window))
  {
    assert Frames([], s.msgSize) == Cut([], []);
  }

  /** The last read before the end: a message, and a line feed that stays. */
  lemma {:induction false} LeavesLineFeed(s: Setup, st: State, count: nat, d: Dispatch)
    requires !s.singleRead && s.msgSize >= 3 && count + 1 < s.fetchLimit
    requires st.buf == [] && st.ahead == "a" + [LF] + [LF]
    requires st.window == 1 && s.acks(|st.out|) == 0
    requires d == ReadAll(s, st, [Got(3), Broke], count)
    ensures d.Ended? && d.before.complete
  {
    var after := ScansFirst(s, Received(st, 3), count);
    assert ReadSize(s, st, 3) == 3;
    var answers := [Got(3), Broke];
    assert answers[1..] == [Broke];
    assert d == ReadAll(s, after, [Broke], count + 1);
  }

  lemma {:induction false} ScansFirst(s: Setup, got: State, count: nat) returns (r: State)
    requires count + 1 < s.fetchLimit && got.buf == "a" + [LF] + [LF]
    requires got.window == 1 && s.acks(|got.out|) == 0
    ensures Iterated(s, got, count) == Scan(r, count + 1) && r.complete
  {
    TakesLine(s, got, "a", [LF]);
    var after := LineTaken(s, got);
    EolMeans(after.buf);
    assert after.buf == [LF] && LF in after.buf && after.window == 0;
    r := after.(complete := true);
    assert Scanned(s, after, count + 1, false) == Scan(r, count + 1);
  }

  /** The state before the last of the merging reads. */
  lemma {:induction false} BeforeLastRead(s: Setup, window: nat, st: State, x: State)
    requires window > 0 && (forall n: nat :: s.acks(n) == 0) && st == Beginning(MergedStream(window), window)
    requires x == AllEmitted(s, st, Repeated("a", window - 1)).(ahead := "a" + [LF] + [LF])
    ensures x.buf == [] && x.window == 1
  {
    var lines := Repeated("a", window - 1);
    EmittedThrough(s, st, lines, seq(window, k => window - k));
    EmittedApart(s, st, lines, [], st.ahead);
  }

  lemma {:induction false} ReadsUpToLast(s: Setup, window: nat, st: State, x: State, answers: seq<Answer>, d: Dispatch)
    requires !s.singleRead && s.msgSize >= 3 && 0 < window < s.fetchLimit
    requires st == Beginning(MergedStream(window), window) && answers == MergingReads(window)
    requires x == AllEmitted(s, st, Repeated("a", window - 1)).(ahead := "a" + [LF] + [LF])
    requires d == ReadAll(s, x, [Got(3), Broke], window - 1)
    ensures Dispatched(s, st, answers) == d
  {
    var lines := Repeated("a", window - 1);
    ReadsThrough(s, st, lines, "a" + [LF] + [LF], [Got(3), Broke], answers, 0, window - 1, x, d);
    assert st.(gate := []) == st;
  }

  lemma {:induction false} MergesLines(s: Setup, window: nat)
    requires !s.singleRead && s.msgSize >= 3 && 0 < window < s.fetchLimit && forall n: nat :: s.acks(n) == 0
    ensures var st := Beginning(MergedStream(window), window);
      var d := Dispatched(s, st, MergingReads(window));
      && Ready(s, st) && NulFree(st) && d.Ended? && !Exact(s, Result(s, d))
  {
    var st := Beginning(MergedStream(window), window);
    var answers := MergingReads(window);
    var x := AllEmitted(s, st, Repeated("a", window - 1)).(ahead := "a" + [LF] + [LF]);
    var d := ReadAll(s, x, [Got(3), Broke], window - 1);
    BeforeLastRead(s, window, st, x);
    LeavesLineFeed(s, x, window - 1, d);
    ReadsUpToLast(s, window, st, x, answers, d);
    BeginningIsReady(s, st.ahead, window);
    JoinedNulFree(Repeated("a", window - 1));
    EndExactly(s, st, answers);
  }

  /** The reader's parameters and window at the beginning of a dispatch. */
  ghost predicate Starts(s: Setup, st: State, msgSize: nat, fetchLimit: nat, singleRead: bool, window: int) {
    && s.msgSize == msgSize && s.fetchLimit == fetchLimit && s.singleRead == singleRead
    && st.window == window && Ready(s, st) && NulFree(st)
  }

  /** No dispatch that starts like this ends a stream wrongly. */
  ghost predicate AlwaysExact(msgSize: nat, fetchLimit: nat, singleRead: bool, window: int) {
    forall s: Setup, st: State, answers: seq<Answer> ::
      Starts(s, st, msgSize, fetchLimit, singleRead, window) && Dispatched(s, st, answers).Ended?
      ==> Exact(s, Result(s, Dispatched(s, st, answers)))
  }

  /** The condition can be checked before the dispatch: whatever bytes, reads and
      acknowledgements come, the stream ends right if and only if the reader
      reads once per dispatch, or its window is at least the fetch limit, or its
      buffer has no room for a message and another line. */
  lemma {:induction false} EndsRightExactly(msgSize: nat, fetchLimit: nat, singleRead: bool, window: int)
    requires msgSize >= 1 && fetchLimit >= 1 && window > 0
    ensures AlwaysExact(msgSize, fetchLimit, singleRead, window)
      <==> singleRead || window >= fetchLimit || msgSize < 3
  {
    if singleRead || window >= fetchLimit || msgSize < 3 {
      forall s: Setup, st: State, answers: seq<Answer> |
        Starts(s, st, msgSize, fetchLimit, singleRead, window) && Dispatched(s, st, answers).Ended?
        ensures Exact(s, Result(s, Dispatched(s, st, answers)))
      {
        EndExactly(s, st, answers);
        if !singleRead {
          DispatchDrains(s, st, answers);
        }
      }
    } else {
      var s := Setup(msgSize, fetchLimit, singleRead, false, _ => 0);
      var st := Beginning(MergedStream(window), window);
      MergesLines(s, window);
      assert Starts(s, st, msgSize, fetchLimit, singleRead, window);
      assert Dispatched(s, st, MergingReads(window)).Ended?;
    }
  }
}
