/** What one dispatch of the stream reader of logreader.c does, as a function of
    the bytes, the sizes of the reads and the acknowledgements; and what follows
    from it. The object that does it is in `Reader`. */
module Reading {
  import opened Octets
  import opened Framing
  import opened Pipeline

  /** The outcome of one `fd_read`: up to `count` bytes (no bytes means end of
      file), or -1 with EAGAIN, or -1 with another error. */
  datatype Answer = Got(count: nat) | NotNow | Broke

  /** `acks(n)` acknowledgements arrive while the message number `n` is handed
      on. `singleRead` is LR_NOMREAD, `follow` is LR_FOLLOW. */
  datatype Setup = Setup(msgSize: nat, fetchLimit: nat, singleRead: bool, follow: bool, acks: nat -> nat)

  /** `buf` are the buffered bytes, `complete` is LR_COMPLETE_LINE, `ahead` the
      bytes the descriptor has not delivered yet. `eaten` are the bytes that have
      become messages, `out` these messages, `gate` the window before each
      message of this dispatch. */
  datatype State = State(
    buf: Octets, complete: bool, ahead: Octets, window: int, eaten: Octets, out: seq<Octets>, gate: seq<int>)

  // ---------------------------------------------------------------------
  // Scanning the buffer
  // ---------------------------------------------------------------------

  /** Where the first line ends: at the first NUL, if there is none at the first
      line feed, and if there is neither at the end. */
  function Eol(s: Octets): (k: nat)
    ensures k <= |s|
  {
    var k := IndexOf(s, NUL);
    if k < |s| then k else IndexOf(s, LF)
  }

  predicate HasLine(s: Octets) {
    Eol(s) < |s|
  }

  /** The window closes by one; acknowledgements that arrive meanwhile open it. */
  function HandedOn(s: Setup, st: State, frames: seq<Octets>): State {
    if frames == [] then st
    else st.(window := st.window - 1 + s.acks(|st.out|), out := st.out + frames, gate := st.gate + [st.window])
  }

  /** The first line is taken, with its terminator. */
  function LineTaken(s: Setup, st: State): State
    requires HasLine(st.buf)
  {
    var k := Eol(st.buf);
    HandedOn(s, st, LineFrame(st.buf[..k]))
      .(buf := st.buf[k + 1..], eaten := st.eaten + (st.buf[..k] + [st.buf[k]]))
  }

  /** The whole buffer is taken as one message. */
  function AllTaken(s: Setup, st: State): State {
    HandedOn(s, st, Whole(st.buf)).(buf := [], complete := false, eaten := st.eaten + st.buf)
  }

  datatype Scan = Scan(st: State, count: nat)

  predicate MayScan(s: Setup, count: nat) {
    s.fetchLimit == 0 || count < s.fetchLimit
  }

  /** The scanning loop; `mayRead` is what the last line left. */
  function Scanned(s: Setup, st: State, count: nat, mayRead: bool): Scan
    decreases |st.buf|
  {
    if MayScan(s, count) && HasLine(st.buf) && mayRead then
      var after := LineTaken(s, st);
      Scanned(s, after, count + 1, after.gate == st.gate || after.window > 0)
    else Scan(st.(complete := HasLine(st.buf)), count)
  }

  /** `log_reader_iterate_buf` without the flush. */
  function Iterated(s: Setup, st: State, count: nat): Scan {
    if !HasLine(st.buf) && |st.buf| == s.msgSize then Scan(AllTaken(s, st), count + 1)
    else Scanned(s, st, count, true)
  }

  // ---------------------------------------------------------------------
  // Dispatches
  // ---------------------------------------------------------------------

  /** How many bytes a read delivers: what fits into the buffer and is there. */
  function ReadSize(s: Setup, st: State, count: nat): (rc: nat)
    ensures rc <= count && rc <= |st.ahead|
    ensures |st.buf| <= s.msgSize ==> |st.buf| + rc <= s.msgSize
  {
    var avail := if |st.buf| < s.msgSize then s.msgSize - |st.buf| else 0;
    var most := if count < avail then count else avail;
    if most < |st.ahead| then most else |st.ahead|
  }

  function Received(st: State, rc: nat): State
    requires rc <= |st.ahead|
  {
    st.(buf := st.buf + st.ahead[..rc], ahead := st.ahead[rc..])
  }

  /** A dispatch leaves the reader going, or it meets the end of the file or an
      error in state `before` and hands on what is buffered then. */
  datatype Dispatch = Going(st: State) | Ended(before: State)

  function Result(s: Setup, d: Dispatch): State {
    if d.Going? then d.st else AllTaken(s, d.before)
  }

  predicate Ends(s: Setup, st: State, answer: Answer) {
    answer.Broke? || (answer.Got? && ReadSize(s, st, answer.count) == 0 && !s.follow)
  }

  /** The reading loop of `log_reader_fetch_log`. */
  function ReadAll(s: Setup, st: State, answers: seq<Answer>, count: nat): Dispatch
    decreases |answers|
  {
    if count >= s.fetchLimit || answers == [] || answers[0].NotNow? then Going(st)
    else if Ends(s, st, answers[0]) then Ended(st)
    else
      var i := Iterated(s, Received(st, ReadSize(s, st, answers[0].count)), count);
      if s.singleRead then Going(i.st) else ReadAll(s, i.st, answers[1..], i.count)
  }

  /** `log_reader_fetch_log`. */
  function Dispatched(s: Setup, st: State, answers: seq<Answer>): Dispatch {
    var start := st.(gate := []);
    if st.complete then
      var i := Iterated(s, start, 0);
      if i.st.buf != [] || s.singleRead then Going(i.st) else ReadAll(s, i.st, answers, i.count)
    else ReadAll(s, start, answers, 0)
  }

  // ---------------------------------------------------------------------
  // What is kept
  // ---------------------------------------------------------------------

  predicate NulFree(st: State) {
    NUL !in st.eaten && NUL !in st.buf && NUL !in st.ahead
  }

  /** The messages handed on are exactly those of the bytes eaten. */
  ghost predicate Clean(s: Setup, st: State) {
    s.msgSize >= 1 && (NulFree(st) ==> Frames(st.eaten, s.msgSize) == Cut(st.out, []))
  }

  /** What holds between two rounds of reading. */
  ghost predicate Ready(s: Setup, st: State) {
    Clean(s, st) && |st.buf| < s.msgSize && (st.complete <==> HasLine(st.buf))
  }

  /** The bytes of the stream: eaten, buffered and waiting. */
  function Stream(st: State): Octets {
    st.eaten + (st.buf + st.ahead)
  }

  /** No byte of the stream is lost, repeated or reordered. */
  ghost predicate SameStream(st: State, r: State) {
    Stream(r) == Stream(st)
  }

  lemma {:induction false} StreamNulFree(st: State)
    ensures NulFree(st) <==> NUL !in Stream(st)
  {
    assert NUL in st.buf + st.ahead <==> NUL in st.buf || NUL in st.ahead;
    assert NUL in Stream(st) <==> NUL in st.eaten || NUL in st.buf + st.ahead;
  }

  lemma {:induction false} EolMeans(s: Octets)
    ensures HasLine(s) <==> NUL in s || LF in s
    ensures NUL !in s ==> LF !in s[..Eol(s)]
    ensures NUL !in s && HasLine(s) ==> s[Eol(s)] == LF
  {
    var n, k := IndexOf(s, NUL), IndexOf(s, LF);
    assert n == |s| ==> s[..n] == s;
    assert k == |s| ==> s[..k] == s;
  }

  lemma {:induction false} LineTakenKeeps(s: Setup, st: State)
    requires Clean(s, st) && HasLine(st.buf) && |st.buf| <= s.msgSize
    ensures var r := LineTaken(s, st);
      Clean(s, r) && SameStream(st, r) && r.ahead == st.ahead
  {
    var k := Eol(st.buf);
    var r := LineTaken(s, st);
    var line := st.buf[..k];
    assert st.buf == (line + [st.buf[k]]) + r.buf;
    Join3(st.eaten, line + [st.buf[k]], r.buf + st.ahead);
    Join3(line + [st.buf[k]], r.buf, st.ahead);
    if NulFree(r) {
      assert NUL !in line + [st.buf[k]];
      EolMeans(st.buf);
      LineCut(st.eaten, st.out, line, s.msgSize);
      Join3(st.eaten, line, [LF]);
      HandedOnOut(s, st, LineFrame(line));
    }
  }

  lemma {:induction false} Join3(a: Octets, b: Octets, c: Octets)
    ensures (a + b) + c == a + (b + c)
  {
  }

  lemma {:induction false} HandedOnOut(s: Setup, st: State, frames: seq<Octets>)
    ensures HandedOn(s, st, frames).out == st.out + frames
  {
    assert st.out + [] == st.out;
  }

  /** Scanning eats whole lines from the front and notes whether one is left. */
  lemma {:induction false} ScannedKeeps(s: Setup, st: State, count: nat, mayRead: bool)
    requires Clean(s, st) && |st.buf| <= s.msgSize
    ensures var r := Scanned(s, st, count, mayRead).st;
      && Clean(s, r) && SameStream(st, r) && r.ahead == st.ahead
      && |r.buf| <= |st.buf| && (r.complete <==> HasLine(r.buf))
      && (MayScan(s, count) && HasLine(st.buf) && mayRead ==> |r.buf| < |st.buf|)
    decreases |st.buf|
  {
    if MayScan(s, count) && HasLine(st.buf) && mayRead {
      var after := LineTaken(s, st);
      LineTakenKeeps(s, st);
      ScannedKeeps(s, after, count + 1, after.gate == st.gate || after.window > 0);
    } else {
      assert NulFree(st) <==> NulFree(st.(complete := HasLine(st.buf)));
    }
  }

  /** A full buffer without a whole line is cut off as one message. */
  lemma {:induction false} FullTakenKeeps(s: Setup, st: State)
    requires Clean(s, st) && !HasLine(st.buf) && |st.buf| == s.msgSize
    ensures var r := AllTaken(s, st);
      Clean(s, r) && SameStream(st, r) && r.ahead == st.ahead
  {
    var r := AllTaken(s, st);
    Join3(st.eaten, st.buf, st.ahead);
    assert r.buf + r.ahead == r.ahead;
    if NulFree(r) {
      EolMeans(st.buf);
      FullCut(st.eaten, st.out, st.buf, s.msgSize);
    }
  }

  /** One pass over the buffer leaves it not full, the flag right and the
      messages exact, and shrinks a buffer that held a whole line. */
  lemma {:induction false} IteratedKeeps(s: Setup, st: State, count: nat)
    requires Clean(s, st) && |st.buf| <= s.msgSize && MayScan(s, count)
    ensures var r := Iterated(s, st, count).st;
      && Ready(s, r) && SameStream(st, r) && r.ahead == st.ahead && |r.buf| <= |st.buf|
      && (HasLine(st.buf) ==> |r.buf| < |st.buf|)
  {
    if !HasLine(st.buf) && |st.buf| == s.msgSize {
      FullTakenKeeps(s, st);
    } else {
      ScannedKeeps(s, st, count, true);
    }
  }

  lemma {:induction false} ReceivedKeeps(s: Setup, st: State, rc: nat)
    requires Clean(s, st) && rc <= |st.ahead|
    ensures Clean(s, Received(st, rc)) && SameStream(st, Received(st, rc))
  {
    var r := Received(st, rc);
    assert st.ahead == st.ahead[..rc] + st.ahead[rc..];
    Join3(st.buf, st.ahead[..rc], st.ahead[rc..]);
    assert NUL !in r.buf && NUL !in r.ahead ==> NUL !in st.ahead[..rc] + st.ahead[rc..];
    assert NUL !in r.buf ==> NUL !in st.buf by { assert r.buf[..|st.buf|] == st.buf; }
  }

  /** The bytes that are not yet part of a message. */
  function Pending(st: State): nat {
    |st.buf| + |st.ahead|
  }

  /** The state in which a dispatch leaves the reader, or in which it ended. */
  function Last(d: Dispatch): State {
    if d.Going? then d.st else d.before
  }

  lemma {:induction false} ReadAllKeeps(s: Setup, st: State, answers: seq<Answer>, count: nat)
    requires Ready(s, st)
    ensures var r := Last(ReadAll(s, st, answers, count));
      Ready(s, r) && SameStream(st, r) && Pending(r) <= Pending(st)
    decreases |answers|
  {
    if count < s.fetchLimit && answers != [] && !answers[0].NotNow? && !Ends(s, st, answers[0]) {
      var rc := ReadSize(s, st, answers[0].count);
      var got := Received(st, rc);
      ReceivedKeeps(s, st, rc);
      IteratedKeeps(s, got, count);
      if !s.singleRead {
        var i := Iterated(s, got, count);
        ReadAllKeeps(s, i.st, answers[1..], i.count);
      }
    }
  }

  /** A dispatch keeps the messages exact and the flag right; if it began with a
      whole line it strictly shrinks the bytes that wait. */
  lemma {:induction false} DispatchKeepsReady(s: Setup, st: State, answers: seq<Answer>)
    requires Ready(s, st) && s.fetchLimit >= 1
    ensures var r := Last(Dispatched(s, st, answers));
      && Ready(s, r) && SameStream(st, r) && Pending(r) <= Pending(st)
      && (st.complete ==> Pending(r) < Pending(st))
  {
    var start := st.(gate := []);
    assert NulFree(start) <==> NulFree(st);
    if st.complete {
      IteratedKeeps(s, start, 0);
      var i := Iterated(s, start, 0);
      ReadAllKeeps(s, i.st, answers, i.count);
    } else {
      ReadAllKeeps(s, start, answers, 0);
    }
  }

  // ---------------------------------------------------------------------
  // The window
  // ---------------------------------------------------------------------

  /** The window was open before each of the messages. */
  ghost predicate AllOpen(gate: seq<int>) {
    forall k :: 0 <= k < |gate| ==> gate[k] > 0
  }

  /** The windows noted before the messages of a dispatch, and the window now. */
  function WindowsOf(st: State): seq<int> {
    st.gate + [st.window]
  }

  /** The window noted after message `k` is the one before it, less one, plus the
      acknowledgements that arrived while that message was handed on. */
  ghost predicate Follows(s: Setup, st: State, r: State, k: int)
    requires |st.gate| <= k < |r.gate|
  {
    WindowsOf(r)[k + 1] == WindowsOf(r)[k] - 1 + s.acks(|st.out| + (k - |st.gate|))
  }

  /** From `st` to `r` at most `most` messages were handed on, each noted with
      the window before it: the first one with the window of `st`, and each other
      one with what the message before it left. */
  ghost predicate Passed(s: Setup, st: State, r: State, most: int) {
    && st.out <= r.out && st.gate <= r.gate
    && |r.out| - |st.out| == |r.gate| - |st.gate| <= most
    && WindowsOf(r)[|st.gate|] == st.window
    && forall k :: |st.gate| <= k < |r.gate| ==> Follows(s, st, r, k)
  }

  lemma {:induction false} PassedTwice(s: Setup, a: State, b: State, c: State, first: int, second: int)
    requires Passed(s, a, b, first) && Passed(s, b, c, second)
    ensures Passed(s, a, c, first + second)
  {
    assert WindowsOf(c)[..|b.gate| + 1] == WindowsOf(b);
    forall k | |a.gate| <= k < |c.gate| ensures Follows(s, a, c, k) {
      if k < |b.gate| {
        assert Follows(s, a, b, k);
        assert WindowsOf(c)[k + 1] == WindowsOf(c)[..|b.gate| + 1][k + 1];
      } else {
        assert Follows(s, b, c, k);
      }
    }
  }

  lemma {:induction false} PassedSame(s: Setup, a: State, b: State, r: State, most: int)
    requires Passed(s, a, r, most) && b.out == a.out && b.gate == a.gate && b.window == a.window
    ensures Passed(s, b, r, most)
  {
    forall k | |b.gate| <= k < |r.gate| ensures Follows(s, b, r, k) {
      assert Follows(s, a, r, k);
    }
  }

  lemma {:induction false} ScannedCounts(s: Setup, st: State, count: nat, mayRead: bool, r: Scan)
    requires r == Scanned(s, st, count, mayRead)
    ensures count <= r.count
    ensures s.fetchLimit > 0 ==> r.count <= count || r.count <= s.fetchLimit
    decreases |st.buf|
  {
    if MayScan(s, count) && HasLine(st.buf) && mayRead {
      var after, next := LineTaken(s, st), count + 1;
      ScannedCounts(s, after, next, after.gate == st.gate || after.window > 0, r);
    }
  }

  lemma {:induction false} LineTakenPasses(s: Setup, st: State)
    requires HasLine(st.buf)
    ensures Passed(s, st, LineTaken(s, st), 1)
    ensures AllOpen(st.gate) && st.window > 0 ==> AllOpen(LineTaken(s, st).gate)
    ensures LineTaken(s, st).gate == st.gate ==> LineTaken(s, st).window == st.window
  {
  }

  lemma {:induction false} ScannedPasses(s: Setup, st: State, count: nat, mayRead: bool)
    ensures var r := Scanned(s, st, count, mayRead);
      && Passed(s, st, r.st, r.count - count)
      && (AllOpen(st.gate) && (mayRead ==> st.window > 0) ==> AllOpen(r.st.gate))
    decreases |st.buf|
  {
    if MayScan(s, count) && HasLine(st.buf) && mayRead {
      var after := LineTaken(s, st);
      var may := after.gate == st.gate || after.window > 0;
      LineTakenPasses(s, st);
      ScannedPasses(s, after, count + 1, may);
      var r := Scanned(s, after, count + 1, may);
      PassedTwice(s, st, after, r.st, 1, r.count - (count + 1));
    }
  }

  lemma {:induction false} IteratedPasses(s: Setup, st: State, count: nat)
    requires MayScan(s, count)
    ensures var r := Iterated(s, st, count);
      && Passed(s, st, r.st, r.count - count) && count <= r.count
      && (s.fetchLimit > 0 ==> r.count <= s.fetchLimit)
      && (AllOpen(st.gate) && st.window > 0 ==> AllOpen(r.st.gate))
  {
    ScannedCounts(s, st, count, true, Scanned(s, st, count, true));
    ScannedPasses(s, st, count, true);
  }

  lemma {:induction false} ReadAllPasses(s: Setup, st: State, answers: seq<Answer>, count: nat)
    requires count <= s.fetchLimit
    ensures var r := Result(s, ReadAll(s, st, answers, count));
      && Passed(s, st, r, s.fetchLimit - count)
      && (s.singleRead && AllOpen(st.gate) && st.window > 0 ==> AllOpen(r.gate))
    decreases |answers|
  {
    if count < s.fetchLimit && answers != [] && !answers[0].NotNow? && !Ends(s, st, answers[0]) {
      var got := Received(st, ReadSize(s, st, answers[0].count));
      var i := Iterated(s, got, count);
      IteratedPasses(s, got, count);
      PassedSame(s, got, st, i.st, i.count - count);
      if !s.singleRead {
        ReadAllPasses(s, i.st, answers[1..], i.count);
        var r := Result(s, ReadAll(s, i.st, answers[1..], i.count));
        PassedTwice(s, st, i.st, r, i.count - count, s.fetchLimit - i.count);
      }
    }
  }

  /** A dispatch that begins with an open window emits at most `fetch_limit`
      messages, the first one with an open window, and with a single read every
      one with an open window. Each message closes the window by one. */
  lemma {:induction false} DispatchObeysGate(s: Setup, st: State, answers: seq<Answer>)
    requires s.fetchLimit >= 1 && st.window > 0
    ensures var r := Result(s, Dispatched(s, st, answers));
      && GateOk(r.gate, s.fetchLimit, s.singleRead)
      && Passed(s, st.(gate := []), r, s.fetchLimit)
      && st.out <= r.out && |r.out| == |st.out| + |r.gate|
  {
    var start := st.(gate := []);
    if st.complete {
      IteratedPasses(s, start, 0);
      var i := Iterated(s, start, 0);
      ReadAllPasses(s, i.st, answers, i.count);
      PassedTwice(s, start, i.st, Result(s, ReadAll(s, i.st, answers, i.count)), i.count, s.fetchLimit - i.count);
    } else {
      ReadAllPasses(s, start, answers, 0);
    }
  }

  // ---------------------------------------------------------------------
  // Between the bytes read and the messages
  // ---------------------------------------------------------------------

  /** The bytes read so far. */
  function Read(st: State): Octets {
    st.eaten + st.buf
  }

  /** As long as no whole line is buffered, the messages handed on are those of
      all the bytes read: however the reads were sized, and wherever the fetch
      limit or the window stopped the scanning. */
  lemma {:induction false} Drained(s: Setup, st: State)
    requires Ready(s, st) && NulFree(st) && !st.complete
    ensures Frames(Read(st), s.msgSize) == Cut(st.out, st.buf)
  {
    EolMeans(st.buf);
    DrainedIsSpec(st.eaten, st.out, st.buf, s.msgSize);
  }

  /** The messages of a stream that ended are those of the bytes read. */
  ghost predicate Exact(s: Setup, r: State) {
    s.msgSize >= 1 && FinalFrames(r.eaten, s.msgSize) == r.out
  }

  /** The flush at the end of the stream is right exactly if no whole line is
      buffered when it happens. */
  lemma {:induction false} FlushIsExact(s: Setup, st: State)
    requires Ready(s, st) && NulFree(st)
    ensures Exact(s, AllTaken(s, st)) <==> !st.complete
  {
    EolMeans(st.buf);
    FlushExact(st.eaten, st.out, st.buf, s.msgSize);
    HandedOnOut(s, st, Whole(st.buf));
  }

  // ---------------------------------------------------------------------
  // When the end of the stream is right
  // ---------------------------------------------------------------------

  /** A scan that stops with a whole line left, short of the fetch limit, was
      stopped by the window: it closed after a message. */
  lemma {:induction false} StoppedByWindow(s: Setup, st: State, count: nat, mayRead: bool)
    requires mayRead || st.window <= 0
    ensures var r := Scanned(s, st, count, mayRead);
      MayScan(s, r.count) && HasLine(r.st.buf) ==> r.st.window <= 0
    decreases |st.buf|
  {
    if MayScan(s, count) && HasLine(st.buf) && mayRead {
      var after := LineTaken(s, st);
      StoppedByWindow(s, after, count + 1, after.gate == st.gate || after.window > 0);
    }
  }

  lemma {:induction false} ReadAllCause(s: Setup, st: State, answers: seq<Answer>, count: nat)
    requires Ready(s, st) && (st.complete && count < s.fetchLimit ==> !s.singleRead && st.window <= 0)
    ensures var d := ReadAll(s, st, answers, count);
      d.Ended? && d.before.complete ==> !s.singleRead && d.before.window <= 0
    decreases |answers|
  {
    if count < s.fetchLimit && answers != [] && !answers[0].NotNow? && !Ends(s, st, answers[0]) {
      var rc := ReadSize(s, st, answers[0].count);
      var got := Received(st, rc);
      ReceivedKeeps(s, st, rc);
      IteratedKeeps(s, got, count);
      StoppedByWindow(s, got, count, true);
      if !s.singleRead {
        var i := Iterated(s, got, count);
        ReadAllCause(s, i.st, answers[1..], i.count);
      }
    }
  }

  /** The exact cause of a wrong end: a whole line is still buffered, which can
      only be with several reads and a window that is not open then. A reader that
      reads once per dispatch always ends right. */
  lemma {:induction false} EndExactly(s: Setup, st: State, answers: seq<Answer>)
    requires Ready(s, st) && NulFree(st) && s.fetchLimit >= 1
    ensures var d := Dispatched(s, st, answers);
      d.Ended? ==>
        && (Exact(s, Result(s, d)) <==> !d.before.complete)
        && (d.before.complete ==> !s.singleRead && d.before.window <= 0)
  {
    var start := st.(gate := []);
    assert NulFree(start) <==> NulFree(st);
    DispatchKeepsReady(s, st, answers);
    if st.complete {
      IteratedKeeps(s, start, 0);
      var i := Iterated(s, start, 0);
      if i.st.buf == [] && !s.singleRead {
        ReadAllCause(s, i.st, answers, i.count);
      }
    } else {
      ReadAllCause(s, start, answers, 0);
    }
    var d := Dispatched(s, st, answers);
    if d.Ended? {
      StreamNulFree(st);
      StreamNulFree(d.before);
      FlushIsExact(s, d.before);
    }
  }
}
