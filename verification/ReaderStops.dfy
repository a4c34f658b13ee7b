/** When a dispatch of the stream reader goes on, stops or ends: what each answer
    of the descriptor leads to, and what a closed window or the fetch limit leaves
    in the buffer. */
module ReaderStops {
  import opened Octets
  import opened Framing
  import opened Reading
  import opened EndOfStream

  // ---------------------------------------------------------------------
  // The end of the file
  // ---------------------------------------------------------------------

  lemma {:induction false} FollowedReadAll(s: Setup, st: State, answers: seq<Answer>, count: nat)
    requires s.follow && Broke !in answers
    ensures ReadAll(s, st, answers, count).Going?
    decreases |answers|
  {
    if count < s.fetchLimit && answers != [] && !answers[0].NotNow? && !s.singleRead {
      var i := Iterated(s, Received(st, ReadSize(s, st, answers[0].count)), count);
      FollowedReadAll(s, i.st, answers[1..], i.count);
    }
  }

  /** A followed file has no end: only an error ends a dispatch. */
  lemma {:induction false} FollowedNeverEnds(s: Setup, st: State, answers: seq<Answer>)
    requires s.follow && Broke !in answers
    ensures Dispatched(s, st, answers).Going?
  {
    var start := st.(gate := []);
    FollowedReadAll(s, start, answers, 0);
    if st.complete {
      var i := Iterated(s, start, 0);
      FollowedReadAll(s, i.st, answers, i.count);
    }
  }

  /** A followed file at its end leaves everything as it is. */
  lemma {:induction false} FollowedEofWaits(s: Setup, st: State, n: nat)
    requires s.follow && Ready(s, st) && !st.complete && st.ahead == [] && s.fetchLimit >= 1
    ensures Dispatched(s, st, [Got(n)]) == Going(st.(gate := []))
  {
    var start := st.(gate := []);
    assert Received(start, 0) == start by { assert st.buf + [] == st.buf; }
    assert Iterated(s, start, 0) == Scan(start, 0);
    OneAnswer(s, start, Got(n), 0, start, 0);
  }

  /** The answers that end a dispatch: an error, and a read of nothing unless the
      file is followed. EAGAIN does not. */
  predicate IsEnd(s: Setup, ahead: Octets, answer: Answer) {
    answer == Broke || (!s.follow && answer.Got? && (answer.count == 0 || ahead == []))
  }

  /** Before the fetch limit is reached, with a buffer that is not full, the
      answer decides. */
  lemma {:induction false} EndsExactly(s: Setup, st: State, answer: Answer, more: seq<Answer>, count: nat)
    requires |st.buf| < s.msgSize && count < s.fetchLimit
    ensures IsEnd(s, st.ahead, answer) ==> ReadAll(s, st, [answer] + more, count) == Ended(st)
    ensures answer == NotNow ==> ReadAll(s, st, [answer] + more, count) == Going(st)
    ensures ReadAll(s, st, [answer], count).Ended? ==> IsEnd(s, st.ahead, answer)
  {
    assert ([answer] + more)[0] == answer;
    if answer.Got? && !IsEnd(s, st.ahead, answer) {
      var i := Iterated(s, Received(st, ReadSize(s, st, answer.count)), count);
      OneAnswer(s, st, answer, count, i.st, i.count);
    }
  }

  lemma {:induction false} OneAnswer(s: Setup, st: State, answer: Answer, count: nat, end: State, total: nat)
    requires count < s.fetchLimit && answer.Got? && !Ends(s, st, answer)
    requires Iterated(s, Received(st, ReadSize(s, st, answer.count)), count) == Scan(end, total)
    ensures ReadAll(s, st, [answer], count) == Going(end)
  {
    assert [answer][1..] == [];
    assert ReadAll(s, end, [], total) == Going(end);
  }

  /** A dispatch that begins without a whole line starts with a read. */
  lemma {:induction false} EndsDispatch(s: Setup, st: State, answer: Answer, more: seq<Answer>)
    requires Ready(s, st) && !st.complete && s.fetchLimit >= 1
    ensures IsEnd(s, st.ahead, answer) ==> Dispatched(s, st, [answer] + more) == Ended(st.(gate := []))
    ensures answer == NotNow ==> Dispatched(s, st, [answer] + more) == Going(st.(gate := []))
    ensures Dispatched(s, st, [answer]).Ended? ==> IsEnd(s, st.ahead, answer)
  {
    EndsExactly(s, st.(gate := []), answer, more, 0);
  }

  /** Both for any answers. */
  lemma {:induction false} EndsOrNot(s: Setup, st: State, answers: seq<Answer>)
    requires Ready(s, st) && s.fetchLimit >= 1
    ensures s.follow && Broke !in answers ==> Dispatched(s, st, answers).Going?
    ensures !st.complete && answers != [] && IsEnd(s, st.ahead, answers[0]) ==> Dispatched(s, st, answers).Ended?
  {
    if s.follow && Broke !in answers {
      FollowedNeverEnds(s, st, answers);
    }
    if !st.complete && answers != [] {
      EndsDispatch(s, st, answers[0], answers[1..]);
      assert [answers[0]] + answers[1..] == answers;
    }
  }

  /** A reader with one read per dispatch uses one answer. */
  lemma {:induction false} OneReadOnly(s: Setup, st: State, answer: Answer, more: seq<Answer>)
    requires s.singleRead
    ensures Dispatched(s, st, [answer] + more) == Dispatched(s, st, [answer])
    ensures st.complete ==> Dispatched(s, st, [answer]).Going? && Dispatched(s, st, [answer]).st.ahead == st.ahead
  {
    assert ([answer] + more)[0] == answer;
    if st.complete {
      ScannedAhead(s, st.(gate := []), 0, true);
    }
  }

  lemma {:induction false} ScannedAhead(s: Setup, st: State, count: nat, mayRead: bool)
    ensures Scanned(s, st, count, mayRead).st.ahead == st.ahead
    decreases |st.buf|
  {
    if MayScan(s, count) && HasLine(st.buf) && mayRead {
      var after := LineTaken(s, st);
      ScannedAhead(s, after, count + 1, after.gate == st.gate || after.window > 0);
    }
  }

  // ---------------------------------------------------------------------
  // The closed window and the fetch limit
  // ---------------------------------------------------------------------

  /** After `k` messages the window is closed, or the fetch limit is reached. */
  ghost predicate Stops(s: Setup, ws: seq<int>, k: nat, count: nat) {
    && |ws| == k + 1 && 0 < k
    && (forall i :: 0 < i < k ==> ws[i] > 0)
    && count + k <= s.fetchLimit && (ws[k] <= 0 || count + k == s.fetchLimit)
  }

  lemma {:induction false} JoinedHasLine(lines: seq<Octets>)
    requires AreTexts(lines) && lines != []
    ensures HasLine(Joined(lines))
  {
    JoinedNulFree(lines[1..]);
    EolOfLine(lines[0], Joined(lines[1..]));
  }

  lemma {:induction false} ScansUpTo(
    s: Setup, st: State, lines: seq<Octets>, tail: Octets, ws: seq<int>, count: nat, total: nat, end: State)
    requires AreTexts(lines) && st.buf == Joined(lines) + tail && NUL !in tail && HasLine(tail)
    requires Through(s, st, ws, |lines|) && Stops(s, ws, |lines|, count) && total == count + |lines|
    requires end == AllEmitted(s, st, lines).(buf := tail, complete := true)
    ensures Scanned(s, st, count, true) == Scan(end, total)
    decreases |lines|
  {
    var next := count + 1;
    var after := TakesFirst(s, st, lines, tail, ws, count, next, end);
    if |lines| == 1 {
      StoppedHere(s, after, next);
    } else {
      var more, later := lines[1..], ws[1..];
      ScansUpTo(s, after, more, tail, later, next, total, end);
      assert Scanned(s, after, next, after.window > 0) == Scanned(s, after, next, true);
    }
  }

  lemma {:induction false} TakesFirst(
    s: Setup, st: State, lines: seq<Octets>, tail: Octets, ws: seq<int>, count: nat, next: nat, end: State)
    returns (after: State)
    requires AreTexts(lines) && st.buf == Joined(lines) + tail && NUL !in tail && HasLine(tail)
    requires Through(s, st, ws, |lines|) && Stops(s, ws, |lines|, count) && next == count + 1
    requires end == AllEmitted(s, st, lines).(buf := tail, complete := true)
    ensures after.buf == Joined(lines[1..]) + tail && after.window == ws[1]
    ensures Scanned(s, st, count, true) == Scanned(s, after, next, after.window > 0)
    ensures |lines| == 1 ==> end == after.(buf := tail, complete := true) && after.buf == tail
    ensures |lines| > 1 ==>
      && end == AllEmitted(s, after, lines[1..]).(buf := tail, complete := true) && after.window > 0
      && Through(s, after, ws[1..], |lines| - 1) && Stops(s, ws[1..], |lines| - 1, next)
  {
    var line, later := lines[0], Joined(lines[1..]) + tail;
    JoinedNulFree(lines[1..]);
    JoinedFirst(lines, tail);
    after := ScansOne(s, st, line, later, count);
    EndBehind(s, st, lines, later, tail, after, end);
    ThroughTail(s, st, after, ws, |lines|);
    if |lines| > 1 {
      StopsTail(s, ws, |lines|, count);
    }
  }

  lemma {:induction false} EndBehind(
    s: Setup, st: State, lines: seq<Octets>, later: Octets, tail: Octets, after: State, end: State)
    requires lines != [] && after == Emitted(s, st, lines[0]).(buf := later)
    requires end == AllEmitted(s, st, lines).(buf := tail, complete := true)
    ensures end == AllEmitted(s, after, lines[1..]).(buf := tail, complete := true)
    ensures |lines| == 1 ==> end == after.(buf := tail, complete := true)
  {
    EmittedApart(s, Emitted(s, st, lines[0]), lines[1..], later, st.ahead);
  }

  lemma {:induction false} ScansOne(s: Setup, st: State, line: Octets, rest: Octets, count: nat) returns (after: State)
    requires IsText(line) && NUL !in rest && st.buf == line + [LF] + rest && count < s.fetchLimit
    ensures after == Emitted(s, st, line).(buf := rest)
    ensures after.window == st.window - 1 + s.acks(|st.out|) && |after.out| == |st.out| + 1
    ensures Scanned(s, st, count, true) == Scanned(s, after, count + 1, after.window > 0)
  {
    TakesLine(s, st, line, rest);
    after := LineTaken(s, st);
  }

  lemma {:induction false} JoinedFirst(lines: seq<Octets>, tail: Octets)
    requires lines != []
    ensures Joined(lines) + tail == lines[0] + [LF] + (Joined(lines[1..]) + tail)
    ensures |lines| == 1 ==> Joined(lines[1..]) + tail == tail
  {
  }

  lemma {:induction false} StoppedHere(s: Setup, st: State, count: nat)
    requires HasLine(st.buf) && (st.window <= 0 || count == s.fetchLimit > 0)
    ensures Scanned(s, st, count, st.window > 0) == Scan(st.(complete := true), count)
  {
  }

  lemma {:induction false} StopsTail(s: Setup, ws: seq<int>, k: nat, count: nat)
    requires k > 1 && Stops(s, ws, k, count)
    ensures Stops(s, ws[1..], k - 1, count + 1) && ws[1] > 0
  {
  }

  /** Of the lines in the buffer a dispatch hands on only as many as the window and
      the fetch limit allow; what is behind them stays, nothing is read, and the next
      dispatch begins with it. */
  lemma {:induction false} WindowStops(
    s: Setup, st: State, lines: seq<Octets>, tail: Octets, ws: seq<int>, answers: seq<Answer>)
    requires AreTexts(lines) && st.buf == Joined(lines) + tail && NUL !in tail && HasLine(tail) && st.complete
    requires Through(s, st, ws, |lines|) && Stops(s, ws, |lines|, 0)
    ensures var n := |lines|;
      Dispatched(s, st, answers)
      == Going(State(tail, true, st.ahead, ws[n], st.eaten + Joined(lines), st.out + Trimmed(lines), ws[..n]))
  {
    var start := st.(gate := []);
    var end := AllEmitted(s, start, lines).(buf := tail, complete := true);
    WindowIterates(s, start, lines, tail, ws, end);
    EmittedThrough(s, start, lines, ws);
    EmittedApart(s, start, lines, start.buf, start.ahead);
    assert [] + ws[..|lines|] == ws[..|lines|];
  }

  lemma {:induction false} WindowIterates(
    s: Setup, st: State, lines: seq<Octets>, tail: Octets, ws: seq<int>, end: State)
    requires AreTexts(lines) && st.buf == Joined(lines) + tail && NUL !in tail && HasLine(tail)
    requires Through(s, st, ws, |lines|) && Stops(s, ws, |lines|, 0)
    requires end == AllEmitted(s, st, lines).(buf := tail, complete := true)
    ensures Iterated(s, st, 0) == Scan(end, |lines|)
  {
    JoinedFirst(lines, tail);
    JoinedNulFree(lines[1..]);
    EolOfLine(lines[0], Joined(lines[1..]) + tail);
    ScansUpTo(s, st, lines, tail, ws, 0, |lines|, end);
  }

  // ---------------------------------------------------------------------
  // Lines in the buffer, then reads
  // ---------------------------------------------------------------------

  /** What a dispatch makes of lines in the buffer followed by lines it reads. */
  function Handed(st: State, kept: seq<Octets>, lines: seq<Octets>, rest: Octets, ws: seq<int>): State
    requires |ws| == |kept| + |lines| + 1
  {
    var n := |kept| + |lines|;
    State([], false, rest, ws[n], st.eaten + Joined(kept + lines), st.out + Trimmed(kept + lines), ws[..n])
  }

  lemma {:induction false} EmittedTogether(s: Setup, st: State, a: seq<Octets>, b: seq<Octets>)
    ensures AllEmitted(s, AllEmitted(s, st, a), b) == AllEmitted(s, st, a + b)
    decreases |a|
  {
    if a == [] {
      assert a + b == b;
    } else {
      assert (a + b)[0] == a[0] && (a + b)[1..] == a[1..] + b;
      EmittedTogether(s, Emitted(s, st, a[0]), a[1..], b);
    }
  }

  /** A reader with several reads per dispatch that begins with whole lines hands
      them on and then goes on reading: one line for each read, until EAGAIN, an
      error, or the end of a file that is not followed. */
  lemma {:induction false} GoesOnReading(
    s: Setup, st: State, kept: seq<Octets>, lines: seq<Octets>, rest: Octets, ws: seq<int>, last: Answer)
    requires !s.singleRead && AreTexts(kept) && AreTexts(lines) && kept != []
    requires |kept| + |lines| < s.fetchLimit && forall k :: 0 <= k < |lines| ==> |lines[k]| < s.msgSize
    requires st.buf == Joined(kept) && st.complete && st.ahead == Joined(lines) + rest && s.msgSize >= 1
    requires Through(s, st, ws, |kept| + |lines|) && forall k :: 0 < k < |kept| ==> ws[k] > 0
    ensures IsEnd(s, rest, last) ==>
      Dispatched(s, st, Sizes(lines) + [last]) == Ended(Handed(st, kept, lines, rest, ws))
    ensures last == NotNow ==>
      Dispatched(s, st, Sizes(lines) + [last]) == Going(Handed(st, kept, lines, rest, ws))
  {
    var start := st.(gate := [], complete := false);
    var mid := AllEmitted(s, start, kept).(buf := []);
    var end := AllEmitted(s, mid, lines).(ahead := rest);
    var n := |kept| + |lines|;
    KeptLines(s, st, kept, ws[..|kept| + 1]);
    EmittedApart(s, start, kept, [], st.ahead);
    HandedOnAll(s, st, kept, lines, rest, ws, start, mid, end);
    ReadsThen(s, mid, lines, rest, last, |kept|, n, end);
    assert Dispatched(s, st, Sizes(lines) + [last]) == ReadAll(s, mid, Sizes(lines) + [last], |kept|);
  }

  lemma {:induction false} ReadsThen(
    s: Setup, st: State, lines: seq<Octets>, rest: Octets, last: Answer, count: nat, total: nat, end: State)
    requires !s.singleRead && AreTexts(lines) && total == count + |lines| < s.fetchLimit && s.msgSize >= 1
    requires forall k :: 0 <= k < |lines| ==> |lines[k]| < s.msgSize
    requires st.buf == [] && !st.complete && st.ahead == Joined(lines) + rest
    requires end == AllEmitted(s, st, lines).(ahead := rest)
    ensures IsEnd(s, rest, last) ==> ReadAll(s, st, Sizes(lines) + [last], count) == Ended(end)
    ensures last == NotNow ==> ReadAll(s, st, Sizes(lines) + [last], count) == Going(end)
  {
    ReadsThrough(s, st, lines, rest, [last], Sizes(lines) + [last], count, total, end, ReadAll(s, end, [last], total));
    EmittedApart(s, st, lines, [], st.ahead);
    EndsExactly(s, end, last, [], total);
    assert [last] + [] == [last];
  }

  lemma {:induction false} HandedOnAll(
    s: Setup, st: State, kept: seq<Octets>, lines: seq<Octets>, rest: Octets, ws: seq<int>,
    start: State, mid: State, end: State)
    requires AreTexts(kept) && AreTexts(lines) && Through(s, st, ws, |kept| + |lines|)
    requires start == st.(gate := [], complete := false) && mid == AllEmitted(s, start, kept).(buf := [])
    requires end == AllEmitted(s, mid, lines).(ahead := rest)
    ensures end == Handed(st, kept, lines, rest, ws)
  {
    var all := kept + lines;
    EmittedApart(s, AllEmitted(s, start, kept), lines, [], start.ahead);
    EmittedApart(s, start, kept, start.buf, start.ahead);
    EmittedTogether(s, start, kept, lines);
    EmittedThrough(s, start, all, ws);
    EmittedApart(s, start, all, start.buf, start.ahead);
    assert [] + ws[..|all|] == ws[..|all|];
  }

  lemma {:induction false} KeptLines(s: Setup, st: State, kept: seq<Octets>, ws: seq<int>)
    requires AreTexts(kept) && kept != [] && |kept| <= s.fetchLimit && st.buf == Joined(kept)
    requires Through(s, st, ws, |kept|) && forall k :: 0 < k < |kept| ==> ws[k] > 0
    ensures var start := st.(gate := []);
      Iterated(s, start, 0)
        == Scan(AllEmitted(s, start.(complete := false), kept).(buf := []), |kept|)
  {
    var start := st.(gate := []);
    var open := start.(complete := false);
    var end := AllEmitted(s, open, kept).(buf := []);
    IteratesLines(s, open, kept, ws, end);
    JoinedHasLine(kept);
    ScannedFlag(s, start, 0, true, false);
  }

  /** The flag a scan begins with does not matter. */
  lemma {:induction false} ScannedFlag(s: Setup, st: State, count: nat, mayRead: bool, flag: bool)
    ensures Scanned(s, st.(complete := flag), count, mayRead) == Scanned(s, st, count, mayRead)
    decreases |st.buf|
  {
    if MayScan(s, count) && HasLine(st.buf) && mayRead {
      var after := LineTaken(s, st);
      assert LineTaken(s, st.(complete := flag)) == after.(complete := flag);
      ScannedFlag(s, after, count + 1, after.gate == st.gate || after.window > 0, flag);
    }
  }

  // ---------------------------------------------------------------------
  // NUL bytes
  // ---------------------------------------------------------------------

  /** A NUL in the buffer ends the first line, line feeds before it or not. */
  lemma {:induction false} NulEndsFirst(s: Setup, st: State, line: Octets, rest: Octets)
    requires NUL !in line && st.buf == line + [NUL] + rest
    ensures HasLine(st.buf) && LineTaken(s, st).buf == rest
    ensures LineTaken(s, st).out == st.out + if Trim(line) == [] then [] else [Trim(line)]
  {
    assert st.buf[..|line|] == line && st.buf[|line|] == NUL && st.buf[|line| + 1..] == rest;
    IndexOfUnique(st.buf, NUL, |line|);
    HandedOnOut(s, st, LineFrame(line));
  }
}
