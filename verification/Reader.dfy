/** The stream reader of logreader.c: bytes are read into a fixed buffer and cut
    into messages in place, under a buffer size, a fetch limit and the window of
    flow control. Stream mode: neither packet-terminated nor padded. Every method
    is proved to do what `Reading` specifies. */
module Reader {
  import opened Octets
  import opened Framing
  import opened Pipeline
  import opened Reading
  import opened EndOfStream
  import opened ReaderStops

  class LogReader {
    const msgSize: nat
    const fetchLimit: nat
    const singleRead: bool  // LR_NOMREAD
    const follow: bool      // LR_FOLLOW
    const acks: nat -> nat  // acknowledgements while a message is handed on
    const file: Octets      // all the bytes the descriptor will ever deliver
    const buffer: array<char>
    var ofs: nat
    var completeLine: bool  // LR_COMPLETE_LINE
    var readPos: nat        // how much of `file` the descriptor has delivered
    var window: int
    var out: seq<Octets>    // the messages handed on so far

    ghost var origin: nat         // where reading started
    ghost var eaten: Octets       // the bytes that have become messages
    ghost var gate: seq<int>      // the window before each message of this dispatch

    ghost function Setup(): Setup {
      Reading.Setup(msgSize, fetchLimit, singleRead, follow, acks)
    }

    ghost predicate Sized()
      reads this
    {
      buffer.Length == msgSize >= 1 && ofs <= msgSize && readPos <= |file|
    }

    /** The reader when the first `start` bytes of the buffer have been taken. */
    ghost function ViewFrom(start: nat): State
      requires Sized() && start <= ofs
      reads this, buffer
    {
      State(buffer[start..ofs], completeLine, file[readPos..], window, eaten, out, gate)
    }

    ghost function View(): State
      requires Sized()
      reads this, buffer
    {
      ViewFrom(0)
    }

    /** What holds between two dispatches. The buffer holds exactly the bytes that
        were read and are not yet part of a message. */
    ghost predicate Ready()
      reads this, buffer
    {
      && Sized() && origin <= |file| && Stream(View()) == file[origin..]
      && Reading.Ready(Setup(), View())
    }

    constructor (file: Octets, msgSize: nat, fetchLimit: nat, singleRead: bool, follow: bool, window: int,
                 acks: nat -> nat)
      requires msgSize >= 1
      ensures Ready() && View() == Beginning(file, window) && origin == readPos == 0 && fresh(buffer)
      ensures this.file == file && Setup() == Reading.Setup(msgSize, fetchLimit, singleRead, follow, acks)
    {
      this.file, this.msgSize, this.fetchLimit := file, msgSize, fetchLimit;
      this.singleRead, this.follow, this.window, this.acks := singleRead, follow, window, acks;
      buffer := new char[msgSize];
      ofs, completeLine, readPos := 0, false, 0;
      origin, eaten, out, gate := 0, [], [], [];
      new;
      BeginningIsReady(Setup(), file, window);
      assert buffer[0..0] == [] && file[0..] == file;
    }

    /** Acknowledgements between two dispatches. */
    method Acknowledge(n: nat)
      requires Ready()
      modifies `window
      ensures Ready() && View() == old(View()).(window := old(window) + n)
    {
      window := window + n;
      assert NulFree(View()) <==> NulFree(old(View()));
    }

    // -------------------------------------------------------------------
    // Scanning
    // -------------------------------------------------------------------

    /** memchr over `buffer[from..to]`; `to` if `c` does not occur. */
    method MemChr(from: nat, to: nat, c: char) returns (k: nat)
      requires from <= to <= buffer.Length
      ensures from <= k <= to && k - from == IndexOf(buffer[from..to], c)
    {
      k := from;
      while k < to && buffer[k] != c
        invariant from <= k <= to
        invariant c !in buffer[from..k]
      {
        k := k + 1;
      }
      assert buffer[from..to][..k - from] == buffer[from..k];
      IndexOfUnique(buffer[from..to], c, k - from);
    }

    /** The end of the next line: the first NUL if there is one, otherwise the
        first line feed; `to` if there is neither. */
    method FindEol(from: nat, to: nat) returns (eol: nat)
      requires from <= to <= buffer.Length
      ensures from <= eol <= to && eol - from == Eol(buffer[from..to])
    {
      eol := MemChr(from, to, NUL);
      if eol == to {
        eol := MemChr(from, to, LF);
      }
    }

    /** The end of the line `buffer[start..eol]` without line-ending characters. */
    method LineEnd(start: nat, eol: nat) returns (end: nat)
      requires start <= eol <= buffer.Length
      ensures start <= end <= eol && buffer[start..end] == Trim(buffer[start..eol])
    {
      end := eol;
      while end > start && (buffer[end - 1] == CR || buffer[end - 1] == LF || buffer[end - 1] == NUL)
        invariant start <= end <= eol
        invariant Trim(buffer[start..end]) == Trim(buffer[start..eol])
      {
        assert buffer[start..end][..end - start - 1] == buffer[start..end - 1];
        end := end - 1;
      }
    }

    /** Hands a line on. The window closes by one; acknowledgements that arrive
        before this returns open it again. */
    method HandleLine(start: nat, end: nat) returns (free: bool)
      requires start <= end <= buffer.Length
      modifies `window, `out, `gate
      ensures out == old(out) + [buffer[start..end]] && gate == old(gate) + [old(window)]
      ensures window == old(window) - 1 + acks(|old(out)|)
      ensures free <==> window > 0
    {
      gate := gate + [window];
      window := window - 1 + acks(|out|);
      out := out + [buffer[start..end]];
      free := window > 0;
    }

    lemma {:induction false} BufferSplit(start: nat, eol: nat)
      requires Sized() && start <= eol < ofs
      ensures var buf := buffer[start..ofs];
        && buf[..eol - start] == buffer[start..eol] && buf[eol - start] == buffer[eol]
        && buf[eol - start + 1..] == buffer[eol + 1..ofs]
    {
    }

    /** One round of the scanning loop: the line is handed on unless it is empty. */
    method TakeLine(start: nat, eol: nat) returns (mayRead: bool)
      requires Sized() && start <= eol < ofs && eol - start == Eol(buffer[start..ofs])
      modifies `window, `out, `gate, `eaten
      ensures ViewFrom(eol + 1) == LineTaken(Setup(), old(ViewFrom(start)))
      ensures mayRead <==> gate == old(gate) || window > 0
    {
      BufferSplit(start, eol);
      eaten := eaten + (buffer[start..eol] + [buffer[eol]]);
      var end := LineEnd(start, eol);
      mayRead := true;
      if end != start {
        mayRead := HandleLine(start, end);
      }
    }

    /** One round of the scanning loop: a line is taken, the next one is found. */
    method ScanRound(start: nat, eol: nat) returns (start': nat, eol': nat, mayRead: bool)
      requires Sized() && start <= eol < ofs && eol - start == Eol(buffer[start..ofs])
      modifies `window, `out, `gate, `eaten
      ensures start < start' <= eol' <= ofs && eol' - start' == Eol(buffer[start'..ofs])
      ensures ViewFrom(start') == LineTaken(Setup(), old(ViewFrom(start)))
      ensures mayRead <==> gate == old(gate) || window > 0
    {
      mayRead := TakeLine(start, eol);
      start' := eol + 1;
      eol' := FindEol(start', ofs);
    }

    /** The scanning loop of `log_reader_iterate_buf`. */
    method ScanLoop(firstEol: nat, count0: nat) returns (start: nat, count: nat)
      requires Sized() && firstEol <= ofs && firstEol == Eol(buffer[..ofs])
      modifies `completeLine, `window, `out, `gate, `eaten
      ensures start <= ofs
      ensures Scan(ViewFrom(start), count) == Scanned(Setup(), old(View()), count0, true)
    {
      ghost var goal := Scanned(Setup(), View(), count0, true);
      assert buffer[..ofs] == buffer[0..ofs];
      var mayRead, eol := true, firstEol;
      start, count := 0, count0;
      while (fetchLimit == 0 || count < fetchLimit) && eol < ofs && mayRead
        invariant start <= eol <= ofs && eol - start == Eol(buffer[start..ofs])
        invariant ScansTo(Setup(), ViewFrom(start), count, mayRead, goal)
        decreases ofs - start
      {
        ghost var st := ViewFrom(start);
        start, eol, mayRead := ScanRound(start, eol);
        ScannedStep(Setup(), st, count, count + 1, ViewFrom(start), mayRead, goal);
        count := count + 1;
      }
      ScannedDone(Setup(), ViewFrom(start), count, mayRead, goal);
      completeLine := eol < ofs;
    }

    /** Moves the bytes from `start` on to the beginning of the buffer. */
    method Compact(start: nat)
      requires Sized() && start <= ofs
      modifies `ofs, buffer
      ensures Sized() && View() == old(ViewFrom(start))
    {
      ofs := ofs - start;
      forall i | 0 <= i < ofs {
        buffer[i] := buffer[start + i];
      }
      assert buffer[0..ofs] == old(buffer[start..ofs]);
    }

    /** The other branch of `log_reader_iterate_buf`: the whole buffer is one
        message. */
    method TakeAll(count0: nat) returns (count: nat)
      requires Sized()
      modifies `completeLine, `ofs, `window, `out, `gate, `eaten
      ensures Sized() && View() == AllTaken(Setup(), old(View())) && count == count0 + 1
    {
      completeLine := false;
      eaten := eaten + buffer[0..ofs];
      if ofs != 0 {
        var free := HandleLine(0, ofs);
      }
      ofs := 0;
      count := count0 + 1;
    }

    /** `log_reader_iterate_buf` without the flush. */
    method IterateBuf(count0: nat) returns (count: nat)
      requires Sized()
      modifies `completeLine, `ofs, `window, `out, `gate, `eaten, buffer
      ensures Sized() && Scan(View(), count) == Iterated(Setup(), old(View()), count0)
    {
      ScannedFlag(Setup(), View(), count0, true, false);
      completeLine := false;
      var eol := FindEol(0, ofs);
      assert buffer[..ofs] == buffer[0..ofs];
      if eol == ofs && ofs == msgSize {
        count := TakeAll(count0);
      } else {
        var start;
        start, count := ScanLoop(eol, count0);
        Compact(start);
      }
    }

    // -------------------------------------------------------------------
    // Dispatches
    // -------------------------------------------------------------------

    /** The descriptor puts `rc` bytes behind those in the buffer. */
    method Receive(rc: nat)
      requires Sized() && ofs + rc <= msgSize && readPos + rc <= |file|
      modifies `ofs, `readPos, buffer
      ensures Sized() && readPos == old(readPos) + rc && View() == Received(old(View()), rc)
    {
      ghost var st := View();
      forall k | 0 <= k < rc {
        buffer[ofs + k] := file[readPos + k];
      }
      ofs, readPos := ofs + rc, readPos + rc;
      assert buffer[0..old(ofs)] == st.buf;
      assert buffer[old(ofs)..ofs] == file[old(readPos)..readPos] == st.ahead[..rc];
      assert buffer[0..ofs] == buffer[0..old(ofs)] + buffer[old(ofs)..ofs];
      assert file[readPos..] == st.ahead[rc..];
    }

    /** `fd_read` of as much as fits into the buffer: `avail` bytes are asked for. */
    method FdRead(count: nat) returns (avail: nat, rc: nat)
      requires Sized()
      modifies `ofs, `readPos, buffer
      ensures avail == msgSize - old(ofs) && (old(ofs) < msgSize ==> avail > 0)
      ensures Sized() && rc == ReadSize(Setup(), old(View()), count) && readPos == old(readPos) + rc
      ensures View() == Received(old(View()), rc)
    {
      avail := msgSize - ofs;
      rc := if count < avail then count else avail;
      rc := if rc < |file| - readPos then rc else |file| - readPos;
      Receive(rc);
    }

    lemma {:induction false} NothingReceived(st: State)
      ensures Received(st, 0) == st
    {
    }

    ghost function Round(answer: Answer, count0: nat): Scan
      requires Sized() && answer.Got?
      reads this, buffer
    {
      Iterated(Setup(), Received(View(), ReadSize(Setup(), View(), answer.count)), count0)
    }

    /** One round of the reading loop, for an answer other than EAGAIN. */
    method ReadOnce(answer: Answer, count0: nat) returns (alive: bool, count: nat)
      requires Sized() && !answer.NotNow?
      modifies `completeLine, `ofs, `readPos, `window, `out, `gate, `eaten, buffer
      ensures Sized() && readPos >= old(readPos)
      ensures alive <==> !Ends(Setup(), old(View()), answer)
      ensures old(ofs) < msgSize ==> (alive <==> !IsEnd(Setup(), old(View()).ahead, answer))
      ensures !alive ==> View() == AllTaken(Setup(), old(View()))
      ensures alive ==> answer.Got?
      ensures alive ==> Scan(View(), count) == old(Round(answer, count0))
    {
      ghost var st := View();
      var rc := 0;
      if answer.Got? {
        var avail;
        avail, rc := FdRead(answer.count);
      }
      if answer.Broke? || (rc == 0 && !follow) {
        NothingReceived(st);
        count := TakeAll(count0);
        return false, count;
      }
      count := IterateBuf(count0);
      alive := true;
    }

    /** The reading loop of `log_reader_fetch_log`. */
    method ReadLoop(answers: seq<Answer>, count0: nat) returns (alive: bool)
      requires Sized()
      modifies `completeLine, `ofs, `readPos, `window, `out, `gate, `eaten, buffer
      ensures Sized() && readPos >= old(readPos)
      ensures var d := ReadAll(Setup(), old(View()), answers, count0);
        (alive <==> d.Going?) && View() == Result(Setup(), d)
    {
      ghost var goal := ReadAll(Setup(), View(), answers, count0);
      var i, count: nat := 0, count0;
      assert answers[0..] == answers;
      alive := true;
      while count < fetchLimit && i < |answers|
        invariant i <= |answers| && Sized() && readPos >= old(readPos)
        invariant alive && ReadAll(Setup(), View(), answers[i..], count) == goal
        decreases |answers| - i
      {
        if answers[i].NotNow? {
          return;
        }
        assert answers[i..][1..] == answers[i + 1..];
        alive, count := ReadOnce(answers[i], count);
        if !alive || singleRead {
          return;
        }
        i := i + 1;
      }
    }

    /** The dispatch this reader does from where it is. */
    ghost function Next(answers: seq<Answer>): Dispatch
      requires Sized()
      reads this, buffer
    {
      Dispatched(Setup(), View(), answers)
    }

    /** `log_reader_fetch_log`: first what is buffered, then reads until the
        descriptor has nothing more, the fetch limit is reached, or the reader is
        limited to a single read. */
    method Fetch(answers: seq<Answer>) returns (alive: bool)
      requires Sized()
      modifies `completeLine, `ofs, `readPos, `window, `out, `gate, `eaten, buffer
      ensures Sized() && readPos >= old(readPos)
      ensures (alive <==> old(Next(answers)).Going?) && View() == Result(Setup(), old(Next(answers)))
    {
      gate := [];
      var count := 0;
      if completeLine {
        count := IterateBuf(0);
        if ofs != 0 || singleRead {
          return true;
        }
      }
      alive := ReadLoop(answers, count);
    }

    /** `log_reader_fetch_log` as the main loop calls it, with an open window.
        `alive` is false when the stream ended or failed. */
    method FetchLog(answers: seq<Answer>) returns (alive: bool)
      requires Ready() && fetchLimit >= 1 && window > 0
      modifies `completeLine, `ofs, `readPos, `window, `out, `gate, `eaten, buffer
      ensures Sized() && readPos >= old(readPos)
      ensures (alive <==> old(Next(answers)).Going?) && View() == Result(Setup(), old(Next(answers)))
      ensures GateOk(gate, fetchLimit, singleRead) && old(out) <= out && |out| == |old(out)| + |gate|
      ensures alive ==> Ready() && Pending(View()) <= Pending(old(View()))
      ensures alive && old(completeLine) ==> Pending(View()) < Pending(old(View()))
      ensures follow && Broke !in answers ==> alive
      ensures !old(completeLine) && answers != [] && IsEnd(Setup(), old(View()).ahead, answers[0]) ==> !alive
      ensures !alive ==> origin <= readPos && EndsAsSpecified(old(Next(answers)))
      ensures !alive && NUL !in file && (singleRead || old(window) >= fetchLimit || msgSize < 3)
        ==> FinalFrames(file[origin..readPos], msgSize) == out
    {
      ghost var st := View();
      DispatchKeepsReady(Setup(), st, answers);
      DispatchObeysGate(Setup(), st, answers);
      EndsOrNot(Setup(), st, answers);
      alive := Fetch(answers);
      if !alive {
        EndMeans(st, answers);
      }
    }

    /** How a stream ended: rightly, unless a whole line was buffered, which can
        only be when it is read several times per dispatch and the window closed
        in this one. */
    ghost predicate EndsAsSpecified(d: Dispatch)
      requires d.Ended? && msgSize >= 1 && origin <= readPos <= |file|
      reads this
    {
      NUL !in file ==>
        && (FinalFrames(file[origin..readPos], msgSize) == out <==> !d.before.complete)
        && (d.before.complete ==> !singleRead && d.before.window <= 0)
    }

    lemma {:induction false} EndMeans(st: State, answers: seq<Answer>)
      requires Sized() && origin <= |file| && fetchLimit >= 1 && st.window > 0
      requires Reading.Ready(Setup(), st) && Stream(st) == file[origin..]
      requires Dispatched(Setup(), st, answers).Ended? && View() == Result(Setup(), Dispatched(Setup(), st, answers))
      ensures origin <= readPos && EndsAsSpecified(Dispatched(Setup(), st, answers))
      ensures NUL !in file && (singleRead || st.window >= fetchLimit || msgSize < 3)
        ==> FinalFrames(file[origin..readPos], msgSize) == out
    {
      var d := Dispatched(Setup(), st, answers);
      DispatchKeepsReady(Setup(), st, answers);
      AllEaten(Setup(), d.before);
      Positions(View());
      assert file[origin..readPos] == View().eaten;
      if NUL !in file {
        FileNulFree(st);
        EndsRight(Setup(), st, answers);
      }
    }

    lemma {:induction false} AllEaten(s: Setup, st: State)
      ensures Stream(AllTaken(s, st)) == Stream(st)
    {
    }

    /** Where the bytes are in the file. */
    lemma {:induction false} Positions(st: State)
      requires origin <= |file| && readPos <= |file|
      requires Stream(st) == file[origin..] && st.ahead == file[readPos..]
      ensures |st.eaten| + |st.buf| == readPos - origin
      ensures Read(st) == file[origin..readPos]
      ensures st.eaten == file[origin..origin + |st.eaten|]
    {
      assert |Stream(st)| == |file| - origin;
      assert Stream(st)[..readPos - origin] == Read(st);
      assert file[origin..][..readPos - origin] == file[origin..readPos];
      assert Stream(st)[..|st.eaten|] == st.eaten;
    }

    lemma {:induction false} FileNulFree(st: State)
      requires origin <= |file| && NUL !in file && Stream(st) == file[origin..]
      ensures NulFree(st)
    {
      assert forall i :: 0 <= i < |file[origin..]| ==> file[origin..][i] == file[origin + i];
      StreamNulFree(st);
    }

    /** The same for the reader as it is. */
    lemma {:induction false} Settled()
      requires Ready()
      ensures var st := View();
        && origin + |st.eaten| + |st.buf| == readPos
        && Read(st) == file[origin..readPos] && st.eaten == file[origin..origin + |st.eaten|]
        && (NUL !in file ==> NulFree(st))
    {
      Positions(View());
      if NUL !in file {
        FileNulFree(View());
      }
    }

    // -------------------------------------------------------------------
    // Stopping and starting again
    // -------------------------------------------------------------------

    /** `log_reader_get_pos`: the offset of the first byte that is not yet part
        of a message. */
    method GetPos() returns (pos: int)
      requires Ready()
      ensures origin <= pos <= |file| && pos == origin + |eaten|
      ensures NUL !in file ==> CutTo(file, origin, pos, out, msgSize)
    {
      pos := readPos - ofs;
      Settled();
    }

    /** `log_reader_set_pos` as the first operation, on a file that is `size`
        bytes long by now. */
    method SetPos(pos: nat, size: nat)
      requires Ready() && out == [] && !completeLine && size <= |file|
      modifies `ofs, `readPos, `origin, `eaten
      ensures Ready() && out == [] && eaten == [] && ofs == 0
      ensures readPos == origin == if pos > size then size else pos
    {
      readPos := if pos > size then size else pos;
      ofs, origin, eaten := 0, readPos, [];
      BeginningIsReady(Setup(), file[readPos..], window);
      assert NulFree(View()) <==> NulFree(Beginning(file[readPos..], window));
    }
  }

  lemma {:induction false} EndsRight(s: Setup, st: State, answers: seq<Answer>)
    requires Reading.Ready(s, st) && NulFree(st) && s.fetchLimit >= 1 && st.window > 0
    requires Dispatched(s, st, answers).Ended?
    ensures var d := Dispatched(s, st, answers);
      && (Exact(s, Result(s, d)) <==> !d.before.complete)
      && (d.before.complete ==> !s.singleRead && d.before.window <= 0)
    ensures s.singleRead || st.window >= s.fetchLimit || s.msgSize < 3
      ==> Exact(s, Result(s, Dispatched(s, st, answers)))
  {
    EndExactly(s, st, answers);
    EndsRightExactly(s.msgSize, s.fetchLimit, s.singleRead, st.window);
    assert Starts(s, st, s.msgSize, s.fetchLimit, s.singleRead, st.window);
  }

  /** One round of the scanning loop. */
  /** What the loop still has to do leads to `goal`. */
  ghost predicate ScansTo(s: Setup, st: State, count: nat, mayRead: bool, goal: Scan) {
    Scanned(s, st, count, mayRead) == goal
  }

  lemma {:induction false} ScannedDone(s: Setup, st: State, count: nat, mayRead: bool, goal: Scan)
    requires ScansTo(s, st, count, mayRead, goal) && !(MayScan(s, count) && HasLine(st.buf) && mayRead)
    ensures goal == Scan(st.(complete := HasLine(st.buf)), count)
  {
  }

  lemma {:induction false} ScannedStep(
    s: Setup, st: State, count: nat, next: nat, after: State, mayRead: bool, goal: Scan)
    requires MayScan(s, count) && HasLine(st.buf) && ScansTo(s, st, count, true, goal) && next == count + 1
    requires after == LineTaken(s, st) && (mayRead <==> after.gate == st.gate || after.window > 0)
    ensures ScansTo(s, after, next, mayRead, goal)
  {
  }

  lemma {:induction false} Continues(s: Setup, a: State, t: Setup, b: State, whole: Octets)
    requires Reading.Ready(s, a) && Reading.Ready(t, b) && s.msgSize == t.msgSize
    requires NulFree(a) && NulFree(b) && !b.complete && whole == a.eaten + Read(b)
    ensures a.out + b.out == Frames(whole, s.msgSize).frames
  {
    Drained(t, b);
    RestartIsSeamless(a.eaten, a.out, Read(b), s.msgSize);
  }

  /** What two readers have read, one behind the other. */
  lemma {:induction false} ReadTogether(first: LogReader, second: LogReader)
    requires first.Ready() && second.Ready() && first.file == second.file
    requires second.origin == first.origin + |first.eaten|
    ensures first.origin <= second.readPos <= |first.file|
    ensures first.file[first.origin..second.readPos] == first.View().eaten + Read(second.View())
  {
    first.Settled();
    second.Settled();
    SliceJoin(first.file, first.origin, second.origin, second.readPos);
    assert first.file[first.origin..second.origin] == first.View().eaten;
    assert first.file[second.origin..second.readPos] == Read(second.View());
  }

  /** A reader that starts where another one stopped: together they hand on the
      messages of the whole stretch they have read, none lost and none twice. */
  lemma {:induction false} RestartLosesNothing(first: LogReader, second: LogReader)
    requires first.Ready() && second.Ready()
    requires first.file == second.file && first.msgSize == second.msgSize && NUL !in first.file
    requires second.origin == first.origin + |first.eaten| && !second.completeLine
    ensures first.origin <= second.readPos <= |first.file|
    ensures first.out + second.out == Frames(first.file[first.origin..second.readPos], first.msgSize).frames
  {
    ReadTogether(first, second);
    first.Settled();
    second.Settled();
    Continues(first.Setup(), first.View(), second.Setup(), second.View(),
              first.file[first.origin..second.readPos]);
  }

  /** Two readers that have read the same bytes of the same file and hold no
      whole line have handed on the same messages, whatever the sizes of their
      reads, their fetch limits and their windows were. */
  lemma {:induction false} ChunksDoNotMatter(first: LogReader, second: LogReader)
    requires first.Ready() && second.Ready()
    requires first.file == second.file && first.msgSize == second.msgSize && NUL !in first.file
    requires first.origin == second.origin && first.readPos == second.readPos
    requires !first.completeLine && !second.completeLine
    ensures first.out == second.out && first.buffer[..first.ofs] == second.buffer[..second.ofs]
  {
    var a, b := first.View(), second.View();
    first.Settled();
    second.Settled();
    Drained(first.Setup(), a);
    Drained(second.Setup(), b);
    assert a.buf == first.buffer[..first.ofs] && b.buf == second.buffer[..second.ofs];
  }
}
