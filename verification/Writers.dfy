/** The queue writer of logwriter.c: a bounded FIFO of messages, one partly
    written line, and a file descriptor that may accept fewer bytes than it is
    offered, refuse, fail, and be replaced. */
module Writers {
  import opened Octets

  /** A queued copy: the message, whether its route is flow controlled, and the
      line `log_writer_format_log` yields for it here. */
  datatype Entry = Entry(id: nat, flow: bool, line: Octets)

  datatype Partial = NoPartial | Partial(line: Octets, pos: nat)

  /** The outcome of one `fd_write`: a number of bytes taken (capped by the
      number offered), or -1 with EAGAIN, EINTR or another error. */
  datatype Io = Wrote(count: nat) | Again | Interrupted | Failed

  /** `sent` is the history of all bytes taken by all descriptors this writer
      had, `accepted` the history of all entries that were not dropped. */
  datatype State = State(
    queue: seq<Entry>, partial: Partial, open: bool,
    dropped: nat, sent: Octets, accepted: seq<Entry>)

  const FRESH := State([], NoPartial, true, 0, [], [])

  function Lines(entries: seq<Entry>): Octets {
    if entries == [] then [] else entries[0].line + Lines(entries[1..])
  }

  function Tail(p: Partial): Octets
    requires p.Partial? ==> p.pos <= |p.line|
  {
    if p.Partial? then p.line[p.pos..] else []
  }

  function Next(io: seq<Io>): Io {
    if io == [] then Again else io[0]
  }

  function Later(io: seq<Io>): seq<Io> {
    if io == [] then [] else io[1..]
  }

  function Taken(count: nat, len: nat): nat {
    if count < len then count else len
  }

  /** `log_writer_queue`. */
  function AfterQueue(st: State, fifoSize: nat, e: Entry): State {
    if |st.queue| == fifoSize then st.(dropped := st.dropped + 1)
    else st.(queue := st.queue + [e], accepted := st.accepted + [e])
  }

  /** The head of the queue after `n` bytes of its line were written: off the
      queue, and kept as the partial line unless it is complete. */
  function HeadOut(st: State, n: nat): State
    requires st.queue != [] && n <= |st.queue[0].line|
  {
    var line := st.queue[0].line;
    st.(queue := st.queue[1..], sent := st.sent + line[..n],
        partial := if n == |line| then NoPartial else Partial(line, n))
  }

  /** The head of the queue taken off and, unless its line is empty, offered to
      the descriptor, which answers `answer`. */
  function HeadTried(st: State, answer: Io): State
    requires st.queue != []
  {
    var line := st.queue[0].line;
    HeadOut(st, if answer.Wrote? then Taken(answer.count, |line|) else 0)
      .(open := st.open && !(answer.Failed? && line != []))
  }

  /** The popping loop of `log_writer_flush_log`, answered by `io`. */
  function AfterDrain(st: State, io: seq<Io>): State
    decreases |st.queue|
  {
    if st.queue == [] then st
    else
      var after := HeadTried(st, Next(io));
      if after.partial.Partial? then after
      else AfterDrain(after, if st.queue[0].line == [] then io else Later(io))
  }

  /** The partly written line after `n` more of its bytes were written. */
  function PartialOut(st: State, n: nat): State
    requires st.partial.Partial? && st.partial.pos + n <= |st.partial.line|
  {
    var pos := st.partial.pos + n;
    st.(sent := st.sent + st.partial.line[st.partial.pos..pos],
        partial := if pos == |st.partial.line| then NoPartial else Partial(st.partial.line, pos))
  }

  /** The partly written line offered to the descriptor. */
  function PartialTried(st: State, answer: Io): State
    requires st.partial.Partial? && st.partial.pos < |st.partial.line|
  {
    if answer.Wrote? then PartialOut(st, Taken(answer.count, |st.partial.line| - st.partial.pos))
    else st.(open := st.open && !answer.Failed?)
  }

  /** `log_writer_flush_log`: first the partly written line, then the queue. */
  function AfterFlush(st: State, io: seq<Io>): State
    requires st.partial.Partial? ==> st.partial.pos < |st.partial.line|
  {
    if st.partial.NoPartial? then AfterDrain(st, io)
    else
      var after := PartialTried(st, Next(io));
      if after.partial.Partial? then after else AfterDrain(after, Later(io))
  }

  /** The entries a flush takes off the queue, and hence acknowledges. */
  function Popped(st: State, after: State): seq<Entry>
    requires |after.queue| <= |st.queue|
  {
    st.queue[..|st.queue| - |after.queue|]
  }

  // ---------------------------------------------------------------------
  // Conservation of the byte stream
  // ---------------------------------------------------------------------

  /** The first `Started(st)` accepted entries have been taken off the queue. */
  function Started(st: State): int {
    |st.accepted| - |st.queue|
  }

  /** The queue is the end of what was accepted; what was sent plus the unsent
      tail of the partial line is the text of the beginning, in order; and the
      partial line is the last line taken off the queue. */
  ghost predicate Valid(st: State) {
    && 0 <= Started(st)
    && st.queue == st.accepted[Started(st)..]
    && (st.partial.Partial? ==>
          && st.partial.pos < |st.partial.line|
          && 0 < Started(st)
          && st.partial.line == st.accepted[Started(st) - 1].line)
    && st.sent + Tail(st.partial) == Lines(st.accepted[..Started(st)])
  }

  lemma {:induction false} LinesAppend(a: seq<Entry>, b: seq<Entry>)
    ensures Lines(a + b) == Lines(a) + Lines(b)
  {
    if a == [] {
      assert a + b == b;
    } else {
      assert (a + b)[1..] == a[1..] + b;
      LinesAppend(a[1..], b);
    }
  }

  lemma {:induction false} LinesSnoc(a: seq<Entry>, e: Entry)
    ensures Lines(a + [e]) == Lines(a) + e.line
  {
    LinesAppend(a, [e]);
    assert Lines([e]) == e.line + Lines([]);
  }

  lemma {:induction false} QueueKeepsValid(st: State, fifoSize: nat, e: Entry)
    requires Valid(st)
    ensures Valid(AfterQueue(st, fifoSize, e))
  {
    var n := Started(st);
    assert (st.accepted + [e])[..n] == st.accepted[..n];
    assert (st.accepted + [e])[n..] == st.accepted[n..] + [e];
  }

  lemma {:induction false} HeadOutKeepsValid(st: State, n: nat)
    requires Valid(st) && st.partial.NoPartial? && st.queue != [] && n <= |st.queue[0].line|
    ensures Valid(HeadOut(st, n))
  {
    var k := Started(st);
    var e := st.queue[0];
    assert e == st.accepted[k] && st.queue[1..] == st.accepted[k + 1..];
    assert st.accepted[..k + 1] == st.accepted[..k] + [e];
    LinesSnoc(st.accepted[..k], e);
    assert st.sent + [] == st.sent;
    assert (st.sent + e.line[..n]) + e.line[n..] == st.sent + e.line;
  }

  lemma {:induction false} PartialOutKeepsValid(st: State, n: nat)
    requires Valid(st) && st.partial.Partial? && st.partial.pos + n <= |st.partial.line|
    ensures Valid(PartialOut(st, n))
  {
    SentFurther(st.sent, st.partial.line, st.partial.pos, n);
  }

  lemma {:induction false} SentFurther(sent: Octets, line: Octets, pos: nat, n: nat)
    requires pos + n <= |line|
    ensures (sent + line[pos..pos + n]) + line[pos + n..] == sent + line[pos..]
  {
    assert line[pos..] == line[pos..pos + n] + line[pos + n..];
  }

  lemma {:induction false} DrainKeepsValid(st: State, io: seq<Io>)
    requires Valid(st) && st.partial.NoPartial?
    ensures var r := AfterDrain(st, io);
      && Valid(r) && r.accepted == st.accepted && r.dropped == st.dropped
      && |r.queue| <= |st.queue|
    decreases |st.queue|
  {
    if st.queue != [] {
      var len := |st.queue[0].line|;
      HeadOutKeepsValid(st, if Next(io).Wrote? then Taken(Next(io).count, len) else 0);
      var after := HeadTried(st, Next(io));
      if after.partial.NoPartial? {
        DrainKeepsValid(after, if len == 0 then io else Later(io));
      }
    }
  }

  lemma {:induction false} FlushKeepsValid(st: State, io: seq<Io>)
    requires Valid(st)
    ensures var r := AfterFlush(st, io);
      && Valid(r) && r.accepted == st.accepted && r.dropped == st.dropped
      && |r.queue| <= |st.queue|
  {
    if st.partial.NoPartial? {
      DrainKeepsValid(st, io);
    } else if Next(io).Wrote? {
      PartialOutKeepsValid(st, Taken(Next(io).count, |st.partial.line| - st.partial.pos));
      if PartialTried(st, Next(io)).partial.NoPartial? {
        DrainKeepsValid(PartialTried(st, Next(io)), Later(io));
      }
    }
  }

  /** What a flush leaves queued is the end of what was queued. */
  lemma {:induction false} FlushPopsHead(st: State, io: seq<Io>)
    requires Valid(st)
    ensures var r := AfterFlush(st, io);
      |r.queue| <= |st.queue| && st.queue == Popped(st, r) + r.queue
  {
    FlushKeepsValid(st, io);
    var r := AfterFlush(st, io);
    var k := |st.queue| - |r.queue|;
    assert r.queue == st.queue[k..] by {
      assert r.queue == st.accepted[Started(st) + k..];
    }
  }

  /** Nothing accepted is lost, repeated or reordered: bytes sent, then the
      unsent tail, then the queued lines are the accepted lines. */
  lemma {:induction false} StreamConserved(st: State)
    requires Valid(st)
    ensures st.sent + Tail(st.partial) + Lines(st.queue) == Lines(st.accepted)
  {
    var n := Started(st);
    assert st.accepted == st.accepted[..n] + st.accepted[n..];
    LinesAppend(st.accepted[..n], st.accepted[n..]);
  }

  /** All but possibly the last of the entries that were taken off the queue,
      and so acknowledged, are completely written; the last one is written up
      to the partial position. */
  lemma {:induction false} AtMostOneUnwritten(st: State)
    requires Valid(st)
    ensures st.partial.NoPartial? ==> st.sent == Lines(st.accepted[..Started(st)])
    ensures st.partial.Partial? ==>
      && Started(st) > 0
      && var last := st.accepted[Started(st) - 1];
         && st.partial.pos < |last.line|
         && st.sent == Lines(st.accepted[..Started(st) - 1]) + last.line[..st.partial.pos]
  {
    var n := Started(st);
    if st.partial.Partial? {
      var last := st.accepted[n - 1];
      var before := st.accepted[..n - 1];
      assert st.accepted[..n] == before + [last];
      LinesSnoc(before, last);
      var tail := last.line[st.partial.pos..];
      var expected := Lines(before) + last.line[..st.partial.pos];
      assert last.line == last.line[..st.partial.pos] + tail;
      assert st.sent + tail == expected + tail;
      assert st.sent == (st.sent + tail)[..|st.sent|];
      assert expected == (expected + tail)[..|expected|];
    } else {
      assert st.sent + [] == st.sent;
    }
  }

  // ---------------------------------------------------------------------
  // What a flush writes
  // ---------------------------------------------------------------------

  /** The lines of `q` that there is something to write of. */
  function ToWrite(q: seq<Entry>): seq<Octets> {
    if q == [] then []
    else (if q[0].line == [] then [] else [q[0].line]) + ToWrite(q[1..])
  }

  /** What a flush offers to the descriptor, one after the other: the rest of the
      partial line, then the queued lines. */
  function Offers(st: State): seq<Octets>
    requires st.partial.Partial? ==> st.partial.pos < |st.partial.line|
  {
    (if st.partial.Partial? then [st.partial.line[st.partial.pos..]] else []) + ToWrite(st.queue)
  }

  /** The answer to offer number `j`; EAGAIN when `io` has no more. */
  function AnswerTo(io: seq<Io>, j: nat): Io {
    if j < |io| then io[j] else Again
  }

  predicate TakesAll(answer: Io, line: Octets) {
    answer.Wrote? && answer.count >= |line|
  }

  /** Offer number `j` is the first that is not taken as a whole; there is none if
      `j` is the number of offers. */
  ghost predicate StopsAt(offers: seq<Octets>, io: seq<Io>, j: nat) {
    && j <= |offers|
    && (forall i :: 0 <= i < j ==> TakesAll(AnswerTo(io, i), offers[i]))
    && (j < |offers| ==> !TakesAll(AnswerTo(io, j), offers[j]))
  }

  /** All offers before number `j` are written, and of that one as many bytes as its
      answer says; then nothing more. The descriptor is given up exactly if that
      answer is an error other than EAGAIN and EINTR. */
  ghost predicate WroteUpTo(st: State, r: State, offers: seq<Octets>, io: seq<Io>, j: nat)
    requires j <= |offers|
  {
    if j == |offers| then
      && r.sent == st.sent + Concat(offers)
      && r.queue == [] && r.partial.NoPartial? && r.open == st.open
    else
      var answer := AnswerTo(io, j);
      var n := if answer.Wrote? then answer.count else 0;
      && n < |offers[j]|
      && r.sent == st.sent + Concat(offers[..j]) + offers[j][..n]
      && r.partial.Partial? && r.partial.pos < |r.partial.line|
      && r.partial.line[r.partial.pos..] == offers[j][n..] && ToWrite(r.queue) == offers[j + 1..]
      && r.open == (st.open && !answer.Failed?)
  }

  lemma {:induction false} StopsSomewhere(offers: seq<Octets>, io: seq<Io>) returns (j: nat)
    ensures StopsAt(offers, io, j)
  {
    j := 0;
    while j < |offers| && TakesAll(AnswerTo(io, j), offers[j])
      invariant j <= |offers| && forall i :: 0 <= i < j ==> TakesAll(AnswerTo(io, i), offers[i])
    {
      j := j + 1;
    }
  }

  lemma {:induction false} StopsLater(offers: seq<Octets>, io: seq<Io>, j: nat)
    requires offers != [] && j > 0 && StopsAt(offers, io, j)
    ensures StopsAt(offers[1..], Later(io), j - 1) && TakesAll(Next(io), offers[0])
    ensures j < |offers| ==> AnswerTo(io, j) == AnswerTo(Later(io), j - 1)
  {
    forall i | 0 <= i < j - 1 ensures TakesAll(AnswerTo(Later(io), i), offers[1..][i]) {
      var k := i + 1;
      assert TakesAll(AnswerTo(io, k), offers[k]);
    }
    assert TakesAll(AnswerTo(io, 0), offers[0]);
  }

  /** Writing the first offer as a whole and then going on. */
  lemma {:induction false} WroteFirst(st: State, mid: State, r: State, offers: seq<Octets>, io: seq<Io>, j: nat)
    requires offers != [] && 0 < j <= |offers|
    requires mid.sent == st.sent + offers[0] && mid.open == st.open
    requires j < |offers| ==> AnswerTo(io, j) == AnswerTo(Later(io), j - 1)
    requires WroteUpTo(mid, r, offers[1..], Later(io), j - 1)
    ensures WroteUpTo(st, r, offers, io, j)
  {
    var later := offers[1..];
    if j < |offers| {
      assert offers[..j][0] == offers[0] && offers[..j][1..] == later[..j - 1] && offers[j] == later[j - 1];
      Join(st.sent, offers[0], Concat(later[..j - 1]));
      assert offers[j + 1..] == later[j..];
    } else {
      Join(st.sent, offers[0], Concat(later));
    }
  }

  lemma {:induction false} Join(a: Octets, b: Octets, c: Octets)
    ensures (a + b) + c == a + (b + c)
  {
  }

  lemma {:induction false} DrainWrites(st: State, io: seq<Io>, j: nat)
    requires st.partial.NoPartial? && StopsAt(ToWrite(st.queue), io, j)
    ensures WroteUpTo(st, AfterDrain(st, io), ToWrite(st.queue), io, j)
    decreases |st.queue|
  {
    var offers := ToWrite(st.queue);
    if st.queue == [] {
      assert st.sent + [] == st.sent;
    } else if st.queue[0].line == [] {
      var after := HeadTried(st, Next(io));
      assert offers == ToWrite(st.queue[1..]) && st.sent + [] == st.sent;
      DrainWrites(after, io, j);
    } else {
      DrainWritesHead(st, io, j, HeadTried(st, Next(io)));
    }
  }

  lemma {:induction false} DrainWritesHead(st: State, io: seq<Io>, j: nat, after: State)
    requires st.partial.NoPartial? && st.queue != [] && st.queue[0].line != []
    requires StopsAt(ToWrite(st.queue), io, j) && after == HeadTried(st, Next(io))
    ensures WroteUpTo(st, AfterDrain(st, io), ToWrite(st.queue), io, j)
    decreases |st.queue|, 0
  {
    var offers, line := ToWrite(st.queue), st.queue[0].line;
    assert offers[0] == line && offers[1..] == ToWrite(st.queue[1..]);
    if j > 0 {
      StopsLater(offers, io, j);
      assert line[..|line|] == line;
      DrainWrites(after, Later(io), j - 1);
      WroteFirst(st, after, AfterDrain(st, io), offers, io, j);
    } else {
      assert Concat(offers[..0]) == [] && st.sent + [] == st.sent;
    }
  }

  lemma {:induction false} TailParts(line: Octets, pos: nat, n: nat, tail: Octets)
    requires pos + n <= |line| && tail == line[pos..]
    ensures tail[..n] == line[pos..pos + n] && tail[n..] == line[pos + n..]
  {
  }

  /** What the rest of the partial line becomes. */
  lemma {:induction false} PartialAnswered(st: State, answer: Io, tail: Octets, n: nat)
    requires st.partial.Partial? && st.partial.pos < |st.partial.line|
    requires tail == st.partial.line[st.partial.pos..]
    requires n == if answer.Wrote? then Taken(answer.count, |tail|) else 0
    ensures var after := PartialTried(st, answer);
      && after.queue == st.queue && after.sent == st.sent + tail[..n]
      && after.open == (st.open && !answer.Failed?)
      && (TakesAll(answer, tail) ==> after.partial.NoPartial? && tail[..n] == tail)
      && (!TakesAll(answer, tail) ==>
            && n < |tail| && after.partial.Partial? && after.partial.pos < |after.partial.line|
            && after.partial.line[after.partial.pos..] == tail[n..])
  {
    TailParts(st.partial.line, st.partial.pos, n, tail);
    assert st.sent + tail[..0] == st.sent;
  }

  /** What a flush does, for every sequence of answers. */
  lemma {:induction false} FlushWrites(st: State, io: seq<Io>, j: nat)
    requires Valid(st) && StopsAt(Offers(st), io, j)
    ensures WroteUpTo(st, AfterFlush(st, io), Offers(st), io, j)
  {
    if st.partial.NoPartial? {
      assert Offers(st) == ToWrite(st.queue);
      DrainWrites(st, io, j);
    } else {
      PartialWrites(st, io, j, st.partial.line[st.partial.pos..], Offers(st));
    }
  }

  lemma {:induction false} PartialWrites(st: State, io: seq<Io>, j: nat, tail: Octets, offers: seq<Octets>)
    requires st.partial.Partial? && st.partial.pos < |st.partial.line|
    requires tail == st.partial.line[st.partial.pos..] && offers == [tail] + ToWrite(st.queue)
    requires StopsAt(offers, io, j)
    ensures WroteUpTo(st, AfterFlush(st, io), offers, io, j)
  {
    var answer, after := Next(io), PartialTried(st, Next(io));
    var n := if answer.Wrote? then Taken(answer.count, |tail|) else 0;
    PartialAnswered(st, answer, tail, n);
    assert offers[0] == tail && offers[1..] == ToWrite(st.queue);
    if j > 0 {
      StopsLater(offers, io, j);
      DrainWrites(after, Later(io), j - 1);
      WroteFirst(st, after, AfterFlush(st, io), offers, io, j);
    } else {
      assert Concat(offers[..0]) == [] && st.sent + [] == st.sent;
    }
  }

  /** A flush stops only at a line that was not taken as a whole. */
  lemma {:induction false} FlushEmptiesOrStalls(st: State, io: seq<Io>)
    requires Valid(st)
    ensures var r := AfterFlush(st, io);
      r.partial.NoPartial? ==> r.queue == [] && r.sent == Lines(st.accepted)
  {
    var j := StopsSomewhere(Offers(st), io);
    var r := AfterFlush(st, io);
    FlushWrites(st, io, j);
    FlushKeepsValid(st, io);
    StreamConserved(r);
    assert Lines([]) == [] && r.partial.NoPartial? ==> r.sent + [] + [] == r.sent;
  }

  /** If every offer is taken, everything is written. */
  lemma {:induction false} FlushWritesAll(st: State, io: seq<Io>)
    requires Valid(st)
    requires forall i :: 0 <= i < |Offers(st)| ==> TakesAll(AnswerTo(io, i), Offers(st)[i])
    ensures var r := AfterFlush(st, io);
      r.partial.NoPartial? && r.queue == [] && r.sent == Lines(st.accepted) && r.open == st.open
  {
    FlushWrites(st, io, |Offers(st)|);
    FlushEmptiesOrStalls(st, io);
  }

  // ---------------------------------------------------------------------
  // The object
  // ---------------------------------------------------------------------

  class LogWriter {
    const fifoSize: nat
    var queue: seq<Entry>
    var partial: Partial
    var open: bool
    var dropped: nat
    ghost var sent: Octets
    ghost var accepted: seq<Entry>

    ghost function View(): State
      reads this
    {
      State(queue, partial, open, dropped, sent, accepted)
    }

    ghost predicate Ok()
      reads this
    {
      Valid(View())
    }

    constructor (fifoSize: nat)
      ensures this.fifoSize == fifoSize && View() == FRESH && Ok()
    {
      this.fifoSize := fifoSize;
      queue, partial, open, dropped := [], NoPartial, true, 0;
      sent, accepted := [], [];
    }

    /** `kept` is false when the queue was full; the caller then drops its copy. */
    method Queue(e: Entry) returns (kept: bool)
      requires Ok()
      modifies this
      ensures Ok()
      ensures View() == AfterQueue(old(View()), fifoSize, e)
      ensures kept <==> |old(queue)| != fifoSize
      ensures queue == if kept then old(queue) + [e] else old(queue)
    {
      QueueKeepsValid(View(), fifoSize, e);
      ghost var goal := AfterQueue(View(), fifoSize, e);
      if |queue| == fifoSize {
        dropped := dropped + 1;
        kept := false;
      } else {
        queue := queue + [e];
        accepted := accepted + [e];
        kept := true;
      }
      assert View() == goal;
    }

    /** Offer the rest of the partial line to the descriptor. */
    method WritePartial(answer: Io)
      requires partial.Partial? && partial.pos < |partial.line|
      modifies this
      ensures View() == PartialTried(old(View()), answer)
    {
      if answer.Wrote? {
        var pos := partial.pos + Taken(answer.count, |partial.line| - partial.pos);
        sent := sent + partial.line[partial.pos..pos];
        partial := if pos == |partial.line| then NoPartial else partial.(pos := pos);
      } else if answer.Failed? {
        open := false;
      }
    }

    /** Take the head off the queue and, unless its line is empty, offer it to
        the descriptor; what is not taken becomes the partial line. */
    method WriteHead(answer: Io) returns (e: Entry)
      requires partial.NoPartial? && queue != []
      modifies this
      ensures e == old(queue)[0]
      ensures View() == HeadTried(old(View()), answer)
    {
      e := queue[0];
      queue := queue[1..];
      var rc := if answer.Wrote? then Taken(answer.count, |e.line|) else 0;
      sent := sent + e.line[..rc];
      if rc != |e.line| {
        partial := Partial(e.line, rc);
        if answer.Failed? {
          open := false;
        }
      }
    }

    /** The popping loop. */
    method Drain(io: seq<Io>) returns (popped: seq<Entry>)
      requires partial.NoPartial? && open
      modifies this
      ensures View() == AfterDrain(old(View()), io)
      ensures popped + queue == old(queue)
    {
      ghost var goal := AfterDrain(View(), io);
      popped := [];
      var answers := io;
      while |queue| != 0 && partial.NoPartial?
        invariant popped + queue == old(queue)
        invariant partial.NoPartial? ==> open && AfterDrain(View(), answers) == goal
        invariant partial.Partial? ==> View() == goal
        decreases |queue|
      {
        var empty := |queue[0].line| == 0;
        var e := WriteHead(Next(answers));
        popped := popped + [e];
        if !empty {
          answers := Later(answers);
        }
      }
    }

    /** One flush; `popped` lists, in order, the entries taken off the queue,
        each of which is to be acknowledged (if flow controlled) and released. */
    method FlushLog(io: seq<Io>) returns (popped: seq<Entry>)
      requires Ok() && open
      modifies this
      ensures Ok()
      ensures View() == AfterFlush(old(View()), io)
      ensures popped + queue == old(queue)
      ensures partial.NoPartial? ==> queue == []
    {
      FlushKeepsValid(View(), io);
      FlushEmptiesOrStalls(View(), io);
      popped := [];
      var answers := io;
      if partial.Partial? {
        answers := Later(io);
        WritePartial(Next(io));
        if partial.Partial? {
          return;
        }
      }
      popped := Drain(answers);
    }

    /** `log_writer_broken`: the descriptor's event source is destroyed; the
        queue and the partial line stay. */
    method Broken()
      requires Ok()
      modifies `open
      ensures Ok() && View() == old(View()).(open := false)
    {
      open := false;
    }

    /** `log_writer_reopen` with a new descriptor, or without one. */
    method Reopen(descriptor: bool)
      requires Ok()
      modifies `open
      ensures Ok() && View() == old(View()).(open := descriptor)
    {
      open := descriptor;
    }
  }
}
