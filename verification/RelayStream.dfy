/** Two daemons in a row: what one writes as protocol lines, the other one's
    reader cuts into messages and parses back. */
module RelayStream {
  import opened Octets
  import opened Framing
  import opened Wire
  import opened WireRoundTrip

  datatype Outgoing = Outgoing(pri: nat, stamp: Octets, host: Octets, msg: Octets)

  function LineOf(m: Outgoing): Octets {
    Print(m.pri, m.stamp, m.host, m.msg)
  }

  function LinesOf(ms: seq<Outgoing>): seq<Octets> {
    if ms == [] then [] else [LineOf(ms[0])] + LinesOf(ms[1..])
  }

  /** A message that comes back from its line, if the line is not cut. */
  ghost predicate Relayable(m: Outgoing, opt: Options, bad: Octets -> bool) {
    && m.pri < 0x1_0000 && IsBsdStamp(m.stamp)
    && NUL !in m.msg && LF !in m.stamp && LF !in m.host
    && RelaySafe(opt, bad, m.host, m.msg)
  }

  ghost predicate AllRelayable(ms: seq<Outgoing>, opt: Options, bad: Octets -> bool) {
    forall i :: 0 <= i < |ms| ==> Relayable(ms[i], opt, bad)
  }

  function BodyOf(m: Outgoing): Octets {
    "<" + Decimal(m.pri) + ">" + m.stamp + " " + m.host + " " + m.msg
  }

  /** The line does not end in what a reader takes for a line ending. */
  predicate EndsPlain(body: Octets) {
    body != [] && !IsTrimmed(body[|body| - 1])
  }

  /** The line without its line feed has no line feed, and nothing to trim. */
  lemma {:induction false} LineBody(m: Outgoing, opt: Options, bad: Octets -> bool)
    requires Relayable(m, opt, bad)
    ensures LineOf(m) == BodyOf(m) + [LF] && |LineOf(m)| == |BodyOf(m)| + 1
    ensures LF !in BodyOf(m) && EndsPlain(BodyOf(m))
    ensures StripEnd(BodyOf(m)) == StripEnd(LineOf(m))
  {
    var line, body := LineOf(m), BodyOf(m);
    assert line == body + [LF] && line[..|line| - 1] == body;
    assert forall i :: 0 <= i < |Decimal(m.pri)| ==> Decimal(m.pri)[i] != LF;
    if m.msg == [] {
      assert body[|body| - 1] == ' ';
    } else {
      assert body[|body| - 1] == m.msg[|m.msg| - 1];
    }
  }

  lemma {:induction false} ParseIgnoresEnd(a: Octets, b: Octets, opt: Options, bad: Octets -> bool)
    requires StripEnd(a) == StripEnd(b)
    ensures Parse(a, opt, bad) == Parse(b, opt, bad)
  {
  }

  /** What a line holds parses back. */
  lemma {:induction false} BodyComesBack(m: Outgoing, opt: Options, bad: Octets -> bool)
    requires Relayable(m, opt, bad)
    ensures Returns(BodyOf(m), m, opt, bad)
  {
    LineBody(m, opt, bad);
    ParseIgnoresEnd(BodyOf(m), LineOf(m), opt, bad);
    SafeRoundTrips(m.pri, m.stamp, m.host, m.msg, opt, bad);
  }

  /** `frame` parses back into message `m`. */
  ghost predicate Returns(frame: Octets, m: Outgoing, opt: Options, bad: Octets -> bool) {
    Parse(frame, opt, bad) == Message(m.pri, m.stamp, m.host, ReturnedProgram(m.host, m.msg), m.msg)
  }

  // ---------------------------------------------------------------------
  // Lines and buffers
  // ---------------------------------------------------------------------

  /** What a line is cut into: itself if it fits into the buffer, its line feed
      aside, and several pieces otherwise. */
  lemma {:induction false} LinePieces(body: Octets, rest: Octets, cap: nat) returns (pieces: seq<Octets>)
    requires cap >= 1 && LF !in body && EndsPlain(body)
    ensures StartsWithCut(body + [LF] + rest, pieces, rest, cap)
    ensures pieces != [] && (|pieces| == 1 <==> |body| <= cap)
    ensures |body| <= cap ==> pieces == [body]
    decreases |body|
  {
    var s := body + [LF] + rest;
    assert s[..|body|] == body && s[|body|] == LF && s[|body| + 1..] == rest;
    IndexOfUnique(s, LF, |body|);
    if |body| < cap {
      CutAtLine(s, cap, |body|, body, rest);
      pieces := [body];
    } else if |body| == cap {
      assert s[cap..] == [LF] + rest;
      CutWhenFull(s, cap, body, [LF] + rest);
      EmptyLine([LF] + rest, rest, cap);
      pieces := [body];
    } else {
      var left := body[cap..];
      AppendParts(body, [LF] + rest, cap);
      assert s == body + ([LF] + rest) && left + ([LF] + rest) == left + [LF] + rest;
      CutWhenFull(s, cap, body[..cap], left + [LF] + rest);
      var more := LinePieces(left, rest, cap);
      pieces := [body[..cap]] + more;
      PiecesJoin(s, body[..cap], left + [LF] + rest, more, rest, cap);
    }
  }

  lemma {:induction false} PiecesJoin(
    s: Octets, chunk: Octets, past: Octets, more: seq<Octets>, rest: Octets, cap: nat)
    requires StartsWithCut(s, [chunk], past, cap) && StartsWithCut(past, more, rest, cap)
    ensures StartsWithCut(s, [chunk] + more, rest, cap)
  {
    Regroup([chunk], more, Frames(rest, cap).frames);
  }

  /** The line feed behind a full buffer gives no message. */
  lemma {:induction false} EmptyLine(s: Octets, rest: Octets, cap: nat)
    requires cap >= 1 && s == [LF] + rest
    ensures Frames(s, cap) == Frames(rest, cap)
  {
    assert s[0] == LF && s[..0] == [] && s[1..] == rest;
    IndexOfUnique(s, LF, 0);
    assert LineFrame([]) + Frames(rest, cap).frames == Frames(rest, cap).frames;
  }

  /** Each message is the frame at its place, and nothing else is there. */
  ghost predicate AllReturn(c: Cut, ms: seq<Outgoing>, opt: Options, bad: Octets -> bool) {
    c.rest == [] && |c.frames| == |ms| && forall i :: 0 <= i < |ms| ==> Returns(c.frames[i], ms[i], opt, bad)
  }

  /** The lines fit into a buffer of `cap` bytes, their line feeds aside. */
  ghost predicate AllFit(ms: seq<Outgoing>, cap: nat) {
    forall i :: 0 <= i < |ms| ==> |LineOf(ms[i])| <= cap + 1
  }

  /** The stream of lines that fit gives back each message in order: priority,
      time stamp, host, text. */
  lemma {:induction false} RelayPreserves(ms: seq<Outgoing>, cap: nat, opt: Options, bad: Octets -> bool)
    requires cap >= 1 && AllRelayable(ms, opt, bad) && AllFit(ms, cap)
    ensures AllReturn(Frames(Concat(LinesOf(ms)), cap), ms, opt, bad)
  {
    if ms != [] {
      var body, rest := BodyOf(ms[0]), Concat(LinesOf(ms[1..]));
      RelayPreserves(ms[1..], cap, opt, bad);
      LineBody(ms[0], opt, bad);
      BodyComesBack(ms[0], opt, bad);
      var pieces := LinePieces(body, rest, cap);
      HeadHolds(ms, body, Frames(rest, cap).frames, (frame, m) => Returns(frame, m, opt, bad));
      assert LinesOf(ms)[1..] == LinesOf(ms[1..]);
    }
  }

  lemma {:induction false} HeadHolds(
    ms: seq<Outgoing>, frame: Octets, later: seq<Octets>, p: (Octets, Outgoing) -> bool)
    requires ms != [] && p(frame, ms[0]) && |later| == |ms| - 1
    requires forall i :: 0 <= i < |later| ==> p(later[i], ms[1..][i])
    ensures forall i :: 0 <= i < |ms| ==> p(([frame] + later)[i], ms[i])
  {
    forall i | 0 <= i < |ms| ensures p(([frame] + later)[i], ms[i]) {
      if i > 0 {
        var j := i - 1;
        assert p(later[j], ms[1..][j]);
      }
    }
  }

  /** Lines that do not fit give more messages than there were. */
  lemma {:induction false} TooLongGivesMore(ms: seq<Outgoing>, cap: nat, opt: Options, bad: Octets -> bool)
    requires cap >= 1 && AllRelayable(ms, opt, bad)
    ensures |Frames(Concat(LinesOf(ms)), cap).frames| >= |ms|
    ensures !AllFit(ms, cap) ==> |Frames(Concat(LinesOf(ms)), cap).frames| > |ms|
  {
    if ms != [] {
      TooLongGivesMore(ms[1..], cap, opt, bad);
      LineBody(ms[0], opt, bad);
      var pieces := LinePieces(BodyOf(ms[0]), Concat(LinesOf(ms[1..])), cap);
      assert LinesOf(ms)[1..] == LinesOf(ms[1..]);
      if !AllFit(ms, cap) && |LineOf(ms[0])| <= cap + 1 {
        var i :| 0 <= i < |ms| && |LineOf(ms[i])| > cap + 1;
        assert ms[1..][i - 1] == ms[i];
      }
    }
  }

  /** Exactly the lines that fit come back as the messages they were. */
  lemma {:induction false} RelayPreservesExactly(ms: seq<Outgoing>, cap: nat, opt: Options, bad: Octets -> bool)
    requires cap >= 1 && AllRelayable(ms, opt, bad)
    ensures AllReturn(Frames(Concat(LinesOf(ms)), cap), ms, opt, bad) <==> AllFit(ms, cap)
  {
    TooLongGivesMore(ms, cap, opt, bad);
    if AllFit(ms, cap) {
      RelayPreserves(ms, cap, opt, bad);
    }
  }
}
