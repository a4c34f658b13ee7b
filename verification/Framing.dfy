/** How a byte stream is cut into messages, independently of how it is read
    (logreader.c). */
module Framing {
  import opened Octets

  /** The index of the first `c` in `s`, or `|s|` if there is none. */
  function IndexOf(s: Octets, c: char): (k: nat)
    ensures k <= |s|
    ensures k < |s| ==> s[k] == c
    ensures c !in s[..k]
  {
    if s == [] then 0
    else if s[0] == c then 0
    else
      var k := IndexOf(s[1..], c);
      assert s[..k + 1] == [s[0]] + s[1..][..k];
      k + 1
  }

  predicate IsTrimmed(c: char) {
    c == CR || c == LF || c == NUL
  }

  /** `s` without the line-ending characters at its end. */
  function Trim(s: Octets): Octets {
    if s != [] && IsTrimmed(s[|s| - 1]) then Trim(s[..|s| - 1]) else s
  }

  /** The messages found in a stream and the bytes left over at its end. */
  datatype Cut = Cut(frames: seq<Octets>, rest: Octets)

  /** A message for a line, unless the line is empty. */
  function LineFrame(line: Octets): seq<Octets> {
    if Trim(line) == [] then [] else [Trim(line)]
  }

  /** The greedy cut: at each line feed, or after `cap` bytes without one. */
  function Frames(s: Octets, cap: nat): Cut
    requires cap >= 1
    decreases |s|
  {
    var k := IndexOf(s, LF);
    if k < |s| && k < cap then
      var later := Frames(s[k + 1..], cap);
      Cut(LineFrame(s[..k]) + later.frames, later.rest)
    else if |s| >= cap then
      var later := Frames(s[cap..], cap);
      Cut([s[..cap]] + later.frames, later.rest)
    else
      Cut([], s)
  }

  lemma {:induction false} IndexOfUnique(s: Octets, c: char, k: nat)
    requires k <= |s| && (k < |s| ==> s[k] == c) && c !in s[..k]
    ensures IndexOf(s, c) == k
  {
    var i := IndexOf(s, c);
    assert forall j :: 0 <= j < i ==> s[j] == s[..i][j];
    assert forall j :: 0 <= j < k ==> s[j] == s[..k][j];
  }

  lemma {:induction false} IndexOfPrefix(a: Octets, b: Octets, c: char)
    ensures IndexOf(a, c) < |a| ==> IndexOf(a + b, c) == IndexOf(a, c)
    ensures IndexOf(a, c) == |a| ==> IndexOf(a + b, c) >= |a|
  {
    var k := IndexOf(a, c);
    assert (a + b)[..k] == a[..k];
    if k < |a| {
      IndexOfUnique(a + b, c, k);
    } else {
      assert forall j :: 0 <= j < |a| ==> (a + b)[j] == a[..k][j];
    }
  }

  lemma {:induction false} AppendParts(a: Octets, b: Octets, i: nat)
    requires i <= |a|
    ensures (a + b)[..i] == a[..i] && (a + b)[i..] == a[i..] + b
  {
  }

  ghost predicate StartsWithCut(s: Octets, head: seq<Octets>, past: Octets, cap: nat) {
    cap >= 1 && var later := Frames(past, cap); Frames(s, cap) == Cut(head + later.frames, later.rest)
  }

  /** The first cut does not depend on what follows. */
  lemma {:induction false} FirstCut(a: Octets, b: Octets, cap: nat) returns (head: seq<Octets>, past: nat)
    requires cap >= 1 && (IndexOf(a, LF) < |a| || |a| >= cap)
    ensures 0 < past <= |a|
    ensures StartsWithCut(a, head, a[past..], cap) && StartsWithCut(a + b, head, a[past..] + b, cap)
  {
    var k := IndexOf(a, LF);
    if k < |a| && k < cap {
      LineFirst(a, b, cap, k);
      head, past := LineFrame(a[..k]), k + 1;
    } else {
      FullFirst(a, b, cap);
      head, past := [a[..cap]], cap;
    }
  }

  lemma {:induction false} LineFirst(a: Octets, b: Octets, cap: nat, k: nat)
    requires k == IndexOf(a, LF) < |a| && k < cap
    ensures StartsWithCut(a, LineFrame(a[..k]), a[k + 1..], cap)
    ensures StartsWithCut(a + b, LineFrame(a[..k]), a[k + 1..] + b, cap)
  {
    IndexOfPrefix(a, b, LF);
    AppendParts(a, b, k);
    AppendParts(a, b, k + 1);
    CutAtLine(a, cap, k, a[..k], a[k + 1..]);
    CutAtLine(a + b, cap, k, a[..k], a[k + 1..] + b);
  }

  lemma {:induction false} CutAtLine(s: Octets, cap: nat, k: nat, line: Octets, past: Octets)
    requires k == IndexOf(s, LF) < |s| && k < cap && line == s[..k] && past == s[k + 1..]
    ensures StartsWithCut(s, LineFrame(line), past, cap)
  {
  }

  lemma {:induction false} FullFirst(a: Octets, b: Octets, cap: nat)
    requires 1 <= cap <= |a| && IndexOf(a, LF) >= cap
    ensures StartsWithCut(a, [a[..cap]], a[cap..], cap)
    ensures StartsWithCut(a + b, [a[..cap]], a[cap..] + b, cap)
  {
    IndexOfPrefix(a, b, LF);
    AppendParts(a, b, cap);
    CutWhenFull(a, cap, a[..cap], a[cap..]);
    CutWhenFull(a + b, cap, a[..cap], a[cap..] + b);
  }

  lemma {:induction false} CutWhenFull(s: Octets, cap: nat, chunk: Octets, past: Octets)
    requires 1 <= cap <= |s| && IndexOf(s, LF) >= cap && chunk == s[..cap] && past == s[cap..]
    ensures StartsWithCut(s, [chunk], past, cap)
  {
  }

  /** Cutting can be interrupted anywhere: cut a beginning, then cut what it
      left over followed by the rest of the stream. */
  lemma {:induction false} CutAnywhere(a: Octets, b: Octets, cap: nat)
    requires cap >= 1
    ensures var first := Frames(a, cap);
      var second := Frames(first.rest + b, cap);
      Frames(a + b, cap) == Cut(first.frames + second.frames, second.rest)
    decreases |a|
  {
    if IndexOf(a, LF) < |a| || |a| >= cap {
      var head, past := FirstCut(a, b, cap);
      CutAnywhere(a[past..], b, cap);
      var later := Frames(a[past..], cap);
      Regroup(head, later.frames, Frames(later.rest + b, cap).frames);
    } else {
      assert [] + Frames(a + b, cap).frames == Frames(a + b, cap).frames;
    }
  }

  /** A line after a cleanly cut stream adds its frame. */
  lemma {:induction false} LineCut(s: Octets, frames: seq<Octets>, line: Octets, cap: nat)
    requires cap >= 1 && Frames(s, cap) == Cut(frames, [])
    requires LF !in line && |line| < cap
    ensures Frames(s + line + [LF], cap) == Cut(frames + LineFrame(line), [])
  {
    var ended := line + [LF];
    assert ended[..|line|] == line && ended[|line| + 1..] == [];
    IndexOfUnique(ended, LF, |line|);
    assert Frames([], cap) == Cut([], []);
    assert Frames(ended, cap) == Cut(LineFrame(line), []);
    CutAnywhere(s, ended, cap);
    assert [] + ended == ended && s + line + [LF] == s + ended;
  }

  lemma {:induction false} TrimDrops(line: Octets, ending: Octets)
    requires line != [] && line[|line| - 1] !in {'\r', '\n', '\0'}
    requires forall i :: 0 <= i < |ending| ==> ending[i] in {'\r', '\n', '\0'}
    ensures Trim(line + ending) == line
  {
    if ending == [] {
      assert line + ending == line;
    } else {
      assert (line + ending)[..|line + ending| - 1] == line + ending[..|ending| - 1];
      TrimDrops(line, ending[..|ending| - 1]);
    }
  }

  /** A line ended by CR and LF, by LF alone, or with NULs before the LF gives the
      same message; an ending alone gives none. */
  lemma {:induction false} EndingDropped(line: Octets, ending: Octets, cap: nat)
    requires LF !in line && |line| + |ending| < cap
    requires line != [] ==> line[|line| - 1] !in {'\r', '\0'}
    requires forall i :: 0 <= i < |ending| ==> ending[i] in {'\r', '\0'}
    ensures Frames(line + ending + [LF], cap) == Cut(if line == [] then [] else [line], [])
  {
    var all := line + ending;
    var s := all + [LF];
    if line == [] {
      assert all == ending;
      NothingLeft(ending);
    } else {
      assert line[|line| - 1] in line;
      TrimDrops(line, ending);
    }
    assert Frames([], cap) == Cut([], []) && [] + all + [LF] == s;
    LineCut([], [], all, cap);
    assert [] + LineFrame(all) == LineFrame(all);
  }

  lemma {:induction false} NothingLeft(ending: Octets)
    requires forall i :: 0 <= i < |ending| ==> ending[i] in {'\r', '\0'}
    ensures Trim(ending) == []
  {
    if ending != [] {
      NothingLeft(ending[..|ending| - 1]);
    }
  }

  /** A full buffer without a line feed after a cleanly cut stream is a frame. */
  lemma {:induction false} FullCut(s: Octets, frames: seq<Octets>, chunk: Octets, cap: nat)
    requires cap >= 1 && Frames(s, cap) == Cut(frames, [])
    requires LF !in chunk && |chunk| == cap
    ensures Frames(s + chunk, cap) == Cut(frames + [chunk], [])
  {
    assert chunk[..cap] == chunk && chunk[cap..] == [];
    IndexOfUnique(chunk, LF, |chunk|);
    assert Frames([], cap) == Cut([], []);
    assert Frames(chunk, cap) == Cut([chunk], []);
    CutAnywhere(s, chunk, cap);
    assert [] + chunk == chunk;
  }

  /** `frames` are the messages of `file[origin..to]`, and nothing is left over. */
  ghost predicate CutTo(file: Octets, origin: int, to: int, frames: seq<Octets>, cap: nat) {
    cap >= 1 && 0 <= origin <= to <= |file| && Frames(file[origin..to], cap) == Cut(frames, [])
  }

  lemma {:induction false} SliceJoin(file: Octets, origin: int, at: int, to: int)
    requires 0 <= origin <= at <= to <= |file|
    ensures file[origin..at] + file[at..to] == file[origin..to]
  {
  }

  // ---------------------------------------------------------------------
  // The end of the stream
  // ---------------------------------------------------------------------

  function Whole(rest: Octets): seq<Octets> {
    if rest == [] then [] else [rest]
  }

  /** The messages of a stream that ends: what is left over is a last message. */
  function FinalFrames(s: Octets, cap: nat): seq<Octets>
    requires cap >= 1
  {
    Frames(s, cap).frames + Whole(Frames(s, cap).rest)
  }

  lemma {:induction false} TrimIsPrefix(s: Octets)
    ensures |Trim(s)| <= |s| && Trim(s) == s[..|Trim(s)|]
  {
    if s != [] && IsTrimmed(s[|s| - 1]) {
      TrimIsPrefix(s[..|s| - 1]);
    }
  }

  /** No message of the cut contains a line feed. */
  lemma {:induction false} FramesHaveNoLf(s: Octets, cap: nat, i: nat)
    requires cap >= 1 && i < |FinalFrames(s, cap)|
    ensures LF !in FinalFrames(s, cap)[i]
    decreases |s|
  {
    var k := IndexOf(s, LF);
    if k < |s| && k < cap {
      var line := LineFrame(s[..k]);
      assert FinalFrames(s, cap) == line + FinalFrames(s[k + 1..], cap);
      if i < |line| {
        TrimIsPrefix(s[..k]);
      } else {
        FramesHaveNoLf(s[k + 1..], cap, i - |line|);
      }
    } else if |s| >= cap {
      assert FinalFrames(s, cap) == [s[..cap]] + FinalFrames(s[cap..], cap);
      if i == 0 {
        assert forall j :: 0 <= j < cap ==> s[j] == s[..k][j];
      } else {
        FramesHaveNoLf(s[cap..], cap, i - 1);
      }
    } else {
      assert s[..k] == s;
    }
  }

  /** Taking the whole buffer as one message at the end of the stream is right
      exactly if no line feed is buffered. */
  lemma {:induction false} FlushExact(s: Octets, frames: seq<Octets>, buffered: Octets, cap: nat)
    requires cap >= 1 && Frames(s, cap) == Cut(frames, []) && |buffered| < cap
    ensures FinalFrames(s + buffered, cap) == frames + Whole(buffered) <==> LF !in buffered
  {
    CutAnywhere(s, buffered, cap);
    assert [] + buffered == buffered;
    var mine := Frames(buffered, cap);
    Regroup(frames, mine.frames, Whole(mine.rest));
    assert FinalFrames(s + buffered, cap) == frames + FinalFrames(buffered, cap);
    if LF in buffered {
      if FinalFrames(s + buffered, cap) == frames + Whole(buffered) {
        assert FinalFrames(buffered, cap) == (frames + FinalFrames(buffered, cap))[|frames|..];
        assert Whole(buffered) == (frames + Whole(buffered))[|frames|..];
        FramesHaveNoLf(buffered, cap, 0);
      }
    } else {
      IndexOfUnique(buffered, LF, |buffered|);
    }
  }

  /** When no line feed is buffered, the messages so far are those of the whole
      stream read so far. */
  lemma {:induction false} DrainedIsSpec(s: Octets, frames: seq<Octets>, buffered: Octets, cap: nat)
    requires cap >= 1 && Frames(s, cap) == Cut(frames, [])
    requires LF !in buffered && |buffered| < cap
    ensures Frames(s + buffered, cap) == Cut(frames, buffered)
  {
    CutAnywhere(s, buffered, cap);
    assert [] + buffered == buffered && frames + [] == frames;
    IndexOfUnique(buffered, LF, |buffered|);
  }

  /** Stopping after a cleanly cut beginning and starting again there loses and
      repeats nothing. */
  lemma {:induction false} RestartIsSeamless(s: Octets, frames: seq<Octets>, rest: Octets, cap: nat)
    requires cap >= 1 && Frames(s, cap) == Cut(frames, [])
    ensures frames + Frames(rest, cap).frames == Frames(s + rest, cap).frames
    ensures Frames(rest, cap).rest == Frames(s + rest, cap).rest
    ensures frames + FinalFrames(rest, cap) == FinalFrames(s + rest, cap)
  {
    CutAnywhere(s, rest, cap);
    assert [] + rest == rest;
    Regroup(frames, Frames(rest, cap).frames, Whole(Frames(rest, cap).rest));
  }
}
