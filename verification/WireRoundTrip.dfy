/** A message printed as a default protocol line and parsed again: when it comes
    back as it was, exactly. */
module WireRoundTrip {
  import opened Octets
  import opened Framing
  import opened Wire

  // ---------------------------------------------------------------------
  // Priority
  // ---------------------------------------------------------------------

  function Folded(s: Octets, value: nat): nat
    requires forall i :: 0 <= i < |s| ==> IsDigit(s[i])
  {
    if s == [] then value else Folded(s[1..], value * 10 + DigitValue(s[0]))
  }

  lemma {:induction false} FoldedSnoc(s: Octets, c: char, value: nat)
    requires IsDigit(c) && forall i :: 0 <= i < |s| ==> IsDigit(s[i])
    ensures Folded(s + [c], value) == Folded(s, value) * 10 + DigitValue(c)
  {
    if s == [] {
      assert s + [c] == [c] && [c][1..] == [];
    } else {
      assert (s + [c])[1..] == s[1..] + [c];
      FoldedSnoc(s[1..], c, value * 10 + DigitValue(s[0]));
    }
  }

  lemma {:induction false} DecimalFolds(n: nat)
    ensures Folded(Decimal(n), 0) == n
  {
    if n < 10 {
      assert [DigitChar(n)][1..] == [];
    } else {
      DecimalFolds(n / 10);
      FoldedSnoc(Decimal(n / 10), DigitChar(n % 10), 0);
    }
  }

  lemma {:induction false} DigitsRead(s: Octets, rest: Octets, value: nat)
    requires forall i :: 0 <= i < |s| ==> IsDigit(s[i])
    ensures ReadDigits(s + ['>'] + rest, value) == Number(Folded(s, value), rest)
  {
    if s == [] {
      assert (s + ['>'] + rest)[1..] == rest;
    } else {
      assert (s + ['>'] + rest)[1..] == s[1..] + ['>'] + rest;
      DigitsRead(s[1..], rest, value * 10 + DigitValue(s[0]));
    }
  }

  // ---------------------------------------------------------------------
  // The ends of the line
  // ---------------------------------------------------------------------

  lemma {:induction false} StripEndIsPrefix(s: Octets)
    ensures |StripEnd(s)| <= |s| && StripEnd(s) == s[..|StripEnd(s)|]
    ensures StripEnd(s) != [] ==> StripEnd(s)[|StripEnd(s)| - 1] != LF
  {
    if s != [] && (s[|s| - 1] == LF || s[|s| - 1] == NUL) {
      StripEndIsPrefix(s[..|s| - 1]);
    }
  }

  lemma {:induction false} StripAfter(p: Octets, s: Octets)
    requires p != [] && p[|p| - 1] != LF && p[|p| - 1] != NUL
    ensures StripEnd(p + s) == p + StripEnd(s)
  {
    if s == [] {
      assert p + s == p;
    } else {
      assert (p + s)[..|p + s| - 1] == p + s[..|s| - 1];
      if s[|s| - 1] == LF || s[|s| - 1] == NUL {
        StripAfter(p, s[..|s| - 1]);
      }
    }
  }

  lemma {:induction false} SkipSpacesIsSuffix(s: Octets)
    ensures var r := SkipSpaces(s);
      |r| <= |s| && r == s[|s| - |r|..] && (r != [] ==> r[0] != ' ')
  {
    if s != [] && s[0] == ' ' {
      SkipSpacesIsSuffix(s[1..]);
    }
  }

  lemma {:induction false} SkipMoreIsShorter(s: Octets)
    ensures |SkipSpacesAndColons(s)| <= |s|
  {
    if s != [] && (s[0] == ' ' || s[0] == ':') {
      SkipMoreIsShorter(s[1..]);
    }
  }

  // ---------------------------------------------------------------------
  // What the parser sees of a printed line
  // ---------------------------------------------------------------------

  /** The end of the line without its line feed. */
  function Text(host: Octets, msg: Octets): Octets {
    StripEnd(host + " " + msg)
  }

  lemma {:induction false} PrintedGroups(pri: nat, stamp: Octets, u: Octets)
    ensures "<" + Decimal(pri) + ">" + stamp + " " + u == "<" + (Decimal(pri) + ['>'] + (stamp + " " + u))
  {
  }

  lemma {:induction false} PrintedText(pri: nat, stamp: Octets, host: Octets, msg: Octets)
    ensures Print(pri, stamp, host, msg) == "<" + Decimal(pri) + ">" + stamp + " " + (host + " " + msg + [LF])
  {
  }

  lemma {:induction false} StripLf(u: Octets)
    ensures StripEnd(u + [LF]) == StripEnd(u)
  {
    assert (u + [LF])[..|u|] == u;
  }

  lemma {:induction false} PrintedLine(pri: nat, stamp: Octets, host: Octets, msg: Octets)
    ensures StripEnd(Print(pri, stamp, host, msg)) == "<" + (Decimal(pri) + ['>'] + (stamp + " " + Text(host, msg)))
  {
    PrintedText(pri, stamp, host, msg);
    StripAfter("<" + Decimal(pri) + ">" + stamp + " ", host + " " + msg + [LF]);
    StripLf(host + " " + msg);
    PrintedGroups(pri, stamp, Text(host, msg));
  }

  /** Behind the priority of a printed line the time stamp is found, unless the
      host looks like the year that may follow a time stamp. */
  lemma {:induction false} PrintedStamp(stamp: Octets, t: Octets)
    requires IsBsdStamp(stamp)
    ensures var r := ReadStamp(SkipSpaces(stamp + " " + t));
      if StartsWithYear(t) then |r.date| == 20 else r == Stamp(stamp, " " + t)
  {
    var s := stamp + " " + t;
    assert SkipSpaces(s) == s;
    assert s[4] == stamp[4] && s[11] == stamp[11] && s[3] == ' ' && s[6] == ' ' && s[9] == ':' && s[12] == ':';
    assert s[15] == ' ' && s[15..] == " " + t && s[..15] == stamp;
    assert forall i :: 0 <= i < |t| ==> s[16 + i] == t[i];
  }

  /** A line that starts with a bracketed priority is read behind it. */
  lemma {:induction false} ParseBehindPri(data: Octets, pri: nat, rest: Octets, opt: Options, bad: Octets -> bool)
    requires pri < 0x1_0000 && !opt.noParse
    requires StripEnd(data) == "<" + (Decimal(pri) + ['>'] + rest)
    ensures Parse(data, opt, bad) == ReadRest(pri, rest, opt, bad)
  {
    var digits := Decimal(pri) + ['>'] + rest;
    BehindFirst('<', digits);
    DigitsRead(Decimal(pri), rest, 0);
    DecimalFolds(pri);
    ParseWithPri(data, StripEnd(data), pri, digits, rest, opt, bad);
  }

  lemma {:induction false} ParseWithPri(
    data: Octets, s: Octets, pri: nat, digits: Octets, rest: Octets, opt: Options, bad: Octets -> bool)
    requires pri < 0x1_0000 && !opt.noParse && s == StripEnd(data)
    requires s != [] && s[0] == '<' && s[1..] == digits && ReadDigits(digits, 0) == Number(pri, rest)
    ensures Parse(data, opt, bad) == ReadRest(pri, rest, opt, bad)
  {
    assert pri % 0x1_0000 == pri;
  }

  lemma {:induction false} BehindFirst(c: char, t: Octets)
    ensures ([c] + t)[0] == c && ([c] + t)[1..] == t
  {
  }

  lemma {:induction false} PrintedParse(
    pri: nat, stamp: Octets, host: Octets, msg: Octets, opt: Options, bad: Octets -> bool)
    requires pri < 0x1_0000 && IsBsdStamp(stamp) && !opt.noParse
    ensures var t := Text(host, msg);
      var r := Parse(Print(pri, stamp, host, msg), opt, bad);
      var body := ReadBody(" " + t, opt.checkHostname, bad);
      if StartsWithYear(t) then |r.date| == 20
      else r == Message(pri, stamp, body.host, body.program, Flatten(body.msg))
  {
    var t := Text(host, msg);
    PrintedLine(pri, stamp, host, msg);
    ParseBehindPri(Print(pri, stamp, host, msg), pri, stamp + " " + t, opt, bad);
    PrintedStamp(stamp, t);
  }

  // ---------------------------------------------------------------------
  // Host and message
  // ---------------------------------------------------------------------

  lemma {:induction false} WordLengthIs(s: Octets, most: nat, check: bool, n: nat)
    requires n <= |s| && n <= most
    requires forall i :: 0 <= i < n ==> !EndsWord(s[i]) && (check ==> HostChar(s[i]))
    requires n < |s| && EndsWord(s[n])
    ensures WordLength(s, most, check) == n
  {
    if n > 0 {
      WordLengthIs(s[1..], most - 1, check, n - 1);
    }
  }

  /** If a host is found, it, a separator and the message fit into the text; a
      forwarded line leaves even less room. */
  lemma {:induction false} BodyFits(s: Octets, check: bool, bad: Octets -> bool)
    ensures var text := SkipSpaces(s);
      var body := ReadBody(s, check, bad);
      body.host != [] ==> |body.host| + |body.msg| + (if IsForwarded(text) then 2 else 1) <= |text|
  {
    var text := SkipSpaces(s);
    if IsForwarded(text) {
      var from := text[|AIX_FORWARD|..];
      var n := IndexOf(from, ':');
      SkipMoreIsShorter(from[n..]);
      HostFits(SkipSpacesAndColons(from[n..]), from[..n], check, bad);
    } else {
      HostFits(text, [], check, bad);
    }
  }

  lemma {:induction false} HostFits(s: Octets, fallback: Octets, check: bool, bad: Octets -> bool)
    ensures var body := ReadHost(s, fallback, check, bad);
      |body.msg| <= |s| && (body.host == fallback || |body.host| + |body.msg| + 1 <= |s|)
  {
    var n := WordLength(s, HOST_LIMIT, check);
    if IsRepeat(s) {
    } else if n < |s| && s[n] == ' ' && !bad(s[..n]) {
      SkipSpacesIsSuffix(s[n..]);
    } else {
      SkipSpacesIsSuffix(s);
    }
  }

  lemma {:induction false} FlatMeans(msg: Octets)
    ensures Flatten(msg) == msg <==> LF !in msg && CR !in msg
  {
    var r := Flatten(msg);
    if r == msg {
      assert forall i :: 0 <= i < |msg| ==> r[i] == msg[i];
    }
  }

  /** The text of a safe message starts with its host and ends with its message. */
  lemma {:induction false} SafeText(opt: Options, bad: Octets -> bool, host: Octets, msg: Octets)
    requires RelaySafe(opt, bad, host, msg) && host != [] && NUL !in msg
    ensures Text(host, msg) == host + " " + msg && !StartsWithYear(host + " " + msg)
    ensures SkipSpaces(" " + (host + " " + msg)) == host + " " + msg
  {
    var u := host + " " + msg;
    if msg == [] {
      assert u[|u| - 1] == ' ';
    } else {
      assert u[|u| - 1] == msg[|msg| - 1];
    }
    assert (" " + u)[1..] == u && u[0] == host[0];
    assert |host| < 4 ==> u[|host|] == ' ';
  }

  lemma {:induction false} SafeBody(opt: Options, bad: Octets -> bool, host: Octets, msg: Octets)
    requires RelaySafe(opt, bad, host, msg) && host != []
    ensures var body := ReadHost(host + " " + msg, [], opt.checkHostname, bad);
      body == Body(host, ProgramOf(msg), msg)
  {
    var u := host + " " + msg;
    var n := |host|;
    assert forall i :: 0 <= i < n ==> u[i] == host[i];
    WordLengthIs(u, HOST_LIMIT, opt.checkHostname, n);
    assert u[..n] == host && u[n..] == " " + msg && (" " + msg)[1..] == msg;
    assert SkipSpaces(" " + msg) == SkipSpaces(msg) == msg;
  }

  /** What is asked for: priority, time stamp, host and message come back. */
  predicate RoundTrips(pri: nat, stamp: Octets, host: Octets, msg: Octets, opt: Options, bad: Octets -> bool) {
    var r := Parse(Print(pri, stamp, host, msg), opt, bad);
    r.pri == pri && r.date == stamp && r.host == host && r.msg == msg
  }

  /** The program name that comes back: none for a repeat line. */
  function ReturnedProgram(host: Octets, msg: Octets): Octets {
    if host == [] && IsRepeat(msg) then [] else ProgramOf(msg)
  }

  lemma {:induction false} SafeRoundTrips(
    pri: nat, stamp: Octets, host: Octets, msg: Octets, opt: Options, bad: Octets -> bool)
    requires pri < 0x1_0000 && IsBsdStamp(stamp) && NUL !in msg
    requires RelaySafe(opt, bad, host, msg)
    ensures RoundTrips(pri, stamp, host, msg, opt, bad)
    ensures Parse(Print(pri, stamp, host, msg), opt, bad).program == ReturnedProgram(host, msg)
  {
    PrintedParse(pri, stamp, host, msg, opt, bad);
    FlatMeans(msg);
    if host == [] {
      NoHostBody(opt, bad, msg);
    } else {
      SafeText(opt, bad, host, msg);
      SafeBody(opt, bad, host, msg);
    }
  }

  /** Without a host the text stands behind two spaces, which are skipped. */
  lemma {:induction false} NoHostText(msg: Octets)
    requires NUL !in msg && LF !in msg
    ensures Text([], msg) == " " + msg && !StartsWithYear(" " + msg)
    ensures SkipSpaces(" " + (" " + msg)) == SkipSpaces(msg)
  {
    var u := " " + msg;
    assert [] + " " + msg == u;
    if msg == [] {
      assert u[|u| - 1] == ' ';
    } else {
      assert u[|u| - 1] == msg[|msg| - 1];
    }
    assert u[0] == ' ' && !IsDigit(' ');
    LeadingSpaceSkipped(u);
    LeadingSpaceSkipped(msg);
  }

  lemma {:induction false} NoHostBody(opt: Options, bad: Octets -> bool, msg: Octets)
    requires RelaySafe(opt, bad, [], msg) && NUL !in msg
    ensures !StartsWithYear(Text([], msg))
    ensures ReadBody(" " + Text([], msg), opt.checkHostname, bad) == Body([], ReturnedProgram([], msg), msg)
  {
    NoHostText(msg);
    assert SkipSpaces(msg) == msg;
  }

  /** Without a host, a text that comes back is not forwarded, does not start
      with a space, and does not start with a host. */
  lemma {:induction false} ReturnedWithoutHost(opt: Options, bad: Octets -> bool, msg: Octets)
    requires NUL !in msg && LF !in msg
    requires var body := ReadBody(" " + Text([], msg), opt.checkHostname, bad);
      body.host == [] && |body.msg| == |msg|
    ensures (msg == [] || msg[0] != ' ') && !IsForwarded(msg)
    ensures IsRepeat(msg) || !StartsWithHost(opt, bad, msg)
  {
    NoHostText(msg);
    SkipSpacesIsSuffix(msg);
    BodyShrinks(" " + Text([], msg), opt.checkHostname, bad);
    assert SkipSpaces(msg) == msg[|msg| - |SkipSpaces(msg)|..];
    if |SkipSpaces(msg)| == |msg| {
      assert SkipSpaces(msg) == msg;
    }
  }

  /** The message is not longer than the text, and shorter behind a forwarding
      prefix. */
  lemma {:induction false} BodyShrinks(s: Octets, check: bool, bad: Octets -> bool)
    ensures var text := SkipSpaces(s);
      |ReadBody(s, check, bad).msg| + (if IsForwarded(text) then 1 else 0) <= |text|
  {
    var text := SkipSpaces(s);
    if IsForwarded(text) {
      var from := text[|AIX_FORWARD|..];
      var n := IndexOf(from, ':');
      SkipMoreIsShorter(from[n..]);
      HostFits(SkipSpacesAndColons(from[n..]), from[..n], check, bad);
    } else {
      HostFits(text, [], check, bad);
    }
  }

  /** Text as long as host, space and message together is just these. */
  lemma {:induction false} FullText(host: Octets, msg: Octets)
    requires host != [] && |SkipSpaces(Text(host, msg))| >= |host| + |msg| + 1
    ensures Text(host, msg) == host + " " + msg == SkipSpaces(host + " " + msg)
  {
    var t := Text(host, msg);
    var u := host + " " + msg;
    StripEndIsPrefix(u);
    SkipSpacesIsSuffix(t);
    assert t == u[..|u|];
    assert SkipSpaces(t) == t[0..];
  }

  lemma {:induction false} LeadingSpaceSkipped(t: Octets)
    ensures SkipSpaces(" " + t) == SkipSpaces(t)
  {
    assert (" " + t)[1..] == t;
  }

  /** A host and a message that come back are the two ends of the text, with
      one space between them. */
  lemma {:induction false} ReturnedText(host: Octets, msg: Octets, check: bool, bad: Octets -> bool)
    requires host != []
    requires var body := ReadBody(" " + Text(host, msg), check, bad);
      body.host == host && |body.msg| == |msg|
    ensures Text(host, msg) == host + " " + msg == SkipSpaces(" " + (host + " " + msg))
    ensures !IsForwarded(host + " " + msg)
  {
    BodyFits(" " + Text(host, msg), check, bad);
    LeadingSpaceSkipped(Text(host, msg));
    FullText(host, msg);
  }

  lemma {:induction false} ReturnedHost(host: Octets, msg: Octets, check: bool, bad: Octets -> bool)
    requires host != []
    requires var body := ReadHost(host + " " + msg, [], check, bad);
      body.host == host && |body.msg| == |msg|
    ensures !IsRepeat(host + " " + msg) && |host| <= HOST_LIMIT && !bad(host)
    ensures forall i :: 0 <= i < |host| ==> !EndsWord(host[i]) && (check ==> HostChar(host[i]))
    ensures ReadHost(host + " " + msg, [], check, bad).msg == msg && (msg == [] || msg[0] != ' ')
  {
    var u := host + " " + msg;
    var n := WordLength(u, HOST_LIMIT, check);
    assert u[..n] == host;
    assert n == |host| && u[n..] == " " + msg && (" " + msg)[1..] == msg;
    forall i | 0 <= i < n ensures !EndsWord(host[i]) && (check ==> HostChar(host[i])) {
      assert host[i] == u[i];
    }
    SkipSpacesIsSuffix(msg);
    assert SkipSpaces(" " + msg) == SkipSpaces(msg);
    assert SkipSpaces(msg) == msg[0..];
  }

  lemma {:induction false} YearInText(host: Octets, msg: Octets)
    ensures StartsWithYear(host) ==> StartsWithYear(host + " " + msg)
  {
    var u := host + " " + msg;
    assert forall i :: 0 <= i < |host| ==> u[i] == host[i];
  }

  lemma {:induction false} ReturnedIsSafe(
    pri: nat, stamp: Octets, host: Octets, msg: Octets, opt: Options, bad: Octets -> bool)
    requires pri < 0x1_0000 && IsBsdStamp(stamp) && NUL !in msg
    requires RoundTrips(pri, stamp, host, msg, opt, bad)
    ensures RelaySafe(opt, bad, host, msg)
  {
    ReturnedBody(pri, stamp, host, msg, opt, bad);
    if host == [] {
      ReturnedWithoutHost(opt, bad, msg);
    } else {
      ReturnedText(host, msg, opt.checkHostname, bad);
      ReturnedHost(host, msg, opt.checkHostname, bad);
      YearInText(host, msg);
    }
  }

  lemma {:induction false} ReturnedBody(
    pri: nat, stamp: Octets, host: Octets, msg: Octets, opt: Options, bad: Octets -> bool)
    requires pri < 0x1_0000 && IsBsdStamp(stamp) && RoundTrips(pri, stamp, host, msg, opt, bad)
    ensures !opt.noParse && !StartsWithYear(Text(host, msg)) && LF !in msg && CR !in msg
    ensures var body := ReadBody(" " + Text(host, msg), opt.checkHostname, bad);
      body.host == host && |body.msg| == |msg|
  {
    assert !opt.noParse;
    PrintedParse(pri, stamp, host, msg, opt, bad);
    ReturnedBreaks(ReadBody(" " + Text(host, msg), opt.checkHostname, bad).msg, msg);
  }

  /** What comes back has no line breaks. */
  lemma {:induction false} ReturnedBreaks(body: Octets, msg: Octets)
    requires Flatten(body) == msg
    ensures LF !in msg && CR !in msg && |body| == |msg|
  {
    assert forall i :: 0 <= i < |msg| ==> msg[i] != LF && msg[i] != CR;
  }

  /** A message survives printing and parsing if and only if it is safe. */
  lemma {:induction false} RelayRoundTrip(
    pri: nat, stamp: Octets, host: Octets, msg: Octets, opt: Options, bad: Octets -> bool)
    requires pri < 0x1_0000 && IsBsdStamp(stamp) && NUL !in host && NUL !in msg
    ensures RoundTrips(pri, stamp, host, msg, opt, bad) <==> RelaySafe(opt, bad, host, msg)
  {
    if RelaySafe(opt, bad, host, msg) {
      SafeRoundTrips(pri, stamp, host, msg, opt, bad);
    }
    if RoundTrips(pri, stamp, host, msg, opt, bad) {
      ReturnedIsSafe(pri, stamp, host, msg, opt, bad);
    }
  }
}
