/** The hand-written parser of logmsg.c: a position that moves through the line
    in loops, proved against the parsing functions of `Wire`. */
module WireParser {
  import opened Octets
  import opened Sequences
  import opened Framing
  import opened Wire

  /** The length of `data` without line feeds and NULs at its end. */
  method StrippedLength(data: Octets) returns (length: nat)
    ensures length <= |data| && data[..length] == StripEnd(data)
  {
    length := |data|;
    assert data[..length] == data;
    while length > 0 && (data[length - 1] == LF || data[length - 1] == NUL)
      invariant length <= |data|
      invariant StripEnd(data[..length]) == StripEnd(data)
    {
      assert data[..length][..length - 1] == data[..length - 1];
      length := length - 1;
    }
  }

  /** Moves past blanks, and past colons too if asked to. */
  method SkipBlanks(s: Octets, from: nat, colons: bool) returns (src: nat)
    requires from <= |s|
    ensures from <= src <= |s|
    ensures s[src..] == if colons then SkipSpacesAndColons(s[from..]) else SkipSpaces(s[from..])
  {
    src := from;
    while src < |s| && (s[src] == ' ' || (colons && s[src] == ':'))
      invariant from <= src <= |s|
      invariant colons ==> SkipSpacesAndColons(s[src..]) == SkipSpacesAndColons(s[from..])
      invariant !colons ==> SkipSpaces(s[src..]) == SkipSpaces(s[from..])
    {
      assert s[src..][1..] == s[src + 1..];
      src := src + 1;
    }
  }

  /** Reads the digits of a priority, past the '>' that ends them. */
  method ReadPriority(s: Octets) returns (ok: bool, pri: nat, src: nat)
    requires s != []
    ensures src <= |s|
    ensures ReadDigits(s[1..], 0) == if ok then Number(pri, s[src..]) else NotANumber
  {
    src, pri := 1, 0;
    while src < |s| && s[src] != '>'
      invariant 1 <= src <= |s|
      invariant ReadDigits(s[src..], pri) == ReadDigits(s[1..], 0)
    {
      if !IsDigit(s[src]) {
        return false, pri, src;
      }
      assert s[src..][1..] == s[src + 1..];
      pri := pri * 10 + DigitValue(s[src]);
      src := src + 1;
    }
    ok := true;
    if src < |s| {
      assert s[src..][1..] == s[src + 1..];
      src := src + 1;
    }
  }

  /** The position of the next `c`, or the end. */
  method Find(s: Octets, from: nat, c: char) returns (k: nat)
    requires from <= |s|
    ensures from <= k <= |s| && k - from == IndexOf(s[from..], c)
  {
    k := from;
    while k < |s| && s[k] != c
      invariant from <= k <= |s|
      invariant c !in s[from..k]
    {
      k := k + 1;
    }
    assert s[from..][..k - from] == s[from..k];
    IndexOfUnique(s[from..], c, k - from);
  }

  /** Moves past the digits of a fraction, at most six of them. */
  method SkipFraction(s: Octets, from: nat) returns (src: nat)
    requires from <= |s|
    ensures from <= src <= |s| && src - from == DigitRun(s[from..], 6)
  {
    src := from;
    var div := 6;
    while src < |s| && div > 0 && IsDigit(s[src])
      invariant from <= src <= |s| && 0 <= div <= 6
      invariant src - from + DigitRun(s[src..], div) == DigitRun(s[from..], 6)
    {
      assert s[src..][1..] == s[src + 1..];
      src, div := src + 1, div - 1;
    }
  }

  /** The position behind a BSD time stamp at `from` and its fraction. */
  method TakeBsdStamp(s: Octets, from: nat) returns (src: nat)
    requires from + 15 <= |s|
    ensures from <= src <= |s|
    ensures var rest := s[from + 15..];
      s[src..] == if rest != [] && rest[0] == '.' then rest[1 + DigitRun(rest[1..], 6)..] else rest
  {
    src := from + 15;
    if src < |s| && s[src] == '.' {
      SuffixParts(s, src, 1);
      var n := DigitRun(s[src + 1..], 6);
      SuffixParts(s, src, 1 + n);
      src := SkipFraction(s, src + 1);
    }
  }

  /** The position behind the time stamp at `from`, and the stamp's length. */
  method TakeStamp(s: Octets, from: nat) returns (src: nat, length: nat)
    requires from <= |s|
    ensures from <= src <= |s| && from + length <= |s|
    ensures ReadStamp(s[from..]) == Stamp(s[from..from + length], s[src..])
  {
    var t := s[from..];
    if LooksIso(t) {
      src := Find(s, from, ' ');
      length := src - from;
    } else if LooksPix(t) {
      src, length := from + 21, 21;
    } else if LooksLinksys(t) {
      src, length := from + 20, 20;
    } else if LooksBsd(t) {
      src := TakeBsdStamp(s, from);
      length := 15;
    } else {
      src, length := from, 0;
    }
    SuffixParts(s, from, length);
  }

  /** The end of the word at `from`. */
  method ScanWord(s: Octets, from: nat, most: nat, check: bool) returns (src: nat)
    requires from <= |s|
    ensures from <= src <= |s| && src - from == WordLength(s[from..], most, check)
  {
    src := from;
    var dst := 0;
    while src < |s| && !EndsWord(s[src]) && dst < most
      invariant from <= src <= |s| && dst == src - from <= most
      invariant dst + WordLength(s[src..], most - dst, check) == WordLength(s[from..], most, check)
    {
      if check && !HostChar(s[src]) {
        break;
      }
      assert s[src..][1..] == s[src + 1..];
      dst, src := dst + 1, src + 1;
    }
  }

  method TakeProgram(s: Octets, from: nat) returns (program: Octets)
    requires from <= |s|
    ensures program == ProgramOf(s[from..])
  {
    var src := ScanWord(s, from, |s| - from, false);
    program := [];
    if src < |s| {
      program := s[from..src];
    }
    assert s[from..][..src - from] == s[from..src];
  }

  /** The host at `from`, if there is one, and the position behind it. */
  method TakeHostName(s: Octets, from: nat, fallback: Octets, check: bool, bad: Octets -> bool)
    returns (host: Octets, src: nat)
    requires from <= |s|
    ensures from <= src <= |s|
    ensures var t := s[from..];
      var n := WordLength(t, HOST_LIMIT, check);
      if n < |t| && t[n] == ' ' && !bad(t[..n]) then host == t[..n] && s[src..] == t[n..]
      else host == fallback && src == from
  {
    src := ScanWord(s, from, HOST_LIMIT, check);
    ghost var t, n := s[from..], src - from;
    host := s[from..src];
    assert t[..n] == host && t[n..] == s[src..];
    assert n < |t| ==> t[n] == s[src];
    if !(src < |s| && s[src] == ' ' && !bad(host)) {
      host, src := fallback, from;
    }
  }

  /** Host, program and message from position `from` on. */
  method TakeHost(s: Octets, from: nat, fallback: Octets, check: bool, bad: Octets -> bool) returns (body: Body)
    requires from <= |s|
    ensures body == ReadHost(s[from..], fallback, check, bad)
  {
    var src := from;
    var host, program := fallback, [];
    if !IsRepeat(s[from..]) {
      host, src := TakeHostName(s, from, fallback, check, bad);
      src := SkipBlanks(s, src, false);
      program := TakeProgram(s, src);
    }
    body := Body(host, program, s[src..]);
  }

  /** The host that forwarded the line, behind the forwarding prefix at `from`. */
  method TakeForwarder(s: Octets, from: nat) returns (host: Octets, src: nat)
    requires from <= |s| && IsForwarded(s[from..])
    ensures from <= src <= |s|
    ensures var rest := s[from..][|AIX_FORWARD|..];
      var n := IndexOf(rest, ':');
      host == rest[..n] && s[src..] == SkipSpacesAndColons(rest[n..])
  {
    var start := from + |AIX_FORWARD|;
    SuffixParts(s, from, |AIX_FORWARD|);
    var colon := Find(s, start, ':');
    SuffixParts(s, start, colon - start);
    host := s[start..colon];
    src := SkipBlanks(s, colon, true);
  }

  method TakeBody(s: Octets, from: nat, check: bool, bad: Octets -> bool) returns (body: Body)
    requires from <= |s|
    ensures body == ReadBody(s[from..], check, bad)
  {
    var src := SkipBlanks(s, from, false);
    var host: Octets := [];
    if IsForwarded(s[src..]) {
      host, src := TakeForwarder(s, src);
    }
    body := TakeHost(s, src, host, check, bad);
  }

  /** Line breaks become spaces, one position at a time. */
  method ReplaceBreaks(s: Octets) returns (r: Octets)
    ensures r == Flatten(s)
  {
    ghost var goal := Flatten(s);
    r := s;
    for i := 0 to |s|
      invariant |r| == |s|
      invariant forall j :: 0 <= j < i ==> r[j] == goal[j]
      invariant forall j :: i <= j < |s| ==> r[j] == s[j]
    {
      if r[i] == LF || r[i] == CR {
        r := r[i := ' '];
      }
    }
  }

  method TakeRest(pri: nat, s: Octets, from: nat, opt: Options, bad: Octets -> bool) returns (m: Message)
    requires from <= |s|
    ensures m == ReadRest(pri, s[from..], opt, bad)
  {
    var start := SkipBlanks(s, from, false);
    var src, length := TakeStamp(s, start);
    if length > 0 {
      var body := TakeBody(s, src, opt.checkHostname, bad);
      var msg := ReplaceBreaks(body.msg);
      m := Message(pri, s[start..start + length], body.host, body.program, msg);
    } else {
      var program := "kernel";
      if pri / 8 % 128 != 0 {
        program := TakeProgram(s, src);
      }
      var msg := ReplaceBreaks(s[src..]);
      m := Message(pri, [], [], program, msg);
    }
  }

  /** `log_msg_parse`. */
  method LogMsgParse(data: Octets, opt: Options, bad: Octets -> bool) returns (m: Message)
    ensures m == Parse(data, opt, bad)
  {
    var length := StrippedLength(data);
    var s := data[..length];
    if opt.noParse {
      return Message(0, [], [], [], s);
    }
    if length > 0 && s[0] == '<' {
      var ok, pri, src := ReadPriority(s);
      if !ok {
        return Message(43, [], [], [], "unparseable log message: \"" + UpToNul(s) + "\"");
      }
      m := TakeRest(pri % 0x1_0000, s, src, opt, bad);
    } else {
      m := TakeRest(if opt.kernel then 5 else 13, s, 0, opt, bad);
    }
  }
}
