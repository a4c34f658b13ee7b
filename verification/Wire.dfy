/** The default protocol line of logwriter.c and the parser of logmsg.c, which
    reads it back (section 4.1 of RFC 3164). Time stamps stay text. */
module Wire {
  import opened Octets
  import opened Framing

  const AIX_FORWARD := "Message forwarded from "
  const REPEAT := "last message repeated"
  const HOST_LIMIT: nat := 255

  /** The parse flags that matter here: LP_NOPARSE, LP_KERNEL and
      LP_CHECK_HOSTNAME. */
  datatype Options = Options(noParse: bool, kernel: bool, checkHostname: bool)

  /** The parts of a message that the parser sets. */
  datatype Message = Message(pri: nat, date: Octets, host: Octets, program: Octets, msg: Octets)

  predicate HostChar(c: char) {
    ('A' <= c <= 'Z') || ('a' <= c <= 'z') || IsDigit(c) ||
    c == '-' || c == '_' || c == '.' || c == ':' || c == '@' || c == '/'
  }

  /** The characters that end a host or a program name. */
  predicate EndsWord(c: char) {
    c == ' ' || c == ':' || c == '['
  }

  // ---------------------------------------------------------------------
  // Parsing, piece by piece
  // ---------------------------------------------------------------------

  function StripEnd(s: Octets): Octets {
    if s != [] && (s[|s| - 1] == LF || s[|s| - 1] == NUL) then StripEnd(s[..|s| - 1]) else s
  }

  function SkipSpaces(s: Octets): Octets {
    if s != [] && s[0] == ' ' then SkipSpaces(s[1..]) else s
  }

  function SkipSpacesAndColons(s: Octets): Octets {
    if s != [] && (s[0] == ' ' || s[0] == ':') then SkipSpacesAndColons(s[1..]) else s
  }

  /** The digits up to '>' or the end; `None` if something else occurs first. */
  datatype Digits = NotANumber | Number(value: nat, rest: Octets)

  function ReadDigits(s: Octets, value: nat): Digits {
    if s == [] then Number(value, [])
    else if s[0] == '>' then Number(value, s[1..])
    else if IsDigit(s[0]) then ReadDigits(s[1..], value * 10 + DigitValue(s[0]))
    else NotANumber
  }

  predicate LooksIso(s: Octets) {
    |s| >= 19 && s[4] == '-' && s[7] == '-' && s[10] == 'T' && s[13] == ':' && s[16] == ':'
  }

  predicate LooksPix(s: Octets) {
    |s| >= 21 && s[3] == ' ' && s[6] == ' ' && s[11] == ' ' && s[14] == ':' && s[17] == ':' && s[20] == ':'
  }

  predicate LooksLinksys(s: Octets) {
    && |s| >= 20 && s[3] == ' ' && s[6] == ' ' && s[9] == ':' && s[12] == ':' && s[15] == ' '
    && IsDigit(s[16]) && IsDigit(s[17]) && IsDigit(s[18]) && IsDigit(s[19])
  }

  predicate LooksBsd(s: Octets) {
    |s| >= 15 && s[3] == ' ' && s[6] == ' ' && s[9] == ':' && s[12] == ':'
  }

  /** How many of the first `most` characters are digits before another. */
  function DigitRun(s: Octets, most: nat): (n: nat)
    ensures n <= |s| && n <= most
  {
    if s != [] && most > 0 && IsDigit(s[0]) then 1 + DigitRun(s[1..], most - 1) else 0
  }

  /** The text of the time stamp at the start of `s`, and what follows it. */
  datatype Stamp = Stamp(date: Octets, rest: Octets)

  function ReadStamp(s: Octets): Stamp {
    if LooksIso(s) then var n := IndexOf(s, ' '); Stamp(s[..n], s[n..])
    else if LooksPix(s) then Stamp(s[..21], s[21..])
    else if LooksLinksys(s) then Stamp(s[..20], s[20..])
    else if LooksBsd(s) then
      var rest := s[15..];
      if rest != [] && rest[0] == '.' then Stamp(s[..15], rest[1 + DigitRun(rest[1..], 6)..])
      else Stamp(s[..15], rest)
    else Stamp([], s)
  }

  /** The length of the word at the start of `s`, of at most `most` characters,
      all of them host characters if `check`. */
  function WordLength(s: Octets, most: nat, check: bool): (n: nat)
    ensures n <= |s| && n <= most
    ensures forall i :: 0 <= i < n ==> !EndsWord(s[i]) && (check ==> HostChar(s[i]))
    ensures n < |s| && n < most ==> EndsWord(s[n]) || (check && !HostChar(s[n]))
  {
    if s != [] && most > 0 && !EndsWord(s[0]) && (check ==> HostChar(s[0]))
    then 1 + WordLength(s[1..], most - 1, check) else 0
  }

  /** The program name at the start of `s`, if something ends it. */
  function ProgramOf(s: Octets): Octets {
    var n := WordLength(s, |s|, false);
    if n < |s| then s[..n] else []
  }

  /** Line breaks inside a message become spaces. */
  function Flatten(s: Octets): (r: Octets)
    ensures |r| == |s|
    ensures forall i :: 0 <= i < |s| ==> r[i] == if s[i] == LF || s[i] == CR then ' ' else s[i]
  {
    if s == [] then []
    else [if s[0] == LF || s[0] == CR then ' ' else s[0]] + Flatten(s[1..])
  }

  /** What follows the time stamp: host, program and message text. */
  datatype Body = Body(host: Octets, program: Octets, msg: Octets)

  predicate IsRepeat(s: Octets) {
    |s| > |REPEAT| && s[..|REPEAT|] == REPEAT
  }

  /** The host if `s` starts with one, and otherwise `fallback`; then program
      and message. */
  function ReadHost(s: Octets, fallback: Octets, check: bool, bad: Octets -> bool): Body {
    if IsRepeat(s) then Body(fallback, [], s)
    else
      var n := WordLength(s, HOST_LIMIT, check);
      if n < |s| && s[n] == ' ' && !bad(s[..n]) then
        var rest := SkipSpaces(s[n..]);
        Body(s[..n], ProgramOf(rest), rest)
      else
        var rest := SkipSpaces(s);
        Body(fallback, ProgramOf(rest), rest)
  }

  predicate IsForwarded(s: Octets) {
    |s| >= |AIX_FORWARD| && s[..|AIX_FORWARD|] == AIX_FORWARD
  }

  function ReadBody(s: Octets, check: bool, bad: Octets -> bool): Body {
    var text := SkipSpaces(s);
    if IsForwarded(text) then
      var from := text[|AIX_FORWARD|..];
      var n := IndexOf(from, ':');
      ReadHost(SkipSpacesAndColons(from[n..]), from[..n], check, bad)
    else ReadHost(text, [], check, bad)
  }

  function UpToNul(s: Octets): Octets {
    s[..IndexOf(s, NUL)]
  }

  /** Everything behind the priority. */
  function ReadRest(pri: nat, s: Octets, opt: Options, bad: Octets -> bool): Message {
    var stamp := ReadStamp(SkipSpaces(s));
    if stamp.date != [] then
      var body := ReadBody(stamp.rest, opt.checkHostname, bad);
      Message(pri, stamp.date, body.host, body.program, Flatten(body.msg))
    else if pri / 8 % 128 == 0 then Message(pri, [], [], "kernel", Flatten(stamp.rest))
    else Message(pri, [], [], ProgramOf(stamp.rest), Flatten(stamp.rest))
  }

  /** `log_msg_parse`. The priority is kept in 16 bits; LOG_SYSLOG | LOG_ERR is
      43, LOG_KERN | LOG_NOTICE is 5, LOG_USER | LOG_NOTICE is 13. */
  function Parse(data: Octets, opt: Options, bad: Octets -> bool): Message {
    var s := StripEnd(data);
    if opt.noParse then Message(0, [], [], [], s)
    else if s != [] && s[0] == '<' then
      match ReadDigits(s[1..], 0)
      case NotANumber => Message(43, [], [], [], "unparseable log message: \"" + UpToNul(s) + "\"")
      case Number(value, rest) => ReadRest(value % 0x1_0000, rest, opt, bad)
    else ReadRest(if opt.kernel then 5 else 13, s, opt, bad)
  }

  // ---------------------------------------------------------------------
  // Printing
  // ---------------------------------------------------------------------

  function DigitChar(n: nat): (c: char)
    requires n < 10
    ensures IsDigit(c) && DigitValue(c) == n
  {
    '0' + n as char
  }

  function Decimal(n: nat): (s: Octets)
    ensures s != [] && forall i :: 0 <= i < |s| ==> IsDigit(s[i])
  {
    if n < 10 then [DigitChar(n)] else Decimal(n / 10) + [DigitChar(n % 10)]
  }

  /** The default protocol line of `log_writer_format_log`. */
  function Print(pri: nat, stamp: Octets, host: Octets, msg: Octets): Octets {
    "<" + Decimal(pri) + ">" + stamp + " " + host + " " + msg + [LF]
  }

  // ---------------------------------------------------------------------
  // When the line survives the relay
  // ---------------------------------------------------------------------

  /** A time stamp as "%h %e %H:%M:%S" prints it. */
  predicate IsBsdStamp(s: Octets) {
    && |s| == 15
    && s[0] != ' ' && s[3] == ' ' && (s[4] == ' ' || IsDigit(s[4])) && IsDigit(s[5]) && s[6] == ' '
    && IsDigit(s[7]) && IsDigit(s[8]) && s[9] == ':'
    && IsDigit(s[10]) && IsDigit(s[11]) && s[12] == ':'
    && IsDigit(s[13]) && IsDigit(s[14])
  }

  predicate StartsWithYear(s: Octets) {
    |s| >= 4 && IsDigit(s[0]) && IsDigit(s[1]) && IsDigit(s[2]) && IsDigit(s[3])
  }

  /** The host can be told from what follows it at the other end. */
  predicate HostSafe(opt: Options, bad: Octets -> bool, host: Octets, msg: Octets) {
    && |host| <= HOST_LIMIT
    && (forall i :: 0 <= i < |host| ==> !EndsWord(host[i]) && (opt.checkHostname ==> HostChar(host[i])))
    && !bad(host) && !StartsWithYear(host)
    && !IsForwarded(host + " " + msg) && !IsRepeat(host + " " + msg)
  }

  /** The first word of the text would be read as a host. */
  predicate StartsWithHost(opt: Options, bad: Octets -> bool, msg: Octets) {
    var n := WordLength(msg, HOST_LIMIT, opt.checkHostname);
    n < |msg| && msg[n] == ' ' && !bad(msg[..n])
  }

  /** Host and text come back from the other end; the host may be empty. */
  predicate RelaySafe(opt: Options, bad: Octets -> bool, host: Octets, msg: Octets) {
    && !opt.noParse
    && (msg == [] || msg[0] != ' ')
    && LF !in msg && CR !in msg
    && if host != [] then HostSafe(opt, bad, host, msg)
       else !IsForwarded(msg) && (IsRepeat(msg) || !StartsWithHost(opt, bad, msg))
  }
}
