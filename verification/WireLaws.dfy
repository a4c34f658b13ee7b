/** What the parser makes of a line, branch by branch, in terms of the parts the
    line is put together from: priorities, time stamps, hosts, program names. */
module WireLaws {
  import opened Octets
  import opened Framing
  import opened Wire
  import opened WireRoundTrip

  /** A line with a priority, as it is sent. */
  function Line(pri: nat, s: Octets): Octets {
    "<" + Decimal(pri) + ">" + s
  }

  /** `s` ends neither in a line feed nor in a NUL. */
  predicate Unended(s: Octets) {
    s == [] || (s[|s| - 1] != '\n' && s[|s| - 1] != '\0')
  }

  predicate AreEnds(ends: Octets) {
    forall i :: 0 <= i < |ends| ==> ends[i] == '\n' || ends[i] == '\0'
  }

  // ---------------------------------------------------------------------
  // The end of the line
  // ---------------------------------------------------------------------

  lemma {:induction false} StripsEnds(text: Octets, ends: Octets)
    requires Unended(text) && AreEnds(ends)
    ensures StripEnd(text + ends) == text
  {
    if ends == [] {
      assert text + ends == text;
    } else {
      assert (text + ends)[..|text + ends| - 1] == text + ends[..|ends| - 1];
      StripsEnds(text, ends[..|ends| - 1]);
    }
  }

  /** Line feeds and NULs at the end do not matter. */
  lemma {:induction false} EndsIgnored(text: Octets, ends: Octets, opt: Options, bad: Octets -> bool)
    requires Unended(text) && AreEnds(ends)
    ensures Parse(text + ends, opt, bad) == Parse(text, opt, bad)
    ensures opt.noParse ==> Parse(text + ends, opt, bad) == Message(0, [], [], [], text)
  {
    StripsEnds(text, ends);
    StripsEnds(text, []);
    assert text + [] == text;
  }

  lemma {:induction false} StripUnended(s: Octets)
    requires Unended(s)
    ensures StripEnd(s) == s
  {
  }

  // ---------------------------------------------------------------------
  // Priorities
  // ---------------------------------------------------------------------

  lemma {:induction false} LineStripped(pri: nat, s: Octets)
    ensures StripEnd(Line(pri, s)) == "<" + (Decimal(pri) + ['>'] + StripEnd(s))
  {
    StripAfter("<" + Decimal(pri) + ">", s);
    assert "<" + Decimal(pri) + ">" + StripEnd(s) == "<" + (Decimal(pri) + ['>'] + StripEnd(s));
  }

  lemma {:induction false} LineParse(pri: nat, s: Octets, opt: Options, bad: Octets -> bool)
    requires !opt.noParse
    ensures Parse(Line(pri, s), opt, bad) == ReadRest(pri % 0x1_0000, StripEnd(s), opt, bad)
  {
    var digits := Decimal(pri) + ['>'] + StripEnd(s);
    LineStripped(pri, s);
    BehindFirst('<', digits);
    DigitsRead(Decimal(pri), StripEnd(s), 0);
    DecimalFolds(pri);
    NumberRead(Line(pri, s), StripEnd(Line(pri, s)), digits, pri, StripEnd(s), opt, bad);
  }

  lemma {:induction false} NumberRead(
    data: Octets, s: Octets, digits: Octets, value: nat, rest: Octets, opt: Options, bad: Octets -> bool)
    requires !opt.noParse && s == StripEnd(data) && s != [] && s[0] == '<' && s[1..] == digits
    requires ReadDigits(digits, 0) == Number(value, rest)
    ensures Parse(data, opt, bad) == ReadRest(value % 0x1_0000, rest, opt, bad)
  {
  }

  /** Decimal numbers are written with the digits 0 to 9, the highest first. */
  lemma {:induction false} DecimalDigits(n: nat, d: nat)
    requires d < 10
    ensures Decimal(d) == ["0123456789"[d]]
    ensures n > 0 ==> Decimal(n * 10 + d) == Decimal(n) + Decimal(d)
  {
  }

  /** Without a priority it is kern.notice (5) for a kernel source and user.notice
      (13) for any other. */
  lemma {:induction false} DefaultPriority(s: Octets, opt: Options, bad: Octets -> bool)
    requires !opt.noParse && (s == [] || s[0] != '<')
    ensures Parse(s, opt, bad) == Parse(Line(if opt.kernel then 5 else 13, s), opt, bad)
  {
    var pri, t := if opt.kernel then 5 else 13, StripEnd(s);
    StripEndIsPrefix(s);
    LineParse(pri, s, opt, bad);
    RestPriority(pri, t, opt, bad);
    NoBracket(s, t, pri, opt, bad);
  }

  lemma {:induction false} NoBracket(data: Octets, s: Octets, pri: nat, opt: Options, bad: Octets -> bool)
    requires !opt.noParse && s == StripEnd(data) && (s == [] || s[0] != '<') && pri == if opt.kernel then 5 else 13
    ensures Parse(data, opt, bad) == ReadRest(pri, s, opt, bad)
  {
  }

  /** The priority is kept in 16 bits. */
  lemma {:induction false} PriorityWraps(pri: nat, s: Octets, opt: Options, bad: Octets -> bool)
    requires !opt.noParse
    ensures Parse(Line(pri, s), opt, bad) == Parse(Line(pri % 65536, s), opt, bad)
    ensures Parse(Line(pri, s), opt, bad).pri == pri % 65536
  {
    var kept, rest := pri % 65536, StripEnd(s);
    LineParse(pri, s, opt, bad);
    LineParse(kept, s, opt, bad);
    RestPriority(kept, rest, opt, bad);
  }

  lemma {:induction false} RestPriority(pri: nat, s: Octets, opt: Options, bad: Octets -> bool)
    requires pri < 0x1_0000
    ensures ReadRest(pri % 0x1_0000, s, opt, bad) == ReadRest(pri, s, opt, bad)
    ensures ReadRest(pri, s, opt, bad).pri == pri
  {
    assert pri % 0x1_0000 == pri;
  }

  /** A priority without digits is 0. */
  lemma {:induction false} EmptyPriority(s: Octets, opt: Options, bad: Octets -> bool)
    requires !opt.noParse
    ensures Parse("<>" + s, opt, bad) == Parse(Line(0, s), opt, bad)
  {
    StripAfter("<>", s);
    var t := "<>" + StripEnd(s);
    assert t[1..] == ">" + StripEnd(s) && t[1..][1..] == StripEnd(s);
    NumberRead("<>" + s, t, t[1..], 0, StripEnd(s), opt, bad);
    LineParse(0, s, opt, bad);
  }

  lemma {:induction false} DigitsToEnd(s: Octets, value: nat)
    requires forall i :: 0 <= i < |s| ==> IsDigit(s[i])
    ensures ReadDigits(s, value) == Number(Folded(s, value), [])
  {
    if s != [] {
      DigitsToEnd(s[1..], value * 10 + DigitValue(s[0]));
    }
  }

  /** A priority that is not closed is the end of the line. */
  lemma {:induction false} UnclosedPriority(pri: nat, opt: Options, bad: Octets -> bool)
    requires !opt.noParse
    ensures Parse("<" + Decimal(pri), opt, bad) == Parse(Line(pri, []), opt, bad)
  {
    var data, digits := "<" + Decimal(pri), Decimal(pri);
    assert data[1..] == digits;
    StripUnended(data);
    DigitsToEnd(digits, 0);
    DecimalFolds(pri);
    NumberRead(data, data, digits, pri, [], opt, bad);
    LineParse(pri, [], opt, bad);
  }

  lemma {:induction false} DigitsBroken(digits: Octets, c: char, more: Octets, value: nat)
    requires (forall i :: 0 <= i < |digits| ==> IsDigit(digits[i])) && !IsDigit(c) && c != '>'
    ensures ReadDigits(digits + [c] + more, value) == NotANumber
  {
    var s := digits + [c] + more;
    if digits != [] {
      assert s[1..] == digits[1..] + [c] + more;
      DigitsBroken(digits[1..], c, more, value * 10 + DigitValue(digits[0]));
    }
  }

  /** With anything but digits in the brackets the whole line, up to the first NUL,
      becomes the text of a syslog.err message (43). */
  lemma {:induction false} UnparseablePriority(
    digits: Octets, c: char, more: Octets, behind: Octets, opt: Options, bad: Octets -> bool)
    requires !opt.noParse && (forall i :: 0 <= i < |digits| ==> IsDigit(digits[i])) && !IsDigit(c) && c != '>'
    requires var text := "<" + digits + [c] + more;
      NUL !in text && (behind != [] ==> behind[0] == NUL) && Unended(text + behind)
    ensures var text := "<" + digits + [c] + more;
      Parse(text + behind, opt, bad) == Message(43, [], [], [], "unparseable log message: \"" + text + "\"")
  {
    var text := "<" + digits + [c] + more;
    var data := text + behind;
    StripUnended(data);
    assert data[1..] == digits + [c] + (more + behind);
    DigitsBroken(digits, c, more + behind, 0);
    assert data[..|text|] == text;
    IndexOfUnique(data, NUL, |text|);
  }

  // ---------------------------------------------------------------------
  // Lines without a time stamp
  // ---------------------------------------------------------------------

  /** `?` stands for any character, `#` for a digit. */
  ghost predicate Like(s: Octets, pattern: Octets) {
    && |s| >= |pattern|
    && forall i :: 0 <= i < |pattern| ==>
         if pattern[i] == '#' then IsDigit(s[i]) else pattern[i] == '?' || pattern[i] == s[i]
  }

  const ISO := "????-??-??T??:??:??"
  const PIX := "??? ?? ???? ??:??:??:"
  const LINKSYS := "??? ?? ??:??:?? ####"
  const BSD := "??? ?? ??:??:??"

  lemma {:induction false} IsoLooks(s: Octets)
    ensures LooksIso(s) <==> Like(s, ISO)
  {
    if Like(s, ISO) {
      assert ISO[4] == '-' && ISO[7] == '-' && ISO[10] == 'T' && ISO[13] == ':' && ISO[16] == ':';
    }
  }

  lemma {:induction false} PixLooks(s: Octets)
    ensures LooksPix(s) <==> Like(s, PIX)
  {
    if Like(s, PIX) {
      assert PIX[3] == ' ' && PIX[6] == ' ' && PIX[11] == ' ' && PIX[14] == ':' && PIX[17] == ':' && PIX[20] == ':';
    }
  }

  lemma {:induction false} LinksysLooks(s: Octets)
    ensures LooksLinksys(s) <==> Like(s, LINKSYS)
  {
    if Like(s, LINKSYS) {
      assert LINKSYS[3] == ' ' && LINKSYS[6] == ' ' && LINKSYS[9] == ':' && LINKSYS[12] == ':' && LINKSYS[15] == ' ';
      assert LINKSYS[16] == '#' && LINKSYS[17] == '#' && LINKSYS[18] == '#' && LINKSYS[19] == '#';
    }
  }

  lemma {:induction false} BsdLooks(s: Octets)
    ensures LooksBsd(s) <==> Like(s, BSD)
  {
    if Like(s, BSD) {
      assert BSD[3] == ' ' && BSD[6] == ' ' && BSD[9] == ':' && BSD[12] == ':';
    }
  }

  /** `word` is followed by a space, a colon or a bracket, or by nothing. */
  predicate FirstWord(word: Octets, rest: Octets) {
    && (forall i :: 0 <= i < |word| ==> word[i] != ' ' && word[i] != ':' && word[i] != '[')
    && (rest == [] || rest[0] == ' ' || rest[0] == ':' || rest[0] == '[')
  }

  /** A program name needs something that ends it. */
  lemma {:induction false} ProgramIsFirstWord(word: Octets, rest: Octets)
    requires FirstWord(word, rest)
    ensures ProgramOf(word + rest) == if rest == [] then [] else word
  {
    var s := word + rest;
    if rest == [] {
      WholeWord(s, |s|);
    } else {
      assert s[|word|] == rest[0] && s[..|word|] == word;
      WordLengthIs(s, |s|, false, |word|);
    }
  }

  lemma {:induction false} WholeWord(s: Octets, most: nat)
    requires |s| <= most && forall i :: 0 <= i < |s| ==> !EndsWord(s[i])
    ensures WordLength(s, most, false) == |s|
  {
    if s != [] {
      WholeWord(s[1..], most - 1);
    }
  }

  /** Line breaks are spaces in the text, and nothing else changes. */
  ghost predicate IsText(r: Octets, s: Octets) {
    |r| == |s| && forall i :: 0 <= i < |s| ==> r[i] == if s[i] == '\n' || s[i] == '\r' then ' ' else s[i]
  }

  /** Spaces behind the priority do not matter. */
  lemma {:induction false} SpaceBehindPriority(pri: nat, s: Octets, opt: Options, bad: Octets -> bool)
    requires !opt.noParse
    ensures Parse(Line(pri, " " + s), opt, bad) == Parse(Line(pri, s), opt, bad)
  {
    StripAfter(" ", s);
    LineParse(pri, " " + s, opt, bad);
    LineParse(pri, s, opt, bad);
    LeadingSpaceSkipped(StripEnd(s));
  }

  /** Without a time stamp there is no host; the program is the kernel exactly if
      the facility bits (0x03f8) are zero, and otherwise the first word; and all
      that follows the priority is the text. */
  lemma {:induction false} NoStamp(
    pri: nat, word: Octets, rest: Octets, opt: Options, bad: Octets -> bool)
    requires !opt.noParse && pri < 0x1_0000 && FirstWord(word, rest)
    requires var s := word + rest;
      && Unended(s) && (s == [] || s[0] != ' ')
      && !Like(s, ISO) && !Like(s, PIX) && !Like(s, LINKSYS) && !Like(s, BSD)
    ensures var r := Parse(Line(pri, word + rest), opt, bad);
      && r.pri == pri && r.date == [] && r.host == [] && IsText(r.msg, word + rest)
      && r.program == if pri % 0x400 < 8 then "kernel" else if rest == [] then [] else word
  {
    var s := word + rest;
    StripUnended(s);
    LineParse(pri, s, opt, bad);
    IsoLooks(s);
    PixLooks(s);
    LinksysLooks(s);
    BsdLooks(s);
    ProgramIsFirstWord(word, rest);
    Facility(pri);
    assert SkipSpaces(s) == s;
    RestUnstamped(pri, s, opt, bad);
  }

  lemma {:induction false} RestUnstamped(pri: nat, s: Octets, opt: Options, bad: Octets -> bool)
    requires pri < 0x1_0000 && SkipSpaces(s) == s
    requires !LooksIso(s) && !LooksPix(s) && !LooksLinksys(s) && !LooksBsd(s)
    ensures ReadRest(pri % 0x1_0000, s, opt, bad)
      == Message(pri, [], [], if pri / 8 % 128 == 0 then "kernel" else ProgramOf(s), Flatten(s))
  {
    assert pri % 0x1_0000 == pri;
  }

  lemma {:induction false} Facility(pri: nat)
    ensures pri / 8 % 128 == 0 <==> pri % 0x400 < 8
  {
    var high, low := pri / 0x400, pri % 0x400;
    assert pri == high * 0x400 + low;
    assert pri / 8 == high * 128 + low / 8;
    assert pri / 8 % 128 == low / 8;
  }

  // ---------------------------------------------------------------------
  // Time stamps
  // ---------------------------------------------------------------------

  /** A time stamp in one of the four formats, and what is skipped behind it: up to
      six digits of a second for the BSD format. */
  ghost predicate IsStamp(stamp: Octets, extra: Octets) {
    && stamp != [] && stamp[0] != ' '
    && ((Like(stamp, ISO) && ' ' !in stamp && extra == [])
        || (!Like(stamp, ISO) && |stamp| == 21 && Like(stamp, PIX) && extra == [])
        || (!Like(stamp, ISO) && |stamp| == 20 && Like(stamp, LINKSYS) && extra == [])
        || (IsBsdStamp(stamp) && (extra == [] || IsFraction(extra))))
  }

  predicate IsFraction(extra: Octets) {
    0 < |extra| <= 7 && extra[0] == '.' && forall i :: 0 < i < |extra| ==> IsDigit(extra[i])
  }

  lemma {:induction false} FractionRun(s: Octets, n: nat, most: nat)
    requires n <= |s| && n <= most && forall i :: 0 <= i < n ==> IsDigit(s[i])
    requires n == most || (n < |s| && !IsDigit(s[n]))
    ensures DigitRun(s, most) == n
  {
    if n > 0 {
      FractionRun(s[1..], n - 1, most - 1);
    }
  }

  lemma {:induction false} IsoRead(stamp: Octets, t: Octets)
    requires Like(stamp, ISO) && ' ' !in stamp && stamp != []
    ensures ReadStamp(SkipSpaces(stamp + (" " + t))) == Stamp(stamp, " " + t)
  {
    var s := stamp + (" " + t);
    IsoLooks(stamp);
    assert s[..|stamp|] == stamp && s[|stamp|..] == " " + t && LooksIso(s);
    IndexOfUnique(s, ' ', |stamp|);
  }

  lemma {:induction false} PixRead(stamp: Octets, t: Octets)
    requires stamp != [] && stamp[0] != ' ' && !Like(stamp, ISO) && |stamp| == 21 && Like(stamp, PIX)
    ensures ReadStamp(SkipSpaces(stamp + (" " + t))) == Stamp(stamp, " " + t)
  {
    var s := stamp + (" " + t);
    IsoLooks(stamp);
    PixLooks(stamp);
    assert s[..21] == stamp && s[21..] == " " + t;
    assert forall i :: 0 <= i < 21 ==> s[i] == stamp[i];
    assert LooksPix(s) && !LooksIso(s);
  }

  lemma {:induction false} LinksysRead(stamp: Octets, t: Octets)
    requires stamp != [] && stamp[0] != ' ' && !Like(stamp, ISO) && |stamp| == 20 && Like(stamp, LINKSYS)
    ensures ReadStamp(SkipSpaces(stamp + (" " + t))) == Stamp(stamp, " " + t)
  {
    var s := stamp + (" " + t);
    IsoLooks(stamp);
    LinksysLooks(stamp);
    assert s[..20] == stamp && s[20..] == " " + t && s[20] == ' ';
    assert forall i :: 0 <= i < 20 ==> s[i] == stamp[i];
    assert LooksLinksys(s) && !LooksIso(s) && !LooksPix(s);
  }

  lemma {:induction false} FractionRead(stamp: Octets, extra: Octets, t: Octets)
    requires IsBsdStamp(stamp) && IsFraction(extra) && (|extra| == 7 || (t != [] && !IsDigit(t[0])))
    ensures ReadStamp(SkipSpaces(stamp + (extra + t))) == Stamp(stamp, t)
  {
    var s := stamp + (extra + t);
    var behind := extra[1..] + t;
    assert s[..15] == stamp && s[15..] == extra + t && (extra + t)[1..] == behind;
    assert forall i :: 0 <= i < 15 ==> s[i] == stamp[i];
    assert s[15] == '.';
    assert |extra| > 1 ==> s[16] == extra[1];
    assert !LooksPix(s) && !LooksLinksys(s) && LooksBsd(s) && !LooksIso(s);
    FractionRun(behind, |extra| - 1, 6);
    assert behind[|extra| - 1..] == t;
    assert (extra + t)[1 + (|extra| - 1)..] == t;
  }

  lemma {:induction false} StampRead(stamp: Octets, extra: Octets, t: Octets)
    requires IsStamp(stamp, extra) && (IsBsdStamp(stamp) && extra == [] ==> !StartsWithYear(t))
    ensures ReadStamp(SkipSpaces(stamp + extra + " " + t)) == Stamp(stamp, " " + t)
  {
    if extra == [] {
      assert stamp + extra + " " + t == stamp + " " + t == stamp + (" " + t);
      if IsBsdStamp(stamp) {
        PrintedStamp(stamp, t);
      } else if Like(stamp, ISO) {
        IsoRead(stamp, t);
      } else if |stamp| == 21 {
        PixRead(stamp, t);
      } else {
        LinksysRead(stamp, t);
      }
    } else {
      assert stamp + extra + " " + t == stamp + (extra + (" " + t));
      FractionRead(stamp, extra, " " + t);
    }
  }

  /** The message that is read behind a time stamp. */
  function Behind(pri: nat, stamp: Octets, t: Octets, opt: Options, bad: Octets -> bool): Message {
    var body := ReadBody(t, opt.checkHostname, bad);
    Message(pri, stamp, body.host, body.program, Flatten(body.msg))
  }

  lemma {:induction false} RestStamped(
    pri: nat, s: Octets, stamp: Octets, t: Octets, opt: Options, bad: Octets -> bool)
    requires pri < 0x1_0000 && stamp != [] && ReadStamp(SkipSpaces(s)) == Stamp(stamp, t)
    ensures ReadRest(pri % 0x1_0000, s, opt, bad) == Behind(pri, stamp, t, opt, bad)
  {
    assert pri % 0x1_0000 == pri;
  }

  lemma {:induction false} LineStamped(
    pri: nat, s: Octets, t: Octets, stamp: Octets, rest: Octets, opt: Options, bad: Octets -> bool)
    requires !opt.noParse && pri < 0x1_0000 && StripEnd(s) == t
    requires stamp != [] && ReadStamp(SkipSpaces(t)) == Stamp(stamp, rest)
    ensures Parse(Line(pri, s), opt, bad) == Behind(pri, stamp, rest, opt, bad)
  {
    LineParse(pri, s, opt, bad);
    RestStamped(pri, t, stamp, rest, opt, bad);
  }

  lemma {:induction false} StampedLine(
    pri: nat, stamp: Octets, extra: Octets, u: Octets, opt: Options, bad: Octets -> bool)
    requires !opt.noParse && pri < 0x1_0000
    requires IsStamp(stamp, extra) && (IsBsdStamp(stamp) && extra == [] ==> !StartsWithYear(u))
    ensures Parse(Line(pri, stamp + extra + " " + u), opt, bad)
      == Behind(pri, stamp, " " + StripEnd(u), opt, bad)
  {
    var t, s := StripEnd(u), stamp + extra + " " + StripEnd(u);
    StripEndIsPrefix(u);
    StripAfter(stamp + extra + " ", u);
    StampRead(stamp, extra, t);
    LineStamped(pri, stamp + extra + " " + u, s, stamp, " " + t, opt, bad);
  }

  lemma {:induction false} PlainLine(pri: nat, plain: Octets, u: Octets, opt: Options, bad: Octets -> bool)
    requires !opt.noParse && pri < 0x1_0000 && IsBsdStamp(plain) && !StartsWithYear(u)
    ensures Parse(Line(pri, plain + " " + u), opt, bad) == Behind(pri, plain, " " + StripEnd(u), opt, bad)
  {
    StampedLine(pri, plain, [], u, opt, bad);
    assert plain + [] + " " + u == plain + " " + u;
  }

  /** The rest of the line is read in the same way behind any time stamp, and its
      date is that time stamp without the digits of the second. */
  lemma {:induction false} AnyStamp(
    pri: nat, stamp: Octets, extra: Octets, plain: Octets, u: Octets, opt: Options, bad: Octets -> bool)
    requires !opt.noParse && pri < 0x1_0000 && !StartsWithYear(u)
    requires IsStamp(stamp, extra) && IsBsdStamp(plain)
    ensures Parse(Line(pri, stamp + extra + " " + u), opt, bad)
      == Parse(Line(pri, plain + " " + u), opt, bad).(date := stamp)
  {
    StampedLine(pri, stamp, extra, u, opt, bad);
    PlainLine(pri, plain, u, opt, bad);
  }

  lemma {:induction false} FractionLine(
    pri: nat, plain: Octets, extra: Octets, u: Octets, t: Octets, opt: Options, bad: Octets -> bool)
    requires !opt.noParse && pri < 0x1_0000 && t == StripEnd(u)
    requires IsBsdStamp(plain) && IsFraction(extra) && |extra| == 7
    ensures Parse(Line(pri, plain + extra + u), opt, bad) == Behind(pri, plain, t, opt, bad)
  {
    assert (plain + extra)[|plain + extra| - 1] == extra[6];
    StripAfter(plain + extra, u);
    assert plain + extra + t == plain + (extra + t);
    FractionRead(plain, extra, t);
    LineStamped(pri, plain + extra + u, plain + extra + t, plain, t, opt, bad);
  }

  /** Of the digits of a second six are skipped and no more. */
  lemma {:induction false} SixDigits(
    pri: nat, plain: Octets, extra: Octets, u: Octets, opt: Options, bad: Octets -> bool)
    requires !opt.noParse && pri < 0x1_0000 && !StartsWithYear(u)
    requires IsBsdStamp(plain) && IsFraction(extra) && |extra| == 7
    ensures Parse(Line(pri, plain + extra + u), opt, bad) == Parse(Line(pri, plain + " " + u), opt, bad)
  {
    var t := StripEnd(u);
    FractionLine(pri, plain, extra, u, t, opt, bad);
    PlainLine(pri, plain, u, opt, bad);
    SpaceBehind(pri, plain, t, " " + t, opt, bad);
  }

  lemma {:induction false} SpaceBehind(
    pri: nat, stamp: Octets, t: Octets, spaced: Octets, opt: Options, bad: Octets -> bool)
    requires spaced == " " + t
    ensures Behind(pri, stamp, spaced, opt, bad) == Behind(pri, stamp, t, opt, bad)
  {
    LeadingSpaceSkipped(t);
  }

  // ---------------------------------------------------------------------
  // Host, program and text
  // ---------------------------------------------------------------------

  /** The parse of what stands behind a plain time stamp and a space. */
  function After(pri: nat, plain: Octets, u: Octets, opt: Options, bad: Octets -> bool): Message {
    Parse(Line(pri, plain + " " + u), opt, bad)
  }

  ghost predicate Usual(pri: nat, plain: Octets, u: Octets, opt: Options) {
    !opt.noParse && pri < 0x1_0000 && IsBsdStamp(plain) && !StartsWithYear(u) && Unended(u) && (u == [] || u[0] != ' ')
  }

  lemma {:induction false} AfterIs(pri: nat, plain: Octets, u: Octets, opt: Options, bad: Octets -> bool)
    requires Usual(pri, plain, u, opt)
    ensures After(pri, plain, u, opt, bad) == Behind(pri, plain, u, opt, bad)
    ensures SkipSpaces(u) == u
  {
    StripUnended(u);
    PlainLine(pri, plain, u, opt, bad);
    SpaceBehind(pri, plain, u, " " + u, opt, bad);
  }

  predicate InHostName(c: char) {
    'A' <= c <= 'Z' || 'a' <= c <= 'z' || '0' <= c <= '9' || c in "-_.:@/"
  }

  /** A first word that is taken for a host name when a space follows: at most 255
      characters, host characters if they are checked, and not a bad name. */
  ghost predicate IsHostName(word: Octets, opt: Options, bad: Octets -> bool) {
    |word| <= 255 && !bad(word) && (opt.checkHostname ==> forall i :: 0 <= i < |word| ==> InHostName(word[i]))
  }

  /** No forwarded line, and nothing behind the words of a repeat line. */
  predicate NothingSpecial(u: Octets) {
    !("Message forwarded from " <= u) && !("last message repeated" < u)
  }

  lemma {:induction false} SpecialText(u: Octets)
    ensures IsForwarded(u) <==> "Message forwarded from " <= u
    ensures IsRepeat(u) <==> "last message repeated" < u
  {
  }

  lemma {:induction false} Spaces(gap: Octets, rest: Octets)
    requires (forall i :: 0 <= i < |gap| ==> gap[i] == ' ') && (rest == [] || rest[0] != ' ')
    ensures SkipSpaces(gap + rest) == rest
  {
    if gap == [] {
      assert gap + rest == rest;
    } else {
      assert (gap + rest)[1..] == gap[1..] + rest;
      Spaces(gap[1..], rest);
    }
  }

  /** Whether the first word is a host. */
  lemma {:induction false} HostOrNot(word: Octets, rest: Octets, opt: Options, bad: Octets -> bool)
    requires FirstWord(word, rest)
    ensures var s := word + rest;
      var n := WordLength(s, HOST_LIMIT, opt.checkHostname);
      if IsHostName(word, opt, bad) && rest != [] && rest[0] == ' ' then n == |word| && n < |s| && s[n] == ' '
      else n < |s| && s[n] == ' ' ==> n == |word| && bad(word)
  {
    var s, check := word + rest, opt.checkHostname;
    var n := WordLength(s, HOST_LIMIT, check);
    assert s[..|word|] == word && forall i :: 0 <= i < |word| ==> s[i] == word[i];
    assert rest != [] ==> s[|word|] == rest[0];
    if n < |word| && |word| <= 255 {
      assert check && !InHostName(word[n]);
    }
    if n == |word| {
      assert forall i :: 0 <= i < n ==> s[i] == word[i];
    }
  }

  lemma {:induction false} UsualBody(
    pri: nat, plain: Octets, u: Octets, opt: Options, bad: Octets -> bool, body: Body)
    requires Usual(pri, plain, u, opt) && !("Message forwarded from " <= u)
    requires ReadHost(u, [], opt.checkHostname, bad) == body
    ensures After(pri, plain, u, opt, bad) == Message(pri, plain, body.host, body.program, Flatten(body.msg))
  {
    AfterIs(pri, plain, u, opt, bad);
    SpecialText(u);
  }

  lemma {:induction false} HostRead(word: Octets, behind: Octets, text: Octets, opt: Options, bad: Octets -> bool)
    requires FirstWord(word, behind) && IsHostName(word, opt, bad) && behind != [] && behind[0] == ' '
    requires !("last message repeated" < word + behind) && SkipSpaces(behind) == text
    ensures ReadHost(word + behind, [], opt.checkHostname, bad) == Body(word, ProgramOf(text), text)
  {
    var u := word + behind;
    SpecialText(u);
    HostOrNot(word, behind, opt, bad);
    assert u[|word|..] == behind && u[..|word|] == word;
  }

  /** A word at the beginning of the text, then some spaces: the word is the host,
      what follows the spaces is the text, and its first word the program. */
  lemma {:induction false} HostIsFirstWord(
    pri: nat, plain: Octets, word: Octets, gap: Octets, program: Octets, rest: Octets, opt: Options,
    bad: Octets -> bool)
    requires FirstWord(word, " ") && IsHostName(word, opt, bad) && FirstWord(program, rest)
    requires (forall i :: 0 <= i < |gap| ==> gap[i] == ' ') && (program + rest == [] || (program + rest)[0] != ' ')
    requires var u := word + (" " + gap + (program + rest));
      Usual(pri, plain, u, opt) && NothingSpecial(u)
    ensures var r := After(pri, plain, word + (" " + gap + (program + rest)), opt, bad);
      && r.pri == pri && r.date == plain && r.host == word && IsText(r.msg, program + rest)
      && r.program == if rest == [] then [] else program
  {
    var text, behind := program + rest, " " + gap + (program + rest);
    Spaces(" " + gap, text);
    HostRead(word, behind, text, opt, bad);
    UsualBody(pri, plain, word + behind, opt, bad, Body(word, ProgramOf(text), text));
    ProgramIsFirstWord(program, rest);
  }

  lemma {:induction false} NoHostRead(word: Octets, rest: Octets, opt: Options, bad: Octets -> bool)
    requires FirstWord(word, rest) && !(IsHostName(word, opt, bad) && rest != [] && rest[0] == ' ')
    requires !("last message repeated" < word + rest) && SkipSpaces(word + rest) == word + rest
    ensures ReadHost(word + rest, [], opt.checkHostname, bad) == Body([], ProgramOf(word + rest), word + rest)
  {
    var u := word + rest;
    SpecialText(u);
    HostOrNot(word, rest, opt, bad);
    assert u[..|word|] == word;
  }

  /** A first word that is no host name, or that no space follows: there is no
      host, it is the program if something ends it, and all of it is the text. */
  lemma {:induction false} NoHost(
    pri: nat, plain: Octets, word: Octets, rest: Octets, opt: Options, bad: Octets -> bool)
    requires FirstWord(word, rest) && !(IsHostName(word, opt, bad) && rest != [] && rest[0] == ' ')
    requires Usual(pri, plain, word + rest, opt) && NothingSpecial(word + rest)
    ensures var r := After(pri, plain, word + rest, opt, bad);
      && r.pri == pri && r.date == plain && r.host == [] && IsText(r.msg, word + rest)
      && r.program == if rest == [] then [] else word
  {
    var u := word + rest;
    assert SkipSpaces(u) == u;
    NoHostRead(word, rest, opt, bad);
    UsualBody(pri, plain, u, opt, bad, Body([], ProgramOf(u), u));
    ProgramIsFirstWord(word, rest);
  }

  /** A line that says how often the last one was repeated has no host and no
      program. The three words alone do not make one: `<` in `NothingSpecial`. */
  lemma {:induction false} RepeatLine(
    pri: nat, plain: Octets, more: Octets, opt: Options, bad: Octets -> bool)
    requires !opt.noParse && pri < 0x1_0000 && IsBsdStamp(plain) && more != [] && Unended(more)
    ensures var u := "last message repeated" + more;
      var r := After(pri, plain, u, opt, bad);
      r.pri == pri && r.date == plain && r.host == [] && r.program == [] && IsText(r.msg, u)
  {
    var u := "last message repeated" + more;
    assert u[0] == 'l' && "Message forwarded from "[0] == 'M';
    SpecialText(u);
    UsualBody(pri, plain, u, opt, bad, Body([], [], u));
  }

  // ---------------------------------------------------------------------
  // Forwarded lines
  // ---------------------------------------------------------------------

  predicate IsGap(gap: Octets) {
    forall i :: 0 <= i < |gap| ==> gap[i] == ' ' || gap[i] == ':'
  }

  lemma {:induction false} GapSkipped(gap: Octets, rest: Octets)
    requires IsGap(gap) && (rest == [] || (rest[0] != ' ' && rest[0] != ':'))
    ensures SkipSpacesAndColons(gap + rest) == rest
  {
    if gap == [] {
      assert gap + rest == rest;
    } else {
      assert (gap + rest)[1..] == gap[1..] + rest;
      GapSkipped(gap[1..], rest);
    }
  }

  /** A fallback host is used exactly where there would be none. */
  lemma {:induction false} FallbackHost(s: Octets, from: Octets, check: bool, bad: Octets -> bool)
    requires s == [] || s[0] != ' '
    ensures var own := ReadHost(s, [], check, bad);
      ReadHost(s, from, check, bad) == own.(host := if own.host == [] then from else own.host)
  {
  }

  lemma {:induction false} ForwardedBody(
    from: Octets, gap: Octets, rest: Octets, check: bool, bad: Octets -> bool)
    requires ':' !in from && IsGap(gap) && (if gap == [] then rest == [] else gap[0] == ':')
    requires rest == [] || (rest[0] != ' ' && rest[0] != ':')
    ensures ReadBody("Message forwarded from " + from + gap + rest, check, bad) == ReadHost(rest, from, check, bad)
  {
    var u := "Message forwarded from " + from + gap + rest;
    var behind := from + (gap + rest);
    assert u == AIX_FORWARD + behind && u[|AIX_FORWARD|..] == behind && u[..|AIX_FORWARD|] == AIX_FORWARD;
    assert u[0] == 'M';
    assert behind[..|from|] == from && behind[|from|..] == gap + rest;
    assert gap != [] ==> behind[|from|] == ':';
    IndexOfUnique(behind, ':', |from|);
    GapSkipped(gap, rest);
  }

  /** A line that AIX forwarded is read like the line behind the forwarding prefix,
      except that the host it came from stands in for a missing one. */
  lemma {:induction false} ForwardedLine(
    pri: nat, plain: Octets, from: Octets, gap: Octets, rest: Octets, opt: Options, bad: Octets -> bool)
    requires ':' !in from && IsGap(gap) && (if gap == [] then rest == [] else gap[0] == ':')
    requires (rest == [] || rest[0] != ':') && !("Message forwarded from " <= rest) && Usual(pri, plain, rest, opt)
    requires Unended("Message forwarded from " + from + gap + rest)
    ensures var own := After(pri, plain, rest, opt, bad);
      After(pri, plain, "Message forwarded from " + from + gap + rest, opt, bad)
        == own.(host := if own.host == [] then from else own.host)
  {
    var u := "Message forwarded from " + from + gap + rest;
    assert u[0] == 'M';
    AfterIs(pri, plain, u, opt, bad);
    AfterIs(pri, plain, rest, opt, bad);
    ForwardedBody(from, gap, rest, opt.checkHostname, bad);
    SpecialText(rest);
    FallbackHost(rest, from, opt.checkHostname, bad);
  }
}
