/** Message templates (templates.c): compiling a template into a list of texts
    and macros, once and lazily, and formatting messages with that list. */
module Template {
  import opened Octets
  import opened Sequences
  import opened Framing
  import opened Wire

  /** A text followed by a macro; macro 0 (M_NONE) expands to nothing. */
  datatype Elem = Elem(text: Octets, macro: nat)

  /** M_MATCH_REF_OFS: macros from here on are the captures of a filter. */
  const MATCH_REF: nat := 256

  predicate IsNameChar(c: char) {
    'A' <= c <= 'Z' || c == '_'
  }

  /** The macro of that name, or none. */
  function NamedMacro(names: map<Octets, nat>, name: Octets): nat {
    if name in names then names[name] else 0
  }

  // ---------------------------------------------------------------------
  // What a template means
  // ---------------------------------------------------------------------

  predicate IsNumber(s: Octets) {
    s != [] && forall i :: 0 <= i < |s| ==> IsDigit(s[i])
  }

  function NumberOf(s: Octets): nat
    requires forall i :: 0 <= i < |s| ==> IsDigit(s[i])
  {
    if s == [] then 0 else NumberOf(s[..|s| - 1]) * 10 + DigitValue(s[|s| - 1])
  }

  function NameLength(s: Octets): (n: nat)
    ensures n <= |s|
  {
    if s != [] && IsNameChar(s[0]) then 1 + NameLength(s[1..]) else 0
  }

  /** How many characters a reference behind a dollar sign has. */
  function RefLength(s: Octets): (n: nat)
    ensures n <= |s|
  {
    if s != [] && IsDigit(s[0]) then 1
    else if s != [] && s[0] == '{' then
      var k := IndexOf(s[1..], '}');
      if k < |s[1..]| then k + 2 else |s|
    else NameLength(s)
  }

  /** The macro a reference behind a dollar sign stands for: a single digit, a
      number or a name in braces, or a name of capitals and underscores. */
  function RefMacro(s: Octets, names: map<Octets, nat>): nat {
    if s != [] && IsDigit(s[0]) then MATCH_REF + DigitValue(s[0])
    else if s != [] && s[0] == '{' then
      var name := s[1..][..IndexOf(s[1..], '}')];
      if IsNumber(name) then MATCH_REF + NumberOf(name) else NamedMacro(names, name)
    else NamedMacro(names, s[..NameLength(s)])
  }

  /** Every opening brace of a reference is closed. */
  predicate Closed(s: Octets)
    decreases |s|
  {
    s == [] ||
    (if s[0] != '$' then Closed(s[1..])
     else
       && (|s| > 1 && s[1] == '{' ==> '}' in s[2..])
       && Closed(s[1 + RefLength(s[1..])..]))
  }

  function ValueOf(macro: nat, value: nat -> Octets): Octets {
    if macro == 0 then [] else value(macro)
  }

  /** Direct substitution from left to right. */
  function Expand(s: Octets, names: map<Octets, nat>, value: nat -> Octets): Octets
    decreases |s|
  {
    if s == [] then []
    else if s[0] != '$' then [s[0]] + Expand(s[1..], names, value)
    else ValueOf(RefMacro(s[1..], names), value) + Expand(s[1 + RefLength(s[1..])..], names, value)
  }

  // ---------------------------------------------------------------------
  // Template syntax
  // ---------------------------------------------------------------------

  /** Text without a dollar sign stands for itself. */
  lemma {:induction false} TextExpands(text: Octets, rest: Octets, names: map<Octets, nat>, value: nat -> Octets)
    requires '$' !in text
    ensures Expand(text + rest, names, value) == text + Expand(rest, names, value)
  {
    if text == [] {
      assert text + rest == rest;
    } else {
      assert (text + rest)[0] == text[0] && (text + rest)[1..] == text[1..] + rest;
      TextExpands(text[1..], rest, names, value);
    }
  }

  lemma {:induction false} RefExpands(
    ref: Octets, rest: Octets, macro: nat, names: map<Octets, nat>, value: nat -> Octets)
    requires RefLength(ref + rest) == |ref| && RefMacro(ref + rest, names) == macro
    ensures Expand(['$'] + ref + rest, names, value) == ValueOf(macro, value) + Expand(rest, names, value)
  {
    var s := ['$'] + ref + rest;
    assert s[0] == '$' && s[1..] == ref + rest && s[1 + |ref|..] == rest;
  }

  /** `$0` to `$9` are the captures 0 to 9, whatever follows. */
  lemma {:induction false} DigitExpands(d: nat, rest: Octets, names: map<Octets, nat>, value: nat -> Octets)
    requires d < 10
    ensures Expand(['$', "0123456789"[d]] + rest, names, value) == value(256 + d) + Expand(rest, names, value)
  {
    var ref := ["0123456789"[d]];
    assert ['$'] + ref + rest == ['$', "0123456789"[d]] + rest;
    RefExpands(ref, rest, 256 + d, names, value);
  }

  /** What stands in the braces. */
  lemma {:induction false} BracedMacro(name: Octets, rest: Octets, names: map<Octets, nat>)
    requires '}' !in name
    ensures RefLength("{" + name + "}" + rest) == |name| + 2
    ensures RefMacro("{" + name + "}" + rest, names)
      == if IsNumber(name) then 256 + NumberOf(name) else NamedMacro(names, name)
  {
    var s := "{" + name + "}" + rest;
    assert s[0] == '{' && s[1..] == name + "}" + rest && s[1..][..|name|] == name && s[1..][|name|] == '}';
    IndexOfUnique(s[1..], '}', |name|);
  }

  lemma {:induction false} NumberIs(n: nat)
    ensures IsNumber(Decimal(n)) && NumberOf(Decimal(n)) == n
  {
    if n < 10 {
      assert [DigitChar(n)][..0] == [];
    } else {
      NumberIs(n / 10);
      assert Decimal(n)[..|Decimal(n)| - 1] == Decimal(n / 10);
    }
  }

  lemma {:induction false} BracedExpands(
    name: Octets, rest: Octets, macro: nat, names: map<Octets, nat>, value: nat -> Octets)
    requires '}' !in name && macro == if IsNumber(name) then 256 + NumberOf(name) else NamedMacro(names, name)
    ensures Expand("${" + name + "}" + rest, names, value) == ValueOf(macro, value) + Expand(rest, names, value)
  {
    BracedMacro(name, rest, names);
    assert "{" + name + "}" + rest == ("{" + name + "}") + rest;
    assert ['$'] + ("{" + name + "}") + rest == "${" + name + "}" + rest;
    RefExpands("{" + name + "}", rest, macro, names, value);
  }

  /** `${12}` is capture 12. */
  lemma {:induction false} NumberExpands(n: nat, rest: Octets, names: map<Octets, nat>, value: nat -> Octets)
    ensures Expand("${" + Decimal(n) + "}" + rest, names, value) == value(256 + n) + Expand(rest, names, value)
  {
    NumberIs(n);
    assert forall i :: 0 <= i < |Decimal(n)| ==> Decimal(n)[i] != '}';
    BracedExpands(Decimal(n), rest, 256 + n, names, value);
  }

  /** `${NAME}` is the macro of that name; an unknown name, or none, is nothing. */
  lemma {:induction false} NameExpands(name: Octets, rest: Octets, names: map<Octets, nat>, value: nat -> Octets)
    requires '}' !in name && (name == [] || exists i :: 0 <= i < |name| && !('0' <= name[i] <= '9'))
    ensures Expand("${" + name + "}" + rest, names, value)
      == (if name in names && names[name] != 0 then value(names[name]) else []) + Expand(rest, names, value)
  {
    BracedExpands(name, rest, NamedMacro(names, name), names, value);
  }

  lemma {:induction false} NameRuns(name: Octets, rest: Octets)
    requires forall i :: 0 <= i < |name| ==> name[i] == '_' || 'A' <= name[i] <= 'Z'
    requires rest == [] || !(rest[0] == '_' || 'A' <= rest[0] <= 'Z')
    ensures NameLength(name + rest) == |name|
  {
    if name == [] {
      assert name + rest == rest;
    } else {
      assert (name + rest)[1..] == name[1..] + rest;
      NameRuns(name[1..], rest);
    }
  }

  /** `$NAME` reaches as far as capitals and underscores go; a dollar sign before
      anything else than a name, a digit or a brace is dropped. */
  lemma {:induction false} PlainNameExpands(
    name: Octets, rest: Octets, names: map<Octets, nat>, value: nat -> Octets)
    requires forall i :: 0 <= i < |name| ==> name[i] == '_' || 'A' <= name[i] <= 'Z'
    requires rest == [] || !(rest[0] == '_' || 'A' <= rest[0] <= 'Z')
    requires name == [] && rest != [] ==> rest[0] != '{' && !('0' <= rest[0] <= '9')
    ensures Expand(['$'] + name + rest, names, value)
      == (if name in names && names[name] != 0 then value(names[name]) else []) + Expand(rest, names, value)
  {
    NameRuns(name, rest);
    assert (name + rest)[..|name|] == name;
    assert name != [] ==> (name + rest)[0] == name[0];
    assert name == [] ==> name + rest == rest;
    RefExpands(name, rest, NamedMacro(names, name), names, value);
  }

  // ---------------------------------------------------------------------
  // Compiling
  // ---------------------------------------------------------------------

  /** The elements for `s` when `text` is waiting for a macro to follow it. */
  function Compiled(s: Octets, names: map<Octets, nat>, text: Octets): seq<Elem>
    decreases |s|
  {
    if s == [] then (if text == [] then [] else [Elem(text, 0)])
    else if s[0] != '$' then Compiled(s[1..], names, text + [s[0]])
    else
      var macro := RefMacro(s[1..], names);
      var rest := s[1 + RefLength(s[1..])..];
      if macro == 0 then Compiled(rest, names, text)
      else [Elem(text, macro)] + Compiled(rest, names, [])
  }

  function Render(elems: seq<Elem>, value: nat -> Octets): Octets {
    if elems == [] then [] else elems[0].text + ValueOf(elems[0].macro, value) + Render(elems[1..], value)
  }

  /** Compiling preserves the meaning of every template. */
  lemma {:induction false} CompileMeans(s: Octets, names: map<Octets, nat>, text: Octets, value: nat -> Octets)
    ensures Render(Compiled(s, names, text), value) == text + Expand(s, names, value)
    decreases |s|
  {
    if s == [] {
      if text != [] {
        assert [Elem(text, 0)][1..] == [];
      }
      assert text + [] == text;
    } else if s[0] != '$' {
      CompileMeans(s[1..], names, text + [s[0]], value);
      assert (text + [s[0]]) + Expand(s[1..], names, value) == text + ([s[0]] + Expand(s[1..], names, value));
    } else {
      var macro := RefMacro(s[1..], names);
      var rest := s[1 + RefLength(s[1..])..];
      if macro == 0 {
        CompileMeans(rest, names, text, value);
        assert [] + Expand(rest, names, value) == Expand(rest, names, value);
      } else {
        CompileMeans(rest, names, [], value);
        var elems := Compiled(rest, names, []);
        assert ([Elem(text, macro)] + elems)[1..] == elems;
        assert [] + Expand(rest, names, value) == Expand(rest, names, value);
        assert text + value(macro) + Expand(rest, names, value) == text + (value(macro) + Expand(rest, names, value));
      }
    }
  }

  lemma {:induction false} Shift(elems: seq<Elem>, e: Elem, rest: seq<Elem>)
    ensures elems + ([e] + rest) == (elems + [e]) + rest
  {
  }

  lemma {:induction false} CompiledText(s: Octets, p: nat, names: map<Octets, nat>, text: Octets)
    requires p < |s| && s[p] != '$'
    ensures Compiled(s[p..], names, text) == Compiled(s[p + 1..], names, text + [s[p]])
    ensures Closed(s[p..]) ==> Closed(s[p + 1..])
  {
    assert s[p..][1..] == s[p + 1..];
  }

  lemma {:induction false} CompiledRef(
    s: Octets, p: nat, next: nat, names: map<Octets, nat>, text: Octets, macro: nat)
    requires p < next <= |s| && s[p] == '$' && next == p + 1 + RefLength(s[p + 1..])
    requires macro == RefMacro(s[p + 1..], names)
    ensures macro == 0 ==> Compiled(s[p..], names, text) == Compiled(s[next..], names, text)
    ensures macro != 0 ==> Compiled(s[p..], names, text) == [Elem(text, macro)] + Compiled(s[next..], names, [])
  {
    SuffixParts(s, p, 1);
    SuffixParts(s, p, next - p);
  }

  lemma {:induction false} RefTaken(
    elems: seq<Elem>, text: Octets, macro: nat, before: seq<Elem>, after: seq<Elem>, more: seq<Elem>)
    requires if macro == 0 then before == after && more == elems
             else before == [Elem(text, macro)] + after && more == elems + [Elem(text, macro)]
    ensures more + after == elems + before
  {
    if macro != 0 {
      Shift(elems, Elem(text, macro), after);
    }
  }

  /** Reading one more character of a number. */
  lemma {:induction false} NumberSnoc(s: Octets, from: nat, to: nat)
    requires from <= to < |s|
    ensures var before, after := s[from..to], s[from..to + 1];
      && after == before + [s[to]]
      && ((forall i :: 0 <= i < |after| ==> IsDigit(after[i])) <==>
          (forall i :: 0 <= i < |before| ==> IsDigit(before[i])) && IsDigit(s[to]))
      && ((forall i :: 0 <= i < |after| ==> IsDigit(after[i])) ==>
            NumberOf(after) == NumberOf(before) * 10 + DigitValue(s[to]))
  {
    var before, after := s[from..to], s[from..to + 1];
    assert after[..|after| - 1] == before && after[|before|] == s[to];
    assert forall i :: 0 <= i < |before| ==> before[i] == after[i];
  }

  class LogTemplate {
    const template: Octets
    const names: map<Octets, nat>
    var compiled: seq<Elem>

    ghost predicate Valid()
      reads this
    {
      Closed(template) && (compiled == [] || compiled == Compiled(template, names, []))
    }

    constructor (template: Octets, names: map<Octets, nat>)
      requires Closed(template)
      ensures Valid() && this.template == template && this.names == names
    {
      this.template, this.names, compiled := template, names, [];
    }

    /** A reference in braces that starts at `start`: its macro, and the position
        behind the closing brace. */
    method ReadBraced(start: nat) returns (macro: nat, p: nat)
      requires 0 < start <= |template| && template[start - 1] == '{' && '}' in template[start..]
      ensures p <= |template| && p == start - 1 + RefLength(template[start - 1..])
      ensures macro == RefMacro(template[start - 1..], names)
    {
      var refNumber := 0;
      p := start;
      while p < |template| && template[p] != '}'
        invariant start <= p <= |template|
        invariant '}' !in template[start..p]
        invariant refNumber >= 0 <==> forall i :: 0 <= i < p - start ==> IsDigit(template[start..p][i])
        invariant refNumber >= 0 ==> refNumber == NumberOf(template[start..p])
      {
        NumberSnoc(template, start, p);
        if refNumber >= 0 {
          refNumber := if IsDigit(template[p]) then refNumber * 10 + DigitValue(template[p]) else -1;
        }
        p := p + 1;
      }
      BracedRef(start, p);
      var name := template[start..p];
      p := p + 1;
      macro := if refNumber >= 0 && p - start > 1 then MATCH_REF + refNumber else NamedMacro(names, name);
    }

    lemma {:induction false} BracedRef(start: nat, p: nat)
      requires 0 < start <= p <= |template| && template[start - 1] == '{' && '}' in template[start..]
      requires '}' !in template[start..p] && (p < |template| ==> template[p] == '}')
      ensures p < |template| && RefLength(template[start - 1..]) == p - start + 2
      ensures template[start - 1..][1..][..IndexOf(template[start - 1..][1..], '}')] == template[start..p]
    {
      var s := template[start - 1..];
      assert s[1..] == template[start..] == template[start..|template|] && s[0] == '{';
      assert template[start..][..p - start] == template[start..p];
      IndexOfUnique(template[start..], '}', p - start);
    }

    method ReadName(start: nat) returns (macro: nat, p: nat)
      requires start <= |template|
      requires start < |template| ==> !IsDigit(template[start]) && template[start] != '{'
      ensures p <= |template| && p == start + RefLength(template[start..])
      ensures macro == RefMacro(template[start..], names)
    {
      p := start;
      while p < |template| && IsNameChar(template[p])
        invariant start <= p <= |template|
        invariant p - start + NameLength(template[p..]) == NameLength(template[start..])
      {
        assert template[p..][1..] == template[p + 1..];
        p := p + 1;
      }
      assert template[start..][..p - start] == template[start..p];
      macro := NamedMacro(names, template[start..p]);
    }

    /** Behind a closed reference the template is closed, and if it is one in
        braces its brace is. */
    lemma {:induction false} RefClosed(start: nat)
      requires 0 < start <= |template| && template[start - 1] == '$' && Closed(template[start - 1..])
      ensures start + RefLength(template[start..]) <= |template|
      ensures Closed(template[start + RefLength(template[start..])..])
      ensures start < |template| && template[start] == '{' ==> '}' in template[start + 1..]
    {
      SuffixParts(template, start - 1, 1);
      SuffixParts(template, start - 1, 1 + RefLength(template[start..]));
      if start < |template| {
        SuffixParts(template, start - 1, 2);
      }
    }

    /** The reference behind a dollar sign. */
    method ReadRef(start: nat) returns (macro: nat, p: nat)
      requires 0 < start <= |template|
      requires start < |template| && template[start] == '{' ==> '}' in template[start + 1..]
      ensures p <= |template| && p == start + RefLength(template[start..])
      ensures macro == RefMacro(template[start..], names)
    {
      if start < |template| && IsDigit(template[start]) {
        macro, p := MATCH_REF + DigitValue(template[start]), start + 1;
      } else if start < |template| && template[start] == '{' {
        macro, p := ReadBraced(start + 1);
      } else {
        macro, p := ReadName(start);
      }
    }

    /** A reference at `p` becomes an element with the text before it, unless it
        names no macro. */
    method TakeRef(p: nat, lastText: Octets, elems: seq<Elem>) returns (next: nat, text: Octets, more: seq<Elem>)
      requires p < |template| && template[p] == '$' && Closed(template[p..])
      ensures p < next <= |template| && Closed(template[next..])
      ensures more + Compiled(template[next..], names, text) == elems + Compiled(template[p..], names, lastText)
    {
      RefClosed(p + 1);
      var macro;
      macro, next := ReadRef(p + 1);
      text, more := lastText, elems;
      if macro != 0 {
        text, more := [], elems + [Elem(lastText, macro)];
      }
      ghost var before, after := Compiled(template[p..], names, lastText), Compiled(template[next..], names, text);
      CompiledRef(template, p, next, names, lastText, macro);
      RefTaken(elems, lastText, macro, before, after, more);
    }

    /** `log_template_compile`. */
    method Compile()
      requires Valid() && compiled == []
      modifies this
      ensures Valid() && compiled == Compiled(template, names, [])
    {
      var p, lastText: Octets := 0, [];
      var elems := [];
      assert template[0..] == template;
      while p < |template|
        invariant p <= |template| && Closed(template[p..])
        invariant elems + Compiled(template[p..], names, lastText) == Compiled(template, names, [])
        decreases |template| - p
      {
        if template[p] == '$' {
          p, lastText, elems := TakeRef(p, lastText, elems);
        } else {
          CompiledText(template, p, names, lastText);
          lastText := lastText + [template[p]];
          p := p + 1;
        }
      }
      if lastText != [] {
        elems := elems + [Elem(lastText, 0)];
      }
      compiled := elems;
    }

    /** `log_template_format`: compiles unless that was done (and gave anything),
        then appends text after text and macro after macro. */
    method Format(value: nat -> Octets) returns (result: Octets)
      requires Valid()
      modifies this
      ensures Valid() && result == Expand(template, names, value)
    {
      if compiled == [] {
        Compile();
      }
      CompileMeans(template, names, [], value);
      result := [];
      var i := 0;
      while i < |compiled|
        invariant i <= |compiled| && Valid() && compiled == Compiled(template, names, [])
        invariant result + Render(compiled[i..], value) == Expand(template, names, value)
      {
        ghost var rest := compiled[i..];
        assert rest[1..] == compiled[i + 1..];
        result := result + compiled[i].text;
        if compiled[i].macro != 0 {
          result := result + value(compiled[i].macro);
        }
        i := i + 1;
      }
    }
  }
}
