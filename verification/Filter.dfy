/** Filter rules: how the configuration's expressions are built into nodes with
    a complement flag, and evaluated right side first (filter.c, cfg-grammar.y). */
module Filter {

  /** A test that looks at one message only. Regular expressions also leave
      captures; the others (facility, level, netmask) do not. */
  datatype Test = Plain(id: nat) | Regex(id: nat)

  /** A filter expression as written. */
  datatype Expr =
    | Check(test: Test)
    | Call(name: string)
    | Not(inner: Expr)
    | Or(left: Expr, right: Expr)
    | And(left: Expr, right: Expr)

  /** A filter node as built: `comp` complements its result. */
  datatype Node =
    | TestNode(comp: bool, test: Test)
    | CallNode(comp: bool, name: string)
    | OrNode(comp: bool, left: Node, right: Node)
    | AndNode(comp: bool, left: Node, right: Node)

  datatype Group = Unset | Set(text: string)

  datatype MatchResult = NoMatch | Match(groups: seq<Group>)

  /** One message: the outcomes of the plain tests and of the regular
      expressions. */
  datatype Facts = Facts(plain: nat -> bool, regex: nat -> MatchResult)

  /** `filter(...)` rules by name, and a rank that falls along references. */
  datatype Rules = Rules(exprs: map<string, Expr>, rank: map<string, nat>)

  /** Every reference to an existing rule has a rank below `n`. */
  predicate RefsBelow(rules: Rules, e: Expr, n: nat) {
    match e
    case Check(_) => true
    case Call(name) => name in rules.exprs ==> name in rules.rank && rules.rank[name] < n
    case Not(inner) => RefsBelow(rules, inner, n)
    case Or(l, r) => RefsBelow(rules, l, n) && RefsBelow(rules, r, n)
    case And(l, r) => RefsBelow(rules, l, n) && RefsBelow(rules, r, n)
  }

  /** No rule refers to itself, directly or through others. */
  ghost predicate Acyclic(rules: Rules) {
    forall name :: name in rules.exprs ==>
      name in rules.rank && RefsBelow(rules, rules.exprs[name], rules.rank[name])
  }

  // ---------------------------------------------------------------------
  // What an expression means
  // ---------------------------------------------------------------------

  predicate Holds(test: Test, f: Facts) {
    match test
    case Plain(id) => f.plain(id)
    case Regex(id) => f.regex(id).Match?
  }

  /** The truth value of an expression; an unknown rule counts as true. */
  ghost predicate Denotes(rules: Rules, e: Expr, n: nat, f: Facts)
    requires Acyclic(rules) && RefsBelow(rules, e, n)
    decreases n, e
  {
    match e
    case Check(test) => Holds(test, f)
    case Call(name) => name in rules.exprs ==> Denotes(rules, rules.exprs[name], rules.rank[name], f)
    case Not(inner) => !Denotes(rules, inner, n, f)
    case Or(l, r) => Denotes(rules, l, n, f) || Denotes(rules, r, n, f)
    case And(l, r) => Denotes(rules, l, n, f) && Denotes(rules, r, n, f)
  }

  /** The regular expressions that are tried, in order: the left side of an
      alternative only if the right one fails, of a conjunction only if the right
      one holds. */
  ghost function Tried(rules: Rules, e: Expr, n: nat, f: Facts): seq<nat>
    requires Acyclic(rules) && RefsBelow(rules, e, n)
    decreases n, e
  {
    match e
    case Check(test) => if test.Regex? then [test.id] else []
    case Call(name) => if name in rules.exprs then Tried(rules, rules.exprs[name], rules.rank[name], f) else []
    case Not(inner) => Tried(rules, inner, n, f)
    case Or(l, r) =>
      Tried(rules, r, n, f) + if Denotes(rules, r, n, f) then [] else Tried(rules, l, n, f)
    case And(l, r) =>
      Tried(rules, r, n, f) + if Denotes(rules, r, n, f) then Tried(rules, l, n, f) else []
  }

  // ---------------------------------------------------------------------
  // Building and evaluating
  // ---------------------------------------------------------------------

  /** The grammar's actions: NOT flips the flag of the node it is given. */
  function Build(e: Expr): Node {
    match e
    case Check(test) => TestNode(false, test)
    case Call(name) => CallNode(false, name)
    case Not(inner) => var node := Build(inner); node.(comp := !node.comp)
    case Or(l, r) => OrNode(false, Build(l), Build(r))
    case And(l, r) => AndNode(false, Build(l), Build(r))
  }

  /** The groups up to the first one that is not set. */
  function SetGroups(groups: seq<Group>): seq<string> {
    if groups == [] || groups[0].Unset? then [] else [groups[0].text] + SetGroups(groups[1..])
  }

  const RE_MAX_MATCHES: nat := 256

  /** The captures `filter_re_eval` stores: at most 256 groups are fetched, and
      their number is kept in eight bits. */
  function Captures(r: MatchResult): seq<string> {
    match r
    case NoMatch => []
    case Match(groups) =>
      var texts := SetGroups(if |groups| > RE_MAX_MATCHES then groups[..RE_MAX_MATCHES] else groups);
      if |texts| < 256 then texts else texts[..|texts| % 256]
  }

  lemma {:induction false} SetGroupsAre(groups: seq<Group>, n: nat)
    requires n <= |groups| && (forall k :: 0 <= k < n ==> groups[k].Set?) && (n < |groups| ==> groups[n].Unset?)
    ensures |SetGroups(groups)| == n && forall k :: 0 <= k < n ==> groups[k] == Set(SetGroups(groups)[k])
  {
    if n > 0 {
      SetGroupsAre(groups[1..], n - 1);
      forall k | 0 <= k < n ensures groups[k] == Set(SetGroups(groups)[k]) {
        if k > 0 {
          var j := k - 1;
          assert groups[1..][j] == Set(SetGroups(groups[1..])[j]);
        }
      }
    }
  }

  /** Stored are the groups before the first unset one, the whole match (group 0)
      included, up to 255 of them; of 256 or more, none. */
  lemma {:induction false} CapturesAre(groups: seq<Group>, n: nat)
    requires n <= |groups| && (forall k :: 0 <= k < n ==> groups[k].Set?) && (n < |groups| ==> groups[n].Unset?)
    ensures var c := Captures(Match(groups));
      if n < 256 then |c| == n && forall k :: 0 <= k < n ==> groups[k] == Set(c[k]) else c == []
    ensures Captures(NoMatch) == []
  {
    if |groups| > 256 {
      var fetched := groups[..256];
      SetGroupsAre(fetched, if n < 256 then n else 256);
      assert forall k :: 0 <= k < 256 ==> fetched[k] == groups[k];
    } else {
      SetGroupsAre(groups, n);
    }
  }

  /** The result of a node and the message's captures afterwards. */
  datatype Outcome = Outcome(result: bool, captures: seq<string>)

  function Xor(a: bool, b: bool): bool {
    a != b
  }

  predicate NodeRefsBelow(rules: Rules, node: Node, n: nat) {
    match node
    case TestNode(_, _) => true
    case CallNode(_, name) => name in rules.exprs ==> name in rules.rank && rules.rank[name] < n
    case OrNode(_, l, r) => NodeRefsBelow(rules, l, n) && NodeRefsBelow(rules, r, n)
    case AndNode(_, l, r) => NodeRefsBelow(rules, l, n) && NodeRefsBelow(rules, r, n)
  }

  lemma {:induction false} BuildKeepsRefs(rules: Rules, e: Expr, n: nat)
    requires RefsBelow(rules, e, n)
    ensures NodeRefsBelow(rules, Build(e), n)
  {
    match e {
      case Check(_) =>
      case Call(_) =>
      case Not(inner) => BuildKeepsRefs(rules, inner, n);
      case Or(l, r) => BuildKeepsRefs(rules, l, n); BuildKeepsRefs(rules, r, n);
      case And(l, r) => BuildKeepsRefs(rules, l, n); BuildKeepsRefs(rules, r, n);
    }
  }

  /** `filter_expr_eval`: the right operand first, the left one only if needed;
      a rule is looked up when it is called. */
  ghost function Eval(rules: Rules, node: Node, n: nat, f: Facts, captures: seq<string>): Outcome
    requires Acyclic(rules) && NodeRefsBelow(rules, node, n)
    decreases n, node
  {
    match node
    case TestNode(comp, test) =>
      Outcome(Xor(Holds(test, f), comp), if test.Regex? then Captures(f.regex(test.id)) else captures)
    case CallNode(comp, name) =>
      if name in rules.exprs then
        BuildKeepsRefs(rules, rules.exprs[name], rules.rank[name]);
        var o := Eval(rules, Build(rules.exprs[name]), rules.rank[name], f, captures);
        o.(result := Xor(o.result, comp))
      else Outcome(Xor(true, comp), captures)
    case OrNode(comp, l, r) =>
      var first := Eval(rules, r, n, f, captures);
      if first.result then Outcome(Xor(true, comp), first.captures)
      else
        var second := Eval(rules, l, n, f, first.captures);
        second.(result := Xor(second.result, comp))
    case AndNode(comp, l, r) =>
      var first := Eval(rules, r, n, f, captures);
      if !first.result then Outcome(Xor(false, comp), first.captures)
      else
        var second := Eval(rules, l, n, f, first.captures);
        second.(result := Xor(second.result, comp))
  }

  /** A test holds if its criterion does; a regular expression, if it matches. A
      rule that is not there holds. */
  lemma {:induction false} LeavesMean(rules: Rules, id: nat, name: string, n: nat, f: Facts, captures: seq<string>)
    requires Acyclic(rules) && name !in rules.exprs
    ensures Eval(rules, Build(Check(Plain(id))), n, f, captures) == Outcome(f.plain(id), captures)
    ensures Eval(rules, Build(Check(Regex(id))), n, f, captures)
      == match f.regex(id)
         case NoMatch => Outcome(false, [])
         case Match(groups) => Outcome(true, Captures(Match(groups)))
    ensures Eval(rules, Build(Call(name)), n, f, captures) == Outcome(true, captures)
    ensures Eval(rules, Build(Not(Call(name))), n, f, captures) == Outcome(false, captures)
  {
  }

  /** The captures after trying `tried` in order: those of the last one. */
  function Left(tried: seq<nat>, f: Facts, captures: seq<string>): seq<string> {
    if tried == [] then captures else Captures(f.regex(tried[|tried| - 1]))
  }

  /** Flipping the flag of a node flips its result and nothing else. */
  lemma {:induction false} FlipFlips(rules: Rules, node: Node, n: nat, f: Facts, captures: seq<string>)
    requires Acyclic(rules) && NodeRefsBelow(rules, node, n)
    ensures NodeRefsBelow(rules, node.(comp := !node.comp), n)
    ensures var o := Eval(rules, node, n, f, captures);
      Eval(rules, node.(comp := !node.comp), n, f, captures) == o.(result := !o.result)
  {
  }

  /** Evaluation gives the truth value of the expression as written, for every
      acyclic set of rules, and leaves the captures of the last regular
      expression tried, if one was. */
  lemma {:induction false} EvalIsMeaning(rules: Rules, e: Expr, n: nat, f: Facts, captures: seq<string>)
    requires Acyclic(rules) && RefsBelow(rules, e, n)
    ensures NodeRefsBelow(rules, Build(e), n)
    ensures Eval(rules, Build(e), n, f, captures)
      == Outcome(Denotes(rules, e, n, f), Left(Tried(rules, e, n, f), f, captures))
    decreases n, e
  {
    BuildKeepsRefs(rules, e, n);
    match e {
      case Check(_) =>
      case Call(name) =>
        if name in rules.exprs {
          EvalIsMeaning(rules, rules.exprs[name], rules.rank[name], f, captures);
        }
      case Not(inner) =>
        EvalIsMeaning(rules, inner, n, f, captures);
        FlipFlips(rules, Build(inner), n, f, captures);
      case Or(l, r) =>
        EvalIsMeaning(rules, r, n, f, captures);
        EvalIsMeaning(rules, l, n, f, Left(Tried(rules, r, n, f), f, captures));
      case And(l, r) =>
        EvalIsMeaning(rules, r, n, f, captures);
        EvalIsMeaning(rules, l, n, f, Left(Tried(rules, r, n, f), f, captures));
    }
  }
}
