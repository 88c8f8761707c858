// The document tree behind a flat token stream: rebuilding it with a stack of open
// scopes, and writing it out again.
module PrinterTree {
  import opened Sequences
  datatype Strength = Cut | Space | Newline | BlankLine
  datatype Kind = GH | GV | GHv | GHov | GBox

  datatype Token = TText(width: nat, text: string) | TBreak(strength: Strength) | TBegin(kind: Kind)
      | TNest(indent: int) | TIfBroken | TEnd

  datatype Node =
    | Text(width: nat, text: string)
    | Brk(strength: Strength)
    | Group(kind: Kind, id: nat, body: seq<Node>)
    | Nest(indent: int, body: seq<Node>)
    | IfBroken(body: seq<Node>)
    | Nop

  datatype Scope = SRoot | SGroup(kind: Kind) | SNest(indent: int) | SIfBroken

  datatype Level = Level(scope: Scope, items: seq<Node>)

  // ------------------------------------------------------------- linear form

  function Linear(ns: seq<Node>): seq<Token> {
    if ns == [] then [] else Tokens(ns[0]) + Linear(ns[1..])
  }

  function Tokens(n: Node): seq<Token> {
    match n
    case Text(w, s) => [TText(w, s)]
    case Brk(s) => [TBreak(s)]
    case Group(k, _, body) => [TBegin(k)] + Linear(body) + [TEnd]
    case Nest(i, body) => [TNest(i)] + Linear(body) + [TEnd]
    case IfBroken(body) => [TIfBroken] + Linear(body) + [TEnd]
    case Nop => []
  }

  lemma {:induction false} LinearConcat(a: seq<Node>, b: seq<Node>)
    ensures Linear(a + b) == Linear(a) + Linear(b)
  {
    hide Tokens;
    if a == [] {
      assert a + b == b;
    } else {
      LinearConcat(a[1..], b);
      assert (a + b)[0] == a[0] && (a + b)[1..] == a[1..] + b;
      ConcatAssociates(Tokens(a[0]), Linear(a[1..]), Linear(b));
    }
  }

  lemma LinearOne(n: Node)
    ensures Linear([n]) == Tokens(n)
  {
    assert [n][1..] == [];
    assert Linear([]) == [];
  }

  function Closers(n: nat): seq<Token> { seq(n, _ => TEnd) }

  predicate Opens(t: Token) { t.TBegin? || t.TNest? || t.TIfBroken? }

  /** A stream with its unmatched ends left out, and with the ends it lacks, when
      `open` scopes are open already. */
  function Repaired(ts: seq<Token>, open: nat): seq<Token> {
    if ts == [] then Closers(open)
    else if ts[0].TEnd? then (if open == 0 then Repaired(ts[1..], 0) else [TEnd] + Repaired(ts[1..], open - 1))
    else [ts[0]] + Repaired(ts[1..], if Opens(ts[0]) then open + 1 else open)
  }

  predicate Balanced(ts: seq<Token>, open: nat) {
    if ts == [] then open == 0
    else if ts[0].TEnd? then open > 0 && Balanced(ts[1..], open - 1)
    else Balanced(ts[1..], if Opens(ts[0]) then open + 1 else open)
  }

  /** A balanced stream needs no repair. */
  lemma {:induction false} BalancedIsRepaired(ts: seq<Token>, open: nat)
    requires Balanced(ts, open)
    ensures Repaired(ts, open) == ts
  {
    if ts != [] {
      BalancedIsRepaired(ts[1..], if ts[0].TEnd? then open - 1 else if Opens(ts[0]) then open + 1 else open);
      assert ts == [ts[0]] + ts[1..];
    }
  }

  // ------------------------------------------------------------ the machine

  datatype State = State(stack: seq<Level>, nextId: nat)

  function Scoped(s: Scope, items: seq<Node>, id: nat): Node {
    match s
    case SGroup(k) => Group(k, id, items)
    case SNest(i) => Nest(i, items)
    case SIfBroken => IfBroken(items)
    case SRoot => Nop
  }

  function Push(stack: seq<Level>, n: Node): seq<Level>
    requires stack != []
  {
    var top := |stack| - 1;
    stack[top := stack[top].(items := stack[top].items + [n])]
  }

  function Close(s: State): State
    requires s.stack != []
  {
    if |s.stack| <= 1 then s
    else
      var top := |s.stack| - 1;
      var lv := s.stack[top];
      var id := if lv.scope.SGroup? then s.nextId + 1 else s.nextId;
      State(Push(s.stack[..top], Scoped(lv.scope, lv.items, id)), id)
  }

  function Open(s: State, scope: Scope): State { s.(stack := s.stack + [Level(scope, [])]) }

  function Step(s: State, t: Token): (s': State)
    requires s.stack != []
    ensures s'.stack != []
  {
    match t
    case TText(w, x) => s.(stack := Push(s.stack, Text(w, x)))
    case TBreak(x) => s.(stack := Push(s.stack, Brk(x)))
    case TBegin(k) => Open(s, SGroup(k))
    case TNest(i) => Open(s, SNest(i))
    case TIfBroken => Open(s, SIfBroken)
    case TEnd => Close(s)
  }

  function Steps(s: State, ts: seq<Token>): (s': State)
    requires s.stack != []
    ensures s'.stack != []
    decreases |ts|
  {
    if ts == [] then s else Steps(Step(s, ts[0]), ts[1..])
  }

  function CloseAll(s: State): (s': State)
    requires s.stack != []
    ensures |s'.stack| == 1
    decreases |s.stack|
  {
    if |s.stack| == 1 then s else CloseAll(Close(s))
  }

  const START: State := State([Level(SRoot, [])], 0)

  function TreeOf(ts: seq<Token>): seq<Node> { CloseAll(Steps(START, ts)).stack[0].items }

  /** `tree`: the stack of open scopes, and the tree they close to. */
  method Tree(tokens: seq<Token>) returns (items: seq<Node>)
    ensures items == TreeOf(tokens)
  {
    var s := START;
    assert tokens[0..] == tokens;
    for i := 0 to |tokens|
      invariant s.stack != [] && Steps(START, tokens) == Steps(s, tokens[i..])
    {
      assert tokens[i..][0] == tokens[i] && tokens[i..][1..] == tokens[i + 1..];
      s := Step(s, tokens[i]);
    }
    assert tokens[|tokens|..] == [];
    ghost var end := s;
    while |s.stack| > 1
      invariant s.stack != [] && CloseAll(end) == CloseAll(s)
      decreases |s.stack|
    {
      s := Close(s);
    }
    return s.stack[0].items;
  }

  // --------------------------------------------------- what the machine keeps

  function Opener(s: Scope): seq<Token> {
    match s
    case SRoot => []
    case SGroup(k) => [TBegin(k)]
    case SNest(i) => [TNest(i)]
    case SIfBroken => [TIfBroken]
  }

  /** The tokens a stack stands for, its scopes still open. */
  function Written(stack: seq<Level>): seq<Token> {
    if stack == [] then []
    else
      var top := |stack| - 1;
      Written(stack[..top]) + Opener(stack[top].scope) + Linear(stack[top].items)
  }

  predicate Rooted(stack: seq<Level>) {
    && stack != [] && stack[0].scope.SRoot?
    && forall i | 1 <= i < |stack| :: !stack[i].scope.SRoot?
  }

  lemma {:induction false} PushWrites(stack: seq<Level>, n: Node)
    requires Rooted(stack)
    ensures Rooted(Push(stack, n)) && |Push(stack, n)| == |stack|
    ensures Written(Push(stack, n)) == Written(stack) + Tokens(n)
  {
    hide Linear, Tokens, Opener;
    var top := |stack| - 1;
    LinearConcat(stack[top].items, [n]);
    LinearOne(n);
    assert Push(stack, n)[..top] == stack[..top];
  }

  lemma {:induction false} CloseWrites(s: State)
    requires Rooted(s.stack)
    ensures Rooted(Close(s).stack)
    ensures |s.stack| > 1 ==> |Close(s).stack| == |s.stack| - 1 && Written(Close(s).stack) == Written(s.stack) + [TEnd]
  {
    hide Linear, Tokens, Push, Scoped, Opener;
    if |s.stack| > 1 {
      var top := |s.stack| - 1;
      var lv := s.stack[top];
      var id := if lv.scope.SGroup? then s.nextId + 1 else s.nextId;
      PushWrites(s.stack[..top], Scoped(lv.scope, lv.items, id));
      ScopedWrites(lv.scope, lv.items, id);
    }
  }

  lemma ScopedWrites(scope: Scope, items: seq<Node>, id: nat)
    requires !scope.SRoot?
    ensures Tokens(Scoped(scope, items, id)) == Opener(scope) + Linear(items) + [TEnd]
  {}

  lemma {:induction false} OpenWrites(s: State, scope: Scope)
    requires Rooted(s.stack) && !scope.SRoot?
    ensures Rooted(Open(s, scope).stack) && |Open(s, scope).stack| == |s.stack| + 1
    ensures Written(Open(s, scope).stack) == Written(s.stack) + Opener(scope)
  {
    var stack := Open(s, scope).stack;
    assert stack[..|stack| - 1] == s.stack;
    assert Linear([]) == [];
  }

  lemma NothingRepaired(open: nat)
    ensures Repaired([], open) == Closers(open)
  {}

  lemma RepairedStep(ts: seq<Token>, open: nat)
    requires ts != []
    ensures Repaired(ts, open) == (if ts[0].TEnd? && open == 0 then [] else [ts[0]])
      + Repaired(ts[1..], if Opens(ts[0]) then open + 1 else if ts[0].TEnd? && open > 0 then open - 1 else open)
  {
    hide Closers;
  }

  lemma {:induction false} StepsWrite(s: State, ts: seq<Token>)
    requires Rooted(s.stack)
    ensures Written(CloseAll(Steps(s, ts)).stack) == Written(s.stack) + Repaired(ts, |s.stack| - 1)
    decreases |ts|
  {
    hide Written, Linear, Push, Close, CloseAll, Opener, Step, Repaired;
    if ts == [] {
      ClosingWrites(s);
      NothingRepaired(|s.stack| - 1);
    } else {
      var s1 := Step(s, ts[0]);
      StepWritten(s, ts[0]);
      StepRooted(s, ts[0]);
      StepsWrite(s1, ts[1..]);
      RepairedStep(ts, |s.stack| - 1);
    }
  }

  /** A step writes its token, but for an end that nothing matches. */
  lemma StepWritten(s: State, t: Token)
    requires Rooted(s.stack)
    ensures var s1 := Step(s, t);
      && Written(s1.stack) == Written(s.stack) + (if t.TEnd? && |s.stack| == 1 then [] else [t])
      && |s1.stack| == (if Opens(t) then |s.stack| + 1 else if t.TEnd?
          && |s.stack| > 1 then |s.stack| - 1 else |s.stack|)
  {
    hide Written, Push, Close;
    match t {
      case TText(w, x) => PushWrites(s.stack, Text(w, x));
      case TBreak(x) => PushWrites(s.stack, Brk(x));
      case TBegin(k) => OpenWrites(s, SGroup(k));
      case TNest(i) => OpenWrites(s, SNest(i));
      case TIfBroken => OpenWrites(s, SIfBroken);
      case TEnd => CloseWrites(s); if |s.stack| == 1 { CloseRoot(s); }
    }
  }

  lemma CloseRoot(s: State)
    requires |s.stack| == 1
    ensures Close(s) == s && Written(s.stack) + [] == Written(s.stack)
  {}

  lemma {:induction false} ClosingWrites(s: State)
    requires Rooted(s.stack)
    ensures Written(CloseAll(s).stack) == Written(s.stack) + Closers(|s.stack| - 1)
    ensures Rooted(CloseAll(s).stack)
    decreases |s.stack|
  {
    if |s.stack| > 1 {
      CloseWrites(s);
      ClosingWrites(Close(s));
      assert [TEnd] + Closers(|s.stack| - 2) == Closers(|s.stack| - 1);
    }
  }

  lemma StepRooted(s: State, t: Token)
    requires Rooted(s.stack)
    ensures Rooted(Step(s, t).stack)
  {
    if t.TEnd? { CloseWrites(s); }
  }

  lemma {:induction false} StepsRooted(s: State, ts: seq<Token>)
    requires Rooted(s.stack)
    ensures Rooted(Steps(s, ts).stack)
    decreases |ts|
  {
    if ts != [] {
      StepRooted(s, ts[0]);
      StepsRooted(Step(s, ts[0]), ts[1..]);
    }
  }

  /** Written out again, the tree is the token stream, repaired; and a balanced stream
      is what it was. */
  lemma {:induction false} TreeWritesTokens(ts: seq<Token>)
    ensures Linear(TreeOf(ts)) == Repaired(ts, 0)
    ensures Balanced(ts, 0) ==> Linear(TreeOf(ts)) == ts
  {
    StepsWrite(START, ts);
    StepsRooted(START, ts);
    ClosingWrites(Steps(START, ts));
    var stack := CloseAll(Steps(START, ts)).stack;
    assert stack[..0] == [] && START.stack[..0] == [];
    assert Linear([]) == [];
    assert Written(START.stack) == [];
    assert Written(stack) == Linear(stack[0].items);
    if Balanced(ts, 0) { BalancedIsRepaired(ts, 0); }
  }

  // ------------------------------------------------- rebuilding what was written

  datatype Renumbered = Renumbered(items: seq<Node>, last: nat)

  /** The same nodes, their groups numbered in the order they close; holes left out. */
  function Numbered(ns: seq<Node>, last: nat): Renumbered {
    if ns == [] then Renumbered([], last)
    else
      var r := NumberedNode(ns[0], last);
      var rest := Numbered(ns[1..], r.last);
      Renumbered(r.items + rest.items, rest.last)
  }

  function NumberedNode(n: Node, last: nat): Renumbered {
    match n
    case Group(k, _, body) => var r := Numbered(body, last); Renumbered([Group(k, r.last + 1, r.items)], r.last + 1)
    case Nest(i, body) => var r := Numbered(body, last); Renumbered([Nest(i, r.items)], r.last)
    case IfBroken(body) => var r := Numbered(body, last); Renumbered([IfBroken(r.items)], r.last)
    case Nop => Renumbered([], last)
    case _ => Renumbered([n], last)
  }

  function Extended(stack: seq<Level>, ns: seq<Node>): seq<Level>
    requires stack != []
  {
    var top := |stack| - 1;
    stack[top := stack[top].(items := stack[top].items + ns)]
  }

  lemma ExtendedByNothing(stack: seq<Level>)
    requires stack != []
    ensures Extended(stack, []) == stack
  {
    assert stack[|stack| - 1].items + [] == stack[|stack| - 1].items;
  }

  lemma {:induction false} StepsConcat(s: State, a: seq<Token>, b: seq<Token>)
    requires s.stack != []
    ensures Steps(s, a + b) == Steps(Steps(s, a), b)
    decreases |a|
  {
    if a == [] {
      assert a + b == b;
    } else {
      assert (a + b)[0] == a[0] && (a + b)[1..] == a[1..] + b;
      StepsConcat(Step(s, a[0]), a[1..], b);
    }
  }

  /** Reading what a list of nodes wrote adds those nodes, renumbered, to what is open. */
  lemma {:induction false} StepsRebuild(s: State, ns: seq<Node>)
    requires s.stack != []
    ensures Steps(s, Linear(ns)) == State(Extended(s.stack, Numbered(ns, s.nextId).items), Numbered(ns, s.nextId).last)
    decreases ns, 0
  {
    if ns == [] {
      ExtendedByNothing(s.stack);
    } else {
      var r := NumberedNode(ns[0], s.nextId);
      StepsConcat(s, Tokens(ns[0]), Linear(ns[1..]));
      NodeRebuild(s, ns[0]);
      var s1 := State(Extended(s.stack, r.items), r.last);
      StepsRebuild(s1, ns[1..]);
      var rest := Numbered(ns[1..], r.last);
      var top := |s.stack| - 1;
      assert s.stack[top].items + (r.items + rest.items) == s.stack[top].items + r.items + rest.items;
    }
  }

  lemma {:induction false} NodeRebuild(s: State, n: Node)
    requires s.stack != []
    ensures Steps(s, Tokens(n)) == State(Extended(s.stack, NumberedNode(n, s.nextId).items),
      NumberedNode(n, s.nextId).last)
    decreases n, 0
  {
    match n
    case Group(k, _, body) => ScopeRebuild(s, SGroup(k), TBegin(k), body);
    case Nest(i, body) => ScopeRebuild(s, SNest(i), TNest(i), body);
    case IfBroken(body) => ScopeRebuild(s, SIfBroken, TIfBroken, body);
    case Nop => ExtendedByNothing(s.stack);
    case Text(w, x) => assert [TText(w, x)][1..] == [];
    case Brk(x) => assert [TBreak(x)][1..] == [];
  }

  lemma {:induction false} ScopeRebuild(s: State, scope: Scope, opener: Token, body: seq<Node>)
    requires s.stack != [] && Opener(scope) == [opener] && Step(s, opener) == Open(s, scope)
    ensures var r := Numbered(body, s.nextId);
      var id := if scope.SGroup? then r.last + 1 else r.last;
      Steps(s, [opener] + Linear(body) + [TEnd]) == State(Extended(s.stack, [Scoped(scope, r.items, id)]), id)
    decreases body, 1
  {
    hide Numbered, Linear, Tokens, Written, Repaired;
    var r := Numbered(body, s.nextId);
    var s1 := Open(s, scope);
    assert [opener] + Linear(body) + [TEnd] == [opener] + (Linear(body) + [TEnd]);
    assert ([opener] + (Linear(body) + [TEnd]))[1..] == Linear(body) + [TEnd];
    StepsConcat(s1, Linear(body), [TEnd]);
    StepsRebuild(s1, body);
    var s2 := Steps(s1, Linear(body));
    var top := |s2.stack| - 1;
    assert [TEnd][1..] == [];
    assert s2.stack[top] == Level(scope, r.items) by { assert [] + r.items == r.items; }
    assert s2.stack[..top] == s.stack;
  }

  /** A tree written out and rebuilt is the same tree, its groups numbered in the
      order they close. */
  lemma {:induction false} TreeRebuilds(ns: seq<Node>)
    ensures TreeOf(Linear(ns)) == Numbered(ns, 0).items
  {
    StepsRebuild(START, ns);
    assert [] + Numbered(ns, 0).items == Numbered(ns, 0).items;
  }

  // ----------------------------------------------------------- identities

  /** The identities of the groups, in the order they close. */
  function Ids(ns: seq<Node>): seq<nat> {
    if ns == [] then [] else IdsOf(ns[0]) + Ids(ns[1..])
  }

  function IdsOf(n: Node): seq<nat> {
    match n
    case Group(_, id, body) => Ids(body) + [id]
    case Nest(_, body) => Ids(body)
    case IfBroken(body) => Ids(body)
    case _ => []
  }

  lemma {:induction false} IdsConcat(a: seq<Node>, b: seq<Node>)
    ensures Ids(a + b) == Ids(a) + Ids(b)
  {
    hide IdsOf;
    if a == [] {
      assert a + b == b;
    } else {
      IdsConcat(a[1..], b);
      assert (a + b)[0] == a[0] && (a + b)[1..] == a[1..] + b;
      ConcatAssociates(IdsOf(a[0]), Ids(a[1..]), Ids(b));
    }
  }

  function Upto(from: nat, to: nat): seq<nat>
    requires from <= to
  {
    seq(to - from, i requires 0 <= i => from + 1 + i)
  }

  /** Numbering gives every group a number of its own, the next ones in order. */
  lemma {:induction false} NumberedIds(ns: seq<Node>, last: nat)
    ensures Numbered(ns, last).last >= last
    ensures Ids(Numbered(ns, last).items) == Upto(last, Numbered(ns, last).last)
    decreases ns
  {
    if ns != [] {
      var r := NumberedNode(ns[0], last);
      NodeIds(ns[0], last);
      var rest := Numbered(ns[1..], r.last);
      NumberedIds(ns[1..], r.last);
      IdsConcat(r.items, rest.items);
      assert Upto(last, r.last) + Upto(r.last, rest.last) == Upto(last, rest.last);
    }
  }

  lemma {:induction false} NodeIds(n: Node, last: nat)
    ensures NumberedNode(n, last).last >= last
    ensures Ids(NumberedNode(n, last).items) == Upto(last, NumberedNode(n, last).last)
    decreases n, 0
  {
    var items := NumberedNode(n, last).items;
    if |items| == 1 { assert items[1..] == []; assert Ids([]) == []; }
    match n
    case Group(_, _, body) =>
      var r := Numbered(body, last);
      NumberedIds(body, last);
      assert Upto(last, r.last) + [r.last + 1] == Upto(last, r.last + 1);
    case Nest(_, body) => NumberedIds(body, last);
    case IfBroken(body) => NumberedIds(body, last);
    case _ =>
  }

  lemma StepSize(s: State, t: Token)
    requires s.stack != []
    ensures |Step(s, t).stack| == if Opens(t) then |s.stack| + 1 else if t.TEnd?
      && |s.stack| > 1 then |s.stack| - 1 else |s.stack|
    ensures t.TEnd? && |s.stack| == 1 ==> Step(s, t) == s
  {}

  /** The repair of a stream has the same tree. */
  lemma {:induction false} RepairedSame(s: State, ts: seq<Token>)
    requires s.stack != []
    ensures CloseAll(Steps(s, Repaired(ts, |s.stack| - 1))) == CloseAll(Steps(s, ts))
    decreases |ts|
  {
    hide CloseAll, Step;
    if ts == [] {
      ClosersClose(s);
    } else {
      var s1 := Step(s, ts[0]);
      StepSize(s, ts[0]);
      if ts[0].TEnd? && |s.stack| == 1 {
        RepairedSame(s, ts[1..]);
      } else {
        RepairedSame(s1, ts[1..]);
        var rest := Repaired(ts[1..], |s1.stack| - 1);
        assert Repaired(ts, |s.stack| - 1) == [ts[0]] + rest;
        assert ([ts[0]] + rest)[1..] == rest;
      }
    }
  }

  lemma {:induction false} ClosersClose(s: State)
    requires s.stack != []
    ensures CloseAll(Steps(s, Closers(|s.stack| - 1))) == CloseAll(s)
    decreases |s.stack|
  {
    if |s.stack| > 1 {
      ClosersClose(Close(s));
      assert Closers(|s.stack| - 1)[1..] == Closers(|s.stack| - 2);
    }
  }

  /** No two groups of a tree have the same identity, whatever the stream. */
  lemma TreeIds(ts: seq<Token>)
    ensures Ids(TreeOf(ts)) == Upto(0, |Ids(TreeOf(ts))|)
    ensures forall i, j | 0 <= i < j < |Ids(TreeOf(ts))| :: Ids(TreeOf(ts))[i] != Ids(TreeOf(ts))[j]
  {
    var fixed := Repaired(ts, 0);
    TreeWritesTokens(ts);
    RepairedSame(START, ts);
    TreeRebuilds(TreeOf(ts));
    NumberedIds(TreeOf(ts), 0);
  }
}
