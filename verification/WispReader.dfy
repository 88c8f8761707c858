// The precedence reader of Wisp: which tree it builds over which tokens.
//
// What stands between brackets is read on its own; here it is a token that is or is
// not acceptable as a primary, or as arguments.
module WispReader {
  import opened Outcomes

  datatype Token = Id(name: string) | Kw(name: string) | Literal(text: string) | Op(name: string)
                 | Parens(content: nat) | Brackets(content: nat) | Braces(content: nat)

  /** Which bracketed tokens can be read. */
  datatype Inner = Inner(primary: Token -> bool, arguments: Token -> bool)

  /** What has been read, with the tokens it was read from. */
  datatype Tree =
    | Atom(token: Token)
    | Negate(minus: Token, operand: Tree)
    | Invoke(callee: Tree, arguments: Token)
    | Member(parent: Tree, dot: Token, name: Token)
    | Binary(op: Token, left: Tree, right: Tree)

  function Word(t: Token): string {
    match t
    case Id(s) => s
    case Op(s) => s
    case _ => ""
  }

  function Precedence(s: string): (p: nat)
    ensures p < PREFIX
  {
    if s == "or" then 1
    else if s == "and" then 2
    else if s in ["==", "!=", "<", "<=", ">", ">="] then 3
    else if s in ["+", "-"] then 4
    else if s in ["*", "/", "%"] then 5
    else 0
  }

  const PREFIX: nat := 6

  predicate IsPrimary(t: Token, inner: Inner) {
    match t
    case Op(_) => false
    case Parens(_) => inner.primary(t)
    case Brackets(_) => inner.primary(t)
    case Braces(_) => inner.primary(t)
    case _ => true
  }

  // ------------------------------------------------------- which tree it is

  /** The tokens of a tree, from left to right. */
  function Flatten(e: Tree): (ts: seq<Token>)
    ensures |ts| > 0
  {
    match e
    case Atom(t) => [t]
    case Negate(m, x) => [m] + Flatten(x)
    case Invoke(x, args) => Flatten(x) + [args]
    case Member(x, dot, name) => Flatten(x) + [dot, name]
    case Binary(op, x, y) => Flatten(x) + [op] + Flatten(y)
  }

  function Level(e: Tree): nat { if e.Binary? then Precedence(Word(e.op)) else PREFIX }

  /** Operands bind as their operator asks: on the left at least as tightly, on the
      right more tightly; a prefix minus takes no binary operand, and a call or a
      member is never of a negation or of an operation. */
  predicate Proper(e: Tree, inner: Inner) {
    match e
    case Atom(t) => IsPrimary(t, inner)
    case Negate(m, x) => m == Op("-") && Proper(x, inner) && !x.Binary?
    case Invoke(x, args) => Proper(x, inner) && !x.Binary? && !x.Negate? && args.Parens? && inner.arguments(args)
    case Member(x, dot, name) => Proper(x, inner) && !x.Binary? && !x.Negate? && Word(dot) == "."
    case Binary(op, x, y) =>
      Precedence(Word(op)) > 0 && Proper(x, inner) && Proper(y, inner) && Level(x) >= Level(e) && Level(y) > Level(e)
  }

  // ------------------------------------------------------------- the reader

  type Reading = Option<(Tree, seq<Token>)>

  /** `expression`: a tree, and the tokens it leaves. */
  function Parsed(ts: seq<Token>, min: nat, inner: Inner): (r: Reading)
    ensures r.Some? ==> |r.value.1| < |ts|
    decreases |ts|, 1
  {
    if ts == [] then None
    else if ts[0] == Op("-") then
      match Parsed(ts[1..], PREFIX, inner)
      case None => None
      case Some((x, rest)) => Climb(Negate(ts[0], x), rest, min, inner)
    else if IsPrimary(ts[0], inner) then Climb(Atom(ts[0]), ts[1..], min, inner)
    else None
  }

  /** The loop of `expression`. */
  function Climb(lhs: Tree, ts: seq<Token>, min: nat, inner: Inner): (r: Reading)
    ensures r.Some? ==> |r.value.1| <= |ts|
    decreases |ts|, 2
  {
    if ts == [] then Some((lhs, ts))
    else if ts[0].Parens? then
      if inner.arguments(ts[0]) then Climb(Invoke(lhs, ts[0]), ts[1..], min, inner) else None
    else if Word(ts[0]) == "." then
      if |ts| < 2 then None else Climb(Member(lhs, ts[0], ts[1]), ts[2..], min, inner)
    else
      var bp := Precedence(Word(ts[0]));
      if bp == 0 || bp < min then Some((lhs, ts))
      else
        match Parsed(ts[1..], bp + 1, inner)
        case None => None
        case Some((rhs, rest)) => Climb(Binary(ts[0], lhs, rhs), rest, min, inner)
  }

  function ReadExpression(ts: seq<Token>, inner: Inner): Option<Tree> {
    match Parsed(ts, 0, inner)
    case None => None
    case Some((e, rest)) => if rest == [] then Some(e) else None
  }

  // ------------------------------------------------------ what may come next

  /** Nothing at the head of `ts` goes on with an expression of level `min`. */
  predicate Halts(ts: seq<Token>, min: nat) {
    ts == [] || (!ts[0].Parens? && Word(ts[0]) != "."
        && (Precedence(Word(ts[0])) == 0 || Precedence(Word(ts[0])) < min))
  }

  /** What follows `e` does not belong to the right end of `e`. */
  predicate Follows(e: Tree, ts: seq<Token>) {
    (e.Binary? || e.Negate?) ==> Halts(ts, Level(e) + 1)
  }

  /** What is read is proper, is all of the tokens before the rest, and the rest
      cannot go on with it. */
  lemma {:induction false} ExpressionSound(ts: seq<Token>, min: nat, inner: Inner)
    requires min <= PREFIX && Parsed(ts, min, inner).Some?
    ensures var (e, rest) := Parsed(ts, min, inner).value;
      Proper(e, inner) && Level(e) >= min && Flatten(e) + rest == ts && Halts(rest, min)
    decreases |ts|, 1
  {
    if ts[0] == Op("-") {
      ExpressionSound(ts[1..], PREFIX, inner);
      var (x, rest) := Parsed(ts[1..], PREFIX, inner).value;
      assert Flatten(Negate(ts[0], x)) + rest == [ts[0]] + (Flatten(x) + rest);
      ClimbSound(Negate(ts[0], x), rest, min, inner);
    } else {
      assert [ts[0]] + ts[1..] == ts;
      ClimbSound(Atom(ts[0]), ts[1..], min, inner);
    }
  }

  lemma {:induction false} OperatorSound(lhs: Tree, ts: seq<Token>, min: nat, inner: Inner)
    requires min <= PREFIX && Proper(lhs, inner) && Level(lhs) >= min && Follows(lhs, ts)
    requires ts != [] && !ts[0].Parens? && Word(ts[0]) != "." && Precedence(Word(ts[0])) != 0
      && Precedence(Word(ts[0])) >= min
    requires Climb(lhs, ts, min, inner).Some?
    ensures var (e, rest) := Climb(lhs, ts, min, inner).value;
      Proper(e, inner) && Level(e) >= min && Flatten(e) + rest == Flatten(lhs) + ts && Halts(rest, min)
    decreases |ts|, 1
  {
    hide Precedence, Word, IsPrimary;
    var bp := Precedence(Word(ts[0]));
    ExpressionSound(ts[1..], bp + 1, inner);
    var (rhs, rest) := Parsed(ts[1..], bp + 1, inner).value;
    assert Flatten(lhs) + ts == Flatten(lhs) + [ts[0]] + ts[1..];
    assert Flatten(Binary(ts[0], lhs, rhs)) + rest == Flatten(lhs) + [ts[0]] + (Flatten(rhs) + rest);
    ClimbSound(Binary(ts[0], lhs, rhs), rest, min, inner);
  }

  lemma {:induction false} ClimbSound(lhs: Tree, ts: seq<Token>, min: nat, inner: Inner)
    requires min <= PREFIX && Proper(lhs, inner) && Level(lhs) >= min && Follows(lhs, ts)
    requires Climb(lhs, ts, min, inner).Some?
    ensures var (e, rest) := Climb(lhs, ts, min, inner).value;
      Proper(e, inner) && Level(e) >= min && Flatten(e) + rest == Flatten(lhs) + ts && Halts(rest, min)
    decreases |ts|, 2
  {
    hide Precedence, Word, IsPrimary;
    if ts == [] {
    } else if ts[0].Parens? {
      assert Flatten(lhs) + ts == Flatten(Invoke(lhs, ts[0])) + ts[1..];
      ClimbSound(Invoke(lhs, ts[0]), ts[1..], min, inner);
    } else if Word(ts[0]) == "." {
      assert Flatten(lhs) + ts == Flatten(Member(lhs, ts[0], ts[1])) + ts[2..];
      ClimbSound(Member(lhs, ts[0], ts[1]), ts[2..], min, inner);
    } else if Precedence(Word(ts[0])) != 0 && Precedence(Word(ts[0])) >= min {
      OperatorSound(lhs, ts, min, inner);
    }
  }

  /** Reading the tokens of a proper tree gets as far as that tree, whatever follows
      that does not belong to its right end. */
  lemma {:induction false} ExpressionComplete(e: Tree, rest: seq<Token>, min: nat, inner: Inner)
    requires Proper(e, inner) && Level(e) >= min && Follows(e, rest)
    ensures Parsed(Flatten(e) + rest, min, inner) == Climb(e, rest, min, inner)
    decreases e
  {
    hide Precedence;
    var ts := Flatten(e) + rest;
    match e
    case Atom(t) => assert ts[1..] == rest;
    case Negate(m, x) =>
      assert ts[1..] == Flatten(x) + rest;
      ExpressionComplete(x, rest, PREFIX, inner);
      assert Climb(x, rest, PREFIX, inner) == Some((x, rest));
    case Invoke(x, args) =>
      assert ts == Flatten(x) + ([args] + rest);
      ExpressionComplete(x, [args] + rest, min, inner);
      assert ([args] + rest)[1..] == rest;
    case Member(x, dot, name) =>
      var more := [dot, name] + rest;
      assert ts == Flatten(x) + more;
      NotParens(dot);
      ExpressionComplete(x, more, min, inner);
      assert more[2..] == rest;
    case Binary(op, x, y) =>
      var more := [op] + (Flatten(y) + rest);
      assert ts == Flatten(x) + more;
      OperatorWord(op);
      ExpressionComplete(x, more, min, inner);
      ExpressionComplete(y, rest, Level(e) + 1, inner);
      RightOperand(e, rest, min, inner);
  }

  lemma RightOperand(e: Tree, rest: seq<Token>, min: nat, inner: Inner)
    requires e.Binary? && Proper(e, inner) && Level(e) >= min && Follows(e, rest)
    requires Parsed(Flatten(e.right) + rest, Level(e) + 1, inner) == Climb(e.right, rest, Level(e) + 1, inner)
    ensures Climb(e.left, [e.op] + (Flatten(e.right) + rest), min, inner) == Climb(e, rest, min, inner)
  {
    OperatorWord(e.op);
    hide Precedence, Word, Parsed, Flatten, Proper;
    var more := [e.op] + (Flatten(e.right) + rest);
    assert more[1..] == Flatten(e.right) + rest;
    assert Climb(e.right, rest, Level(e) + 1, inner) == Some((e.right, rest));
  }

  lemma NotParens(t: Token)
    requires Word(t) == "."
    ensures !t.Parens?
  {}

  lemma OperatorWord(t: Token)
    requires Precedence(Word(t)) > 0
    ensures !t.Parens? && Word(t) != "." && Precedence(Word(t)) < PREFIX
  {}

  /** The reader returns a tree exactly when it is a proper tree over all the tokens. */
  lemma {:induction false} ReadsProperTrees(ts: seq<Token>, e: Tree, inner: Inner)
    ensures ReadExpression(ts, inner) == Some(e) <==> Proper(e, inner) && Flatten(e) == ts
  {
    if ReadExpression(ts, inner) == Some(e) {
      ExpressionSound(ts, 0, inner);
      assert Flatten(e) + [] == Flatten(e);
    }
    if Proper(e, inner) && Flatten(e) == ts {
      ExpressionComplete(e, [], 0, inner);
      assert Flatten(e) + [] == ts;
    }
  }

  /** There is at most one proper tree over any tokens. */
  lemma ProperTreeIsUnique(d: Tree, e: Tree, inner: Inner)
    requires Proper(d, inner) && Proper(e, inner) && Flatten(d) == Flatten(e)
    ensures d == e
  {
    ReadsProperTrees(Flatten(d), d, inner);
    ReadsProperTrees(Flatten(e), e, inner);
  }

  /** The operators, those that bind most loosely first. */
  const TIERS: seq<seq<string>> := [["or"], ["and"], ["==", "!=", "<", "<=", ">", ">="], ["+", "-"], ["*", "/", "%"]]

  /** `q` is of a later tier than `p`. */
  predicate Tighter(q: string, p: string) {
    exists i, j | 0 <= i < j < |TIERS| :: p in TIERS[i] && q in TIERS[j]
  }

  predicate IsOperator(s: string) { exists i | 0 <= i < |TIERS| :: s in TIERS[i] }

  lemma PrecedenceIsTier(s: string)
    ensures IsOperator(s) <==> Precedence(s) > 0
    ensures Precedence(s) > 0 ==> s in TIERS[Precedence(s) - 1]
    ensures forall i | 0 <= i < |TIERS| && s in TIERS[i] :: Precedence(s) == i + 1
  {
    assert |TIERS| == 5 && "or" in TIERS[0] && "and" in TIERS[1];
    if s in ["==", "!=", "<", "<=", ">", ">="] { assert s in TIERS[2]; }
    if s in ["+", "-"] { assert s in TIERS[3]; }
    if s in ["*", "/", "%"] { assert s in TIERS[4]; }
    forall i | 0 <= i < |TIERS| && s in TIERS[i] ensures Precedence(s) == i + 1 {
      if i == 0 { assert s == "or"; }
      else if i == 1 { assert s == "and" && s[0] == 'a'; }
      else if i == 2 { assert s == "==" || s == "!=" || s == "<" || s == "<=" || s == ">" || s == ">="; }
      else if i == 3 { assert s == "+" || s == "-"; }
      else { assert s == "*" || s == "/" || s == "%"; }
    }
  }

  lemma TighterIs(q: string, p: string)
    requires IsOperator(p) && IsOperator(q)
    ensures Tighter(q, p) <==> Precedence(q) > Precedence(p)
  {
    PrecedenceIsTier(p);
    PrecedenceIsTier(q);
    if Tighter(q, p) {
      var i, j :| 0 <= i < j < |TIERS| && p in TIERS[i] && q in TIERS[j];
      assert Precedence(p) == i + 1 && Precedence(q) == j + 1;
    }
    if Precedence(q) > Precedence(p) {
      var i, j := Precedence(p) - 1, Precedence(q) - 1;
      assert p in TIERS[i] && q in TIERS[j];
    }
  }

  /** Of two operators in a row the second takes the middle operand exactly when it is of
      a later tier: `1 + 2 * 3` and `1 - 2 - 3` are what they should be. */
  lemma TwoOperators(a: Token, p: Token, b: Token, q: Token, c: Token, inner: Inner)
    requires IsPrimary(a, inner) && IsPrimary(b, inner) && IsPrimary(c, inner)
    requires IsOperator(Word(p)) && IsOperator(Word(q))
    ensures ReadExpression([a, p, b, q, c], inner) == Some(
      if Tighter(Word(q), Word(p)) then Binary(p, Atom(a), Binary(q, Atom(b), Atom(c)))
      else Binary(q, Binary(p, Atom(a), Atom(b)), Atom(c)))
  {
    hide Precedence, Tighter;
    TighterIs(Word(q), Word(p));
    PrecedenceIsTier(Word(p));
    PrecedenceIsTier(Word(q));
    var e := if Tighter(Word(q), Word(p)) then Binary(p, Atom(a), Binary(q, Atom(b), Atom(c)))
      else Binary(q, Binary(p, Atom(a), Atom(b)), Atom(c));
    assert Flatten(Atom(a)) == [a] && Flatten(Atom(b)) == [b] && Flatten(Atom(c)) == [c];
    if Tighter(Word(q), Word(p)) { assert Flatten(e.right) == [b, q, c]; } else { assert Flatten(e.left) == [a, p, b]; }
    assert Proper(Atom(a), inner) && Proper(Atom(b), inner) && Proper(Atom(c), inner);
    assert Proper(if Tighter(Word(q), Word(p)) then e.right else e.left, inner);
    assert Proper(e, inner);
    assert Flatten(e) == [a, p, b, q, c];
    ReadsProperTrees(Flatten(e), e, inner);
  }

  lemma ClimbEnds(lhs: Tree, min: nat, inner: Inner)
    ensures Climb(lhs, [], min, inner) == Some((lhs, []))
  {}

  /** One turn of the loop. */
  lemma ClimbTurn(lhs: Tree, ts: seq<Token>, min: nat, inner: Inner)
    requires ts != []
    ensures ts[0].Parens? && inner.arguments(ts[0]) ==>
      Climb(lhs, ts, min, inner) == Climb(Invoke(lhs, ts[0]), ts[1..], min, inner)
    ensures ts[0].Parens? && !inner.arguments(ts[0]) ==> Climb(lhs, ts, min, inner) == None
    ensures !ts[0].Parens? && Word(ts[0]) == "." ==>
      Climb(lhs, ts, min, inner) == if |ts| < 2 then None else Climb(Member(lhs, ts[0], ts[1]), ts[2..], min, inner)
    ensures !ts[0].Parens? && Word(ts[0]) != "." ==>
      var bp := Precedence(Word(ts[0]));
      Climb(lhs, ts, min, inner) ==
        if bp == 0 || bp < min then Some((lhs, ts))
        else
          match Parsed(ts[1..], bp + 1, inner)
          case None => None
          case Some((rhs, rest)) => Climb(Binary(ts[0], lhs, rhs), rest, min, inner)
  {
    hide Precedence, Parsed;
  }

  // -------------------------------------------------------------- the cursor

  class Cursor {
    const ts: seq<Token>
    const inner: Inner
    var pos: nat

    constructor (ts: seq<Token>, inner: Inner)
      ensures this.ts == ts && this.inner == inner && pos == 0
    {
      this.ts := ts;
      this.inner := inner;
      pos := 0;
    }

    /** The cursor has read what `want` says from its tokens. */
    ghost predicate Read(r: Option<Tree>, want: Reading)
      reads this
    {
      pos <= |ts| && match want
        case None => r == None
        case Some((e, rest)) => r == Some(e) && ts[pos..] == rest
    }

    method Expression(min: nat) returns (r: Option<Tree>)
      requires pos <= |ts|
      modifies this
      ensures old(pos) <= pos && Read(r, Parsed(ts[old(pos)..], min, inner))
      ensures r.Some? ==> old(pos) < pos
      decreases |ts| - pos
    {
      if pos >= |ts| { return None; }
      var t := ts[pos];
      pos := pos + 1;
      assert ts[old(pos)..][1..] == ts[pos..];
      var lhs;
      if t == Op("-") {
        var operand := Expression(PREFIX);
        if operand.None? { return None; }
        lhs := Negate(t, operand.value);
      } else if IsPrimary(t, inner) {
        lhs := Atom(t);
      } else {
        return None;
      }
      r := Loop(lhs, min);
    }

    method Loop(first: Tree, min: nat) returns (r: Option<Tree>)
      requires pos <= |ts|
      modifies this
      ensures old(pos) <= pos && Read(r, Climb(first, ts[old(pos)..], min, inner))
      decreases |ts| - pos
    {
      hide Precedence, IsPrimary, Parsed, Climb, Word;
      var lhs := first;
      while pos < |ts|
        invariant old(pos) <= pos <= |ts|
        invariant Climb(first, ts[old(pos)..], min, inner) == Climb(lhs, ts[pos..], min, inner)
        decreases |ts| - pos
      {
        var next := ts[pos];
        assert ts[pos..][0] == next && ts[pos..][1..] == ts[pos + 1..];
        ClimbTurn(lhs, ts[pos..], min, inner);
        if next.Parens? {
          if !inner.arguments(next) { return None; }
          pos := pos + 1;
          lhs := Invoke(lhs, next);
        } else if Word(next) == "." {
          if pos + 1 >= |ts| { return None; }
          assert ts[pos..][2..] == ts[pos + 2..];
          lhs := Member(lhs, next, ts[pos + 1]);
          pos := pos + 2;
        } else {
          var bp := Precedence(Word(next));
          if bp == 0 || bp < min { return Some(lhs); }
          pos := pos + 1;
          var rhs := Expression(bp + 1);
          if rhs.None? { return None; }
          lhs := Binary(next, lhs, rhs.value);
        }
      }
      assert ts[pos..] == [];
      ClimbEnds(lhs, min, inner);
      return Some(lhs);
    }
  }

  /** `read_expression` returns the one proper tree over the tokens, if there is one. */
  method Reader(ts: seq<Token>, inner: Inner) returns (r: Option<Tree>)
    ensures r.Some? ==> Proper(r.value, inner) && Flatten(r.value) == ts
    ensures r.None? ==> forall e :: Proper(e, inner) ==> Flatten(e) != ts
  {
    var c := new Cursor(ts, inner);
    assert ts[0..] == ts;
    var e := c.Expression(0);
    r := if e.Some? && c.pos == |ts| then e else None;
    assert c.ts[|ts|..] == [];
    assert r == ReadExpression(ts, inner);
    forall e ensures ReadExpression(ts, inner) == Some(e) <==> Proper(e, inner) && Flatten(e) == ts {
      ReadsProperTrees(ts, e, inner);
    }
  }
}
