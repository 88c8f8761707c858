// The code the generator emits, the generator, and what the code does.
//
// Emitted functions have parameters and locals with numbers that are never used
// twice, an array of captured values, and no access to any other scope.
module WispCode {
  import opened Outcomes
  import opened WispTerm
  import opened WispOperators
  import opened WispMachine

  datatype CodeRef = LambdaCode(id: nat) | FunctionCode(name: string) | BuiltinCode(id: nat)

  datatype Node =
    | NNull
    | NLocal(id: nat)
    | NCaptured(index: nat)
    | NArg(index: nat)
    | NPart(record: bool, of: Node, index: nat)
    | NPerform(op: Op, args: seq<Node>)
    | NBinary(number: nat, left: Node, right: Node)
    | NFunction(code: CodeRef, captures: seq<Node>)
    | NCall(code: CodeRef, args: seq<Node>, tail: bool)
    | NApply(callee: Node, args: seq<Node>, tail: bool)
    | NBlock(stmts: seq<Stmt>)
    | NIf(condition: Node, yes: seq<Stmt>, no: seq<Stmt>)
    | NChoose(arms: seq<Choice>)

  datatype Stmt = SBind(id: nat, value: Node) | SDrop(value: Node) | SValue(value: Node)

  datatype Choice = Choice(test: Test, stmts: seq<Stmt>)

  datatype Test = TTrue | TNull(of: Node) | TLiteral(of: Node, literal: Literal) | TRecord(of: Node, name: string)
      | TVector(of: Node, size: nat) | TAnd(left: Test, right: Test)

  /** An emitted function; `arity` is checked on entry. */
  datatype Decl = Decl(arity: nat, stmts: seq<Stmt>)

  // ------------------------------------------------------------ the generator

  /** Where a name in scope is found. */
  type Paths = map<string, Node>

  /** The counter behind fresh names, and the lambdas emitted so far. */
  datatype Gen = Gen(counter: nat, decls: seq<(nat, Decl)>)

  datatype Got<+T> = Got(it: T, gen: Gen)

  function Tick(g: Gen): Gen { g.(counter := g.counter + 1) }

  ghost predicate Grew(g: Gen, g': Gen) {
    g.counter <= g'.counter && g.decls <= g'.decls
  }

  /** What has been emitted in between has numbers in between, no two the same. */
  ghost predicate Numbered(g: Gen, g': Gen) {
    && (forall i | |g.decls| <= i < |g'.decls| :: g.counter < g'.decls[i].0 <= g'.counter)
    && (forall i, j | |g.decls| <= i < j < |g'.decls| :: g'.decls[i].0 != g'.decls[j].0)
  }

  ghost predicate Grown<T>(g: Gen, r: Option<Got<T>>) {
    r.Some? ==> Grew(g, r.value.gen) && Numbered(g, r.value.gen)
  }

  function GenClosure(f: Closure): Node
    requires !f.Made?
  {
    NFunction(CodeOf(f), [])
  }

  function CodeOf(f: Closure): CodeRef
    requires !f.Made?
  {
    match f
    case Declared(q) => FunctionCode(q)
    case Builtin(name) => BuiltinCode(match BuiltinId(name) case Some(id) => id case None => |BUILTINS|)
  }

  function GenExpr(t: Term, env: Paths, tail: bool, home: string, g: Gen, p: Program): (r: Option<Got<Node>>)
    ensures Grown(g, r)
    decreases t, 1
  {
    match t
    case Nil => Some(Got(NNull, g))
    case Lit(l) => Some(Got(NPerform(OpLiteral(l), []), g))
    case Name(name) =>
      if name in env then Some(Got(env[name], g))
      else (match GlobalName(name, home, p) case Some(f) => Some(Got(GenClosure(f), g)) case None => None)
    case Vector(xs) =>
      (match GenAll(xs, env, home, g, p)
       case None => None
       case Some(r) => Some(Got(NPerform(OpVector, r.it), r.gen)))
    case MapLit(es) =>
      var temp := g.counter + 1;
      (match GenEntries(es, temp, env, home, Tick(g), p)
       case None => None
       case Some(r) => Some(Got(NBlock([SBind(temp, NPerform(OpEmptyMap, []))] + r.it), r.gen)))
    case Lambda(params, body) => GenLambda(params, body, env, home, g, p)
    case Bind(_, _) => None
    case If(_, _, _) => GenIf(t, env, tail, home, g, p)
    case Match(_, _) => GenMatch(t, env, tail, home, g, p)
    case Binary(op, x, y) =>
      if op == "and" || op == "or" then GenShort(t, env, tail, home, g, p)
      else
        (match GenExpr(x, env, false, home, g, p)
         case None => None
         case Some(rx) =>
           match GenExpr(y, env, false, home, rx.gen, p)
           case None => None
           case Some(ry) => Some(Got(NBinary(OperatorId(op), rx.it, ry.it), ry.gen)))
    case Field(x, name) =>
      (match DeclaredPath(t, env.Keys, home, p)
       case Some(q) => Some(Got(GenClosure(Declared(q)), g))
       case None =>
         match GenExpr(x, env, false, home, g, p)
         case None => None
         case Some(rx) => Some(Got(NPerform(OpGet, [rx.it, NPerform(OpLiteral(Text(name, true)), [])]), rx.gen)))
    case Call(_, _) => GenCall(t, env, tail, home, g, p)
  }

  function GenIf(t: Term, env: Paths, tail: bool, home: string, g: Gen, p: Program): (r: Option<Got<Node>>)
    requires t.If?
    ensures Grown(g, r)
    decreases t, 0
  {
    match GenExpr(t.condition, env, false, home, g, p)
    case None => None
    case Some(rx) =>
      match GenBody(t.yes, env, tail, home, rx.gen, p)
      case None => None
      case Some(ry) =>
        match GenBody(t.no, env, tail, home, ry.gen, p)
        case None => None
        case Some(rn) => Some(Got(NIf(rx.it, ry.it, rn.it), rn.gen))
  }

  /** The arms of a `match` are generated before its subject. */
  function GenMatch(t: Term, env: Paths, tail: bool, home: string, g: Gen, p: Program): (r: Option<Got<Node>>)
    requires t.Match?
    ensures Grown(g, r)
    decreases t, 0
  {
    var temp := g.counter + 1;
    match GenArms(t.arms, NLocal(temp), env, tail, home, Tick(g), p)
    case None => None
    case Some(ra) =>
      match GenExpr(t.subject, env, false, home, ra.gen, p)
      case None => None
      case Some(rx) => Some(Got(NBlock([SBind(temp, rx.it), SValue(NChoose(ra.it))]), rx.gen))
  }

  /** `and` and `or`: the right operand is generated first. */
  function GenShort(t: Term, env: Paths, tail: bool, home: string, g: Gen, p: Program): (r: Option<Got<Node>>)
    requires t.Binary?
    ensures Grown(g, r)
    decreases t, 0
  {
    var temp := g.counter + 1;
    match GenExpr(t.right, env, tail, home, Tick(g), p)
    case None => None
    case Some(ry) =>
      match GenExpr(t.left, env, false, home, ry.gen, p)
      case None => None
      case Some(rx) =>
        var right, left := [SValue(ry.it)], [SValue(NLocal(temp))];
        var choice := if t.op == "and" then NIf(NLocal(temp), right, left) else NIf(NLocal(temp), left, right);
        Some(Got(NBlock([SBind(temp, rx.it), SValue(choice)]), rx.gen))
  }

  function GenCall(t: Term, env: Paths, tail: bool, home: string, g: Gen, p: Program): (r: Option<Got<Node>>)
    requires t.Call?
    ensures Grown(g, r)
    decreases t, 0
  {
    var f, xs := t.head, t.args;
    match HeadOf(f, env.Keys, home, p)
    case Constructor(q) =>
      if |xs| != p.records[q] then None else
      (match GenAll(xs, env, home, g, p)
       case None => None
       case Some(r) => Some(Got(NPerform(OpRecord(q), r.it), r.gen)))
    case Direct(code) =>
      if code.Declared? && |xs| != |p.functions[code.name].params| then None else
      (match GenAll(xs, env, home, g, p)
       case None => None
       case Some(r) => Some(Got(NCall(CodeOf(code), r.it, tail), r.gen)))
    case Computed =>
      match GenHead(f, env, home, g, p)
      case None => None
      case Some(rf) =>
        var temp := rf.gen.counter + 1;
        match GenAll(xs, env, home, Tick(rf.gen), p)
        case None => None
        case Some(r) => Some(Got(NBlock([SBind(temp, rf.it), SValue(NApply(NLocal(temp), r.it, tail))]), r.gen))
  }

  function GenHead(f: Term, env: Paths, home: string, g: Gen, p: Program): (r: Option<Got<Node>>)
    ensures Grown(g, r)
    decreases f, 2
  {
    if f.Field? then
      match GenExpr(f.parent, env, false, home, g, p)
      case None => None
      case Some(r) => Some(Got(NPerform(OpMember(f.name), [r.it]), r.gen))
    else GenExpr(f, env, false, home, g, p)
  }

  function GenAll(ts: seq<Term>, env: Paths, home: string, g: Gen, p: Program): (r: Option<Got<seq<Node>>>)
    ensures Grown(g, r)
    decreases ts
  {
    if ts == [] then Some(Got([], g))
    else
      match GenExpr(ts[0], env, false, home, g, p)
      case None => None
      case Some(r) =>
        match GenAll(ts[1..], env, home, r.gen, p)
        case None => None
        case Some(rs) => Some(Got([r.it] + rs.it, rs.gen))
  }

  function GenEntries(es: seq<Entry>, last: nat, env: Paths, home: string, g: Gen,
      p: Program): (r: Option<Got<seq<Stmt>>>)
    ensures Grown(g, r)
    decreases es
  {
    if es == [] then Some(Got([SValue(NLocal(last))], g))
    else
      var e := es[0];
      assert e.key < e && e.value < e;
      var next := g.counter + 1;
      match GenExpr(e.key, env, false, home, Tick(g), p)
      case None => None
      case Some(rk) =>
        match GenExpr(e.value, env, false, home, rk.gen, p)
        case None => None
        case Some(rv) =>
          match GenEntries(es[1..], next, env, home, rv.gen, p)
          case None => None
          case Some(rs) => Some(Got([SBind(next, NPerform(OpAssoc, [NLocal(last), rk.it, rv.it]))] + rs.it, rs.gen))
  }

  function GenArms(arms: seq<Arm>, value: Node, env: Paths, tail: bool, home: string, g: Gen,
      p: Program): (r: Option<Got<seq<Choice>>>)
    ensures Grown(g, r)
    decreases arms
  {
    if arms == [] then Some(Got([], g))
    else
      match GenPattern(arms[0].pattern, value, env, home, p)
      case None => None
      case Some((test, scope)) =>
        match GenBody(arms[0].body, scope, tail, home, g, p)
        case None => None
        case Some(r) =>
          match GenArms(arms[1..], value, env, tail, home, r.gen, p)
          case None => None
          case Some(rs) => Some(Got([Choice(test, r.it)] + rs.it, rs.gen))
  }

  function GenPattern(t: Term, value: Node, env: Paths, home: string, p: Program): Option<(Test, Paths)>
    decreases t
  {
    match t
    case Name(s) => if s == BLANK then Some((TTrue, env)) else Some((TTrue, env[s := value]))
    case Call(ctor, fields) =>
      if Path(ctor).None? then None
      else
        var q := Resolve(p, home, Joined(Path(ctor).value));
        if q !in p.records || |fields| != p.records[q] then None
        else GenPatterns(fields, true, value, 0, TRecord(value, q), env, home, p)
    case Vector(fields) => GenPatterns(fields, false, value, 0, TVector(value, |fields|), env, home, p)
    case Lit(l) => Some((TLiteral(value, l), env))
    case Nil => Some((TNull(value), env))
    case _ => None
  }

  function GenPatterns(ts: seq<Term>, record: bool, value: Node, j: nat, check: Test, env: Paths, home: string,
      p: Program): Option<(Test, Paths)>
    decreases ts
  {
    if ts == [] then Some((check, env))
    else
      match GenPattern(ts[0], NPart(record, value, j), env, home, p)
      case None => None
      case Some((test, scope)) => GenPatterns(ts[1..], record, value, j + 1, TAnd(check, test), scope, home, p)
  }

  function GenBody(body: seq<Term>, env: Paths, tail: bool, home: string, g: Gen,
      p: Program): (r: Option<Got<seq<Stmt>>>)
    ensures Grown(g, r)
    decreases body, 0
  {
    if body == [] then Some(Got([], g))
    else if body[0].Bind? then
      var t := body[0];
      assert t.value < t;
      var temp := g.counter + 1;
      match GenExpr(t.value, env, false, home, Tick(g), p)
      case None => None
      case Some(r) =>
        var (parts, scope, g1) := GenNames(t.names, temp, env, r.gen);
        if |body| == 1 then Some(Got([SBind(temp, r.it)] + parts + [SValue(NNull)], g1))
        else
          match GenBody(body[1..], scope, tail, home, g1, p)
          case None => None
          case Some(rs) => Some(Got([SBind(temp, r.it)] + parts + rs.it, rs.gen))
    else
      match GenExpr(body[0], env, tail && |body| == 1, home, g, p)
      case None => None
      case Some(r) =>
        if |body| == 1 then Some(Got([SValue(r.it)], r.gen))
        else
          match GenBody(body[1..], env, tail, home, r.gen, p)
          case None => None
          case Some(rs) => Some(Got([SDrop(r.it)] + rs.it, rs.gen))
  }

  function GenNames(names: seq<string>, value: nat, env: Paths, g: Gen): (r: (seq<Stmt>, Paths, Gen))
    ensures Grew(g, r.2) && r.2.decls == g.decls
  {
    if |names| == 1 then ([], env[names[0] := NLocal(value)], g) else GenParts(names, 0, value, env, g)
  }

  function GenParts(names: seq<string>, k: nat, value: nat, env: Paths, g: Gen): (r: (seq<Stmt>, Paths, Gen))
    ensures Grew(g, r.2) && r.2.decls == g.decls
    decreases names
  {
    if names == [] then ([], env, g)
    else
      var temp := g.counter + 1;
      var (rest, scope, g1) := GenParts(names[1..], k + 1, value, env[names[0] := NLocal(temp)], Tick(g));
      ([SBind(temp, NPerform(OpGetAt(k), [NLocal(value)]))] + rest, scope, g1)
  }

  /** The scope of an emitted lambda before its parameters: nothing but captures. */
  function InnerScope(captures: seq<string>): Paths {
    map k | k in captures :: NCaptured(IndexIn(captures, k))
  }

  function IndexIn(names: seq<string>, name: string): (i: nat)
    requires name in names
    ensures i < |names| && names[i] == name
  {
    if names[0] == name then 0 else 1 + IndexIn(names[1..], name)
  }

  function GenLambda(params: seq<string>, body: seq<Term>, env: Paths, home: string, g: Gen,
      p: Program): (r: Option<Got<Node>>)
    ensures Grown(g, r)
    decreases body, 2
  {
    var name := g.counter + 1;
    var captures := Sorted(Captures(params, body, env.Keys));
    assert forall j | 0 <= j < |captures| :: captures[j] in Names(captures);
    match GenFunction(params, body, InnerScope(captures), home, Tick(g), p)
    case None => None
    case Some(r) =>
      Some(Got(NFunction(LambdaCode(name), seq(|captures|, j requires 0 <= j < |captures| => env[captures[j]])),
               r.gen.(decls := r.gen.decls + [(name, r.it)])))
  }

  /** `emit_function`, but for putting the declaration among the others. */
  function GenFunction(params: seq<string>, body: seq<Term>, env: Paths, home: string, g: Gen,
      p: Program): (r: Option<Got<Decl>>)
    ensures Grown(g, r)
    decreases body, 1
  {
    var (prefix, scope, g1) := GenParams(params, 0, env, g);
    match GenBody(body, scope, true, home, g1, p)
    case None => None
    case Some(r) => Some(Got(Decl(|params|, prefix + r.it), r.gen))
  }

  function GenParams(params: seq<string>, j: nat, env: Paths, g: Gen): (r: (seq<Stmt>, Paths, Gen))
    ensures Grew(g, r.2) && r.2.decls == g.decls
    decreases params
  {
    if params == [] then ([], env, g)
    else
      var binding := g.counter + 1;
      var (rest, scope, g1) := GenParams(params[1..], j + 1, env[params[0] := NLocal(binding)], Tick(g));
      ([SBind(binding, NArg(j))] + rest, scope, g1)
  }

  // --------------------------------------------------------- sorting the names

  predicate Before(a: string, b: string) {
    if a == "" then true
    else if b == "" then false
    else a[0] < b[0] || (a[0] == b[0] && Before(a[1..], b[1..]))
  }

  lemma {:induction false} BeforeTotal(a: string, b: string)
    ensures Before(a, b) || Before(b, a)
    ensures Before(a, b) && Before(b, a) ==> a == b
  {
    if a != "" && b != "" {
      BeforeTotal(a[1..], b[1..]);
      if a[0] == b[0] && a[1..] == b[1..] { assert a == [a[0]] + a[1..] && b == [b[0]] + b[1..]; }
    }
  }

  lemma {:induction false} BeforeTransitive(a: string, b: string, c: string)
    requires Before(a, b) && Before(b, c)
    ensures Before(a, c)
  {
    if a != "" { if a[0] == b[0] == c[0] { BeforeTransitive(a[1..], b[1..], c[1..]); } }
  }

  predicate IsFirst(s: set<string>, x: string) {
    x in s && forall y | y in s :: Before(x, y)
  }

  lemma {:induction false} SomeFirst(s: set<string>) returns (x: string)
    requires s != {}
    ensures IsFirst(s, x)
  {
    var y :| y in s;
    BeforeTotal(y, y);
    if s - {y} == {} {
      forall z | z in s ensures Before(y, z) { assert z !in s - {y}; }
      return y;
    }
    x := SomeFirst(s - {y});
    BeforeTotal(x, y);
    if !Before(x, y) {
      forall z | z in s ensures Before(y, z) {
        if z != y { BeforeTransitive(y, x, z); }
      }
      x := y;
    } else {
      forall z | z in s ensures Before(x, z) {}
    }
  }

  /** The names of a set, each once, in order. */
  function Sorted(s: set<string>): (r: seq<string>)
    ensures Names(r) == s
    ensures forall i, j | 0 <= i < j < |r| :: r[i] != r[j]
  {
    if s == {} then []
    else
      assert exists x :: IsFirst(s, x) by { var x := SomeFirst(s); }
      assert forall x, y | IsFirst(s, x) && IsFirst(s, y) ::
        x == y by { forall x, y | IsFirst(s, x) && IsFirst(s, y) ensures x == y { BeforeTotal(x, y); } }
      var x :| x in s && IsFirst(s, x);
      var rest := Sorted(s - {x});
      assert Names([x] + rest) == {x} + Names(rest);
      [x] + rest
  }

  // ------------------------------------------------------ what the code does

  /** A function object as the emitted code makes it. */
  datatype Object = Object(code: CodeRef, captured: seq<Value>)

  datatype Heap = Heap(objects: seq<Object>, world: World)

  datatype Frame = Frame(locals: map<nat, Value>, captured: seq<Value>, args: seq<Value>)

  /** What emitted code comes to: `Left` is a tail call that has left the function
      with its result. */
  datatype Exit = Came(value: Value) | Left(value: Value) | Broke | Spent

  datatype Ran = Ran(out: Exit, heap: Heap)
  datatype RanAll = RanAll(values: seq<Value>, heap: Heap) | Halted(out: Exit, heap: Heap)

  datatype Linked = Linked(lambdas: map<nat, Decl>, functions: map<string, Decl>, machine: Machine)

  function PathValue(n: Node, f: Frame, k: Linked): Option<Value> {
    match n
    case NLocal(id) => if id in f.locals then Some(f.locals[id]) else None
    case NCaptured(j) => if j < |f.captured| then Some(f.captured[j]) else None
    case NArg(j) => if j < |f.args| then Some(f.args[j]) else None
    case NPart(record, of, j) =>
      (match PathValue(of, f, k) case Some(v) => Some(k.machine.part(record, v, j)) case None => None)
    case _ => None
  }

  function ReplyIn(r: Reply, h: Heap): Ran {
    Ran(if r.0.Some? then Came(r.0.value) else Broke, h.(world := r.1))
  }

  function PerformIn(op: Op, args: seq<Value>, h: Heap, k: Linked): Ran {
    var (r, w) := k.machine.perform(op, args, h.world);
    Ran(if r.Some? then Came(r.value) else Broke, h.(world := w))
  }

  predicate Holds(t: Test, f: Frame, k: Linked) {
    match t
    case TTrue => true
    case TNull(n) => PathValue(n, f, k) == Some(Null)
    case TLiteral(n, l) => PathValue(n, f, k).Some? && k.machine.isLiteral(PathValue(n, f, k).value, l)
    case TRecord(n, q) => PathValue(n, f, k).Some? && k.machine.isRecord(PathValue(n, f, k).value, q)
    case TVector(n, size) => PathValue(n, f, k).Some? && k.machine.isVector(PathValue(n, f, k).value, size)
    case TAnd(a, b) => Holds(a, f, k) && Holds(b, f, k)
  }

  /** A call from a tail position leaves the function; any other comes back. */
  function Returned(r: Ran, tail: bool): Ran {
    match r.out
    case Came(v) => if tail then r.(out := Left(v)) else r
    case Left(v) => if tail then r else r.(out := Came(v))
    case _ => r
  }

  function Run(n: Node, f: Frame, h: Heap, fuel: nat, k: Linked): Ran
    decreases fuel, n
  {
    match n
    case NNull => Ran(Came(Null), h)
    case NPerform(op, args) =>
      (match RunAll(args, f, h, fuel, k)
       case Halted(o, h1) => Ran(o, h1)
       case RanAll(vs, h1) => PerformIn(op, vs, h1, k))
    case NBinary(op, x, y) =>
      var r := Run(x, f, h, fuel, k);
      if !r.out.Came? then r
      else
        var r2 := Run(y, f, r.heap, fuel, k);
        if !r2.out.Came? then r2
        else ReplyIn(WispOperators.Binary(op, r.out.value, r2.out.value, r2.heap.world, k.machine), r2.heap)
    case NFunction(code, captures) =>
      (match RunAll(captures, f, h, fuel, k)
       case Halted(o, h1) => Ran(o, h1)
       case RanAll(vs, h1) => Ran(Came(Fun(|h1.objects|)), h1.(objects := h1.objects + [Object(code, vs)])))
    case NCall(code, args, tail) =>
      (match RunAll(args, f, h, fuel, k)
       case Halted(o, h1) => Ran(o, h1)
       case RanAll(vs, h1) => if fuel == 0 then Ran(Spent, h1)
           else Returned(RunCode(Object(code, []), vs, h1, fuel - 1, k), tail))
    case NApply(callee, args, tail) =>
      var r := Run(callee, f, h, fuel, k);
      if !r.out.Came? then r
      else
        (match RunAll(args, f, r.heap, fuel, k)
         case Halted(o, h1) => Ran(o, h1)
         case RanAll(vs, h1) => if fuel == 0 then Ran(Spent, h1)
             else Returned(RunApply(r.out.value, vs, h1, fuel - 1, k), tail))
    case NBlock(stmts) => RunStmts(stmts, f, h, fuel, k)
    case NIf(x, yes, no) =>
      var r := Run(x, f, h, fuel, k);
      if !r.out.Came? then r
      else if k.machine.truth(r.out.value) then RunStmts(yes, f, r.heap, fuel, k)
      else RunStmts(no, f, r.heap, fuel, k)
    case NChoose(arms) => RunChoice(arms, f, h, fuel, k)
    case _ => Ran(match PathValue(n, f, k) case Some(v) => Came(v) case None => Broke, h)
  }

  function RunAll(ns: seq<Node>, f: Frame, h: Heap, fuel: nat, k: Linked): RanAll
    decreases fuel, ns
  {
    if ns == [] then RanAll([], h)
    else
      var r := Run(ns[0], f, h, fuel, k);
      if !r.out.Came? then Halted(r.out, r.heap)
      else
        match RunAll(ns[1..], f, r.heap, fuel, k)
        case RanAll(vs, h1) => RanAll([r.out.value] + vs, h1)
        case Halted(o, h1) => Halted(o, h1)
  }

  function RunChoice(arms: seq<Choice>, f: Frame, h: Heap, fuel: nat, k: Linked): Ran
    decreases fuel, arms
  {
    if arms == [] then Ran(Broke, h)
    else if Holds(arms[0].test, f, k) then RunStmts(arms[0].stmts, f, h, fuel, k)
    else RunChoice(arms[1..], f, h, fuel, k)
  }

  /** What a block binds is gone at its end. */
  function RunStmts(stmts: seq<Stmt>, f: Frame, h: Heap, fuel: nat, k: Linked): Ran
    decreases fuel, stmts
  {
    if stmts == [] then Ran(Broke, h)
    else
      var s := stmts[0];
      assert s.value < s;
      var r := Run(s.value, f, h, fuel, k);
      if s.SValue? || !r.out.Came? then r
      else if s.SDrop? then RunStmts(stmts[1..], f, r.heap, fuel, k)
      else RunStmts(stmts[1..], f.(locals := f.locals[s.id := r.out.value]), r.heap, fuel, k)
  }

  /** The emitted function a reference stands for. */
  function DeclOf(code: CodeRef, k: Linked): Option<Decl> {
    match code
    case LambdaCode(id) => if id in k.lambdas then Some(k.lambdas[id]) else None
    case FunctionCode(q) => if q in k.functions then Some(k.functions[q]) else None
    case BuiltinCode(_) => None
  }

  function RunCode(fn: Object, args: seq<Value>, h: Heap, fuel: nat, k: Linked): Ran
    decreases fuel
  {
    if fn.code.BuiltinCode? then
      if fuel == 0 then Ran(Spent, h) else RunBuiltin(fn.code.id, args, h, fuel - 1, k)
    else
      var d := DeclOf(fn.code, k);
      if d.None? || d.value.arity != |args| then Ran(Broke, h)
      else Returned(RunStmts(d.value.stmts, Frame(map[], fn.captured, args), h, fuel, k), false)
  }

  function RunApply(v: Value, args: seq<Value>, h: Heap, fuel: nat, k: Linked): Ran
    decreases fuel
  {
    if v.Fun? && v.address < |h.objects| then
      if fuel == 0 then Ran(Spent, h) else RunCode(h.objects[v.address], args, h, fuel - 1, k)
    else
      var (r, w) := k.machine.foreign(v, args, h.world);
      Ran(if r.Some? then Came(r.value) else Broke, h.(world := w))
  }

  /** `builtin`: what the runtime does for a builtin's number. */
  function RunBuiltin(id: nat, args: seq<Value>, h: Heap, fuel: nat, k: Linked): Ran
    decreases fuel
  {
    var m := k.machine;
    var (fuelled, w) := m.tick(h.world);
    var h1 := h.(world := w);
    if !fuelled then Ran(Broke, h1)
    else if id == 7 || id == 8 then
      if |args| != 2 then ReplyIn(Die(WRONG_COUNT, w, m), h)
      else
        var (src, w2) := m.elements(args[1], w);
        if src.None? then Ran(Broke, h.(world := w2))
        else
          var r := PerformIn(OpVector, [], h.(world := w2), k);
          if !r.out.Came? then r else RunCollect(id, args[0], src.value, 0, r.out.value, r.heap, fuel, k)
    else if id == 9 then
      if |args| != 3 then ReplyIn(Die(WRONG_COUNT, w, m), h)
      else
        var (src, w2) := m.elements(args[2], w);
        if src.None? then Ran(Broke, h.(world := w2))
        else RunReduce(args[0], src.value, 0, args[1], h.(world := w2), fuel, k)
    else
      match RoutineOf(id)
      case None => ReplyIn(Die(WRONG_KIND, w, m), h)
      case Some(r) => ReplyIn(m.routine(r, args, w), h)
  }

  /** The loop of `map` and of `filter`. */
  function RunCollect(id: nat, f: Value, src: seq<Value>, i: nat, out: Value, h: Heap, fuel: nat, k: Linked): Ran
    requires i <= |src|
    decreases fuel, |src| - i
  {
    if i == |src| then Ran(Came(out), h)
    else
      var r := RunCallOn(f, [src[i]], h, fuel, k);
      if !r.out.Came? then r
      else if id == 7 || k.machine.truth(r.out.value) then
        var more := PerformIn(OpConj, [out, if id == 7 then r.out.value else src[i]], r.heap, k);
        if !more.out.Came? then more else RunCollect(id, f, src, i + 1, more.out.value, more.heap, fuel, k)
      else RunCollect(id, f, src, i + 1, out, r.heap, fuel, k)
  }

  /** The loop of `reduce`. */
  function RunReduce(f: Value, src: seq<Value>, i: nat, out: Value, h: Heap, fuel: nat, k: Linked): Ran
    requires i <= |src|
    decreases fuel, |src| - i
  {
    if i == |src| then Ran(Came(out), h)
    else
      var r := RunCallOn(f, [out, src[i]], h, fuel, k);
      if !r.out.Came? then r else RunReduce(f, src, i + 1, r.out.value, r.heap, fuel, k)
  }

  function RunCallOn(f: Value, args: seq<Value>, h: Heap, fuel: nat, k: Linked): Ran
    decreases fuel, 0
  {
    var a := PerformIn(OpArray(|args|), [], h, k);
    if !a.out.Came? then a
    else
      var e := PerformIn(OpEnter, [], a.heap, k);
      if !e.out.Came? then e
      else if fuel == 0 then Ran(Spent, e.heap)
      else
        var r := RunApply(f, args, e.heap, fuel - 1, k);
        if !r.out.Came? then r
        else
          var l := PerformIn(OpLeave, [], r.heap, k);
          if !l.out.Came? then l else Ran(r.out, l.heap)
  }
}
