// The one name closure conversion can lose, the blank, and exactly when that matters.
module WispBlank {
  import opened Outcomes
  import opened WispTerm
  import opened WispOperators
  import opened WispMachine
  import opened WispCode
  import opened WispCorrect
  import opened WispProgram

  // --------------------------------------------- names an accepted term reads

  /** A path that names a function or a record of the program, seen from a module. */
  predicate Known(path: seq<string>, home: string, p: Program) {
    path != [] && (Resolve(p, home, Joined(path)) in p.functions || Resolve(p, home, Joined(path)) in p.records)
  }

  /** A name that means something where no scope holds it. */
  ghost predicate Global(s: string, home: string, p: Program) {
    BuiltinId(s).Some? || exists path: seq<string> :: path != [] && path[0] == s && Known(path, home, p)
  }

  ghost predicate Grounded(names: set<string>, scope: set<string>, home: string, p: Program) {
    forall s | s in names :: s in scope || Global(s, home, p)
  }

  /** What acceptance of code with free names `names` says. */
  ghost predicate Accepted(names: set<string>, clean: bool, scope: set<string>, home: string, p: Program) {
    Grounded(names, scope, home, p) && (!Global(BLANK, home, p) ==> clean)
  }

  /** A path reads its first name and no other. */
  lemma {:induction false} PathReads(t: Term)
    requires Path(t).Some?
    ensures Free(t) == {Path(t).value[0]}
  {
    if t.Field? { PathReads(t.parent); }
  }

  lemma PathGrounded(t: Term, scope: set<string>, home: string, p: Program)
    requires Path(t).Some? && Known(Path(t).value, home, p)
    ensures Grounded(Free(t), scope, home, p)
  {
    PathReads(t);
  }

  lemma BuiltinGrounded(t: Term, scope: set<string>, home: string, p: Program)
    requires t.Name? && BuiltinId(t.name).Some?
    ensures Grounded(Free(t), scope, home, p)
  {}

  lemma {:induction false} NamesScope(names: seq<string>, value: nat, env: Paths, g: Gen)
    ensures GenNames(names, value, env, g).1.Keys == env.Keys + Names(names)
  {
    if |names| == 1 { assert names == [names[0]]; } else { PartsScope(names, 0, value, env, g); }
  }

  lemma {:induction false} PartsScope(names: seq<string>, k: nat, value: nat, env: Paths, g: Gen)
    ensures GenParts(names, k, value, env, g).1.Keys == env.Keys + Names(names)
    decreases names
  {
    if names != [] {
      PartsScope(names[1..], k + 1, value, env[names[0] := NLocal(g.counter + 1)], Tick(g));
      assert Names(names) == {names[0]} + Names(names[1..]);
    }
  }

  lemma {:induction false} ParamsScope(params: seq<string>, j: nat, env: Paths, g: Gen)
    ensures GenParams(params, j, env, g).1.Keys == env.Keys + Names(params)
    decreases params
  {
    if params != [] {
      ParamsScope(params[1..], j + 1, env[params[0] := NLocal(g.counter + 1)], Tick(g));
      assert Names(params) == {params[0]} + Names(params[1..]);
    }
  }

  /** Each name that accepted code reads is in scope, declared or built in; and unless
      the blank is declared, no lambda in it misses the blank. */
  lemma {:induction false} ExprAccepted(t: Term, env: Paths, tail: bool, home: string, g: Gen, p: Program,
      scope: set<string>)
    requires GenExpr(t, env, tail, home, g, p).Some?
    ensures Accepted(Free(t), Clean(t, scope), env.Keys, home, p)
    decreases t, 1
  {
    hide Numbered, Global, Resolve, BuiltinId;
    match t
    case Nil =>
    case Lit(_) =>
    case Bind(_, _) =>
    case Name(s) => NameAccepted(s, env, home, p);
    case Vector(xs) => AllAccepted(xs, env, home, g, p, scope);
    case MapLit(es) => EntriesAccepted(es, g.counter + 1, env, home, Tick(g), p, scope);
    case Lambda(params, body) => LambdaAccepted(params, body, env, home, g, p, scope);
    case If(x, yes, no) =>
      ExprAccepted(x, env, false, home, g, p, scope);
      var rx := GenExpr(x, env, false, home, g, p).value;
      BodyAccepted(yes, env, tail, home, rx.gen, p, scope);
      BodyAccepted(no, env, tail, home, GenBody(yes, env, tail, home, rx.gen, p).value.gen, p, scope);
    case Match(x, arms) =>
      var ra := GenArms(arms, NLocal(g.counter + 1), env, tail, home, Tick(g), p).value;
      ArmsAccepted(arms, NLocal(g.counter + 1), env, tail, home, Tick(g), p, scope);
      ExprAccepted(x, env, false, home, ra.gen, p, scope);
    case Binary(op, x, y) =>
      if op == "and" || op == "or" {
        ExprAccepted(y, env, tail, home, Tick(g), p, scope);
        ExprAccepted(x, env, false, home, GenExpr(y, env, tail, home, Tick(g), p).value.gen, p, scope);
      } else {
        ExprAccepted(x, env, false, home, g, p, scope);
        ExprAccepted(y, env, false, home, GenExpr(x, env, false, home, g, p).value.gen, p, scope);
      }
    case Field(x, _) =>
      if DeclaredPath(t, env.Keys, home, p).Some? {
        PathGrounded(t, env.Keys, home, p);
        PathClean(t, scope);
      } else {
        ExprAccepted(x, env, false, home, g, p, scope);
      }
    case Call(f, xs) => CallAccepted(t, env, tail, home, g, p, scope);
  }

  lemma {:induction false} PathClean(t: Term, scope: set<string>)
    requires Path(t).Some?
    ensures Clean(t, scope)
  {
    if t.Field? { PathClean(t.parent, scope); }
  }

  lemma NameAccepted(s: string, env: Paths, home: string, p: Program)
    requires s in env || GlobalName(s, home, p).Some?
    ensures s in env || Global(s, home, p)
  {
    if s !in env && Resolve(p, home, s) in p.functions {
      var path := [s];
      assert path != [] && path[0] == s && Joined(path) == s && Known(path, home, p);
    }
  }

  lemma {:induction false} LambdaAccepted(params: seq<string>, body: seq<Term>, env: Paths, home: string, g: Gen,
      p: Program, scope: set<string>)
    requires GenLambda(params, body, env, home, g, p).Some?
    ensures Accepted(FreeBody(body) - Names(params), Clean(Lambda(params, body), scope), env.Keys, home, p)
    decreases body, 2
  {
    hide Numbered, Global, Sorted;
    var captures := Sorted(Captures(params, body, env.Keys));
    var inner := InnerScope(captures);
    assert inner.Keys == Names(captures) == Captures(params, body, env.Keys);
    FunctionAccepted(params, body, inner, home, Tick(g), p, scope);
  }

  lemma {:induction false} FunctionAccepted(params: seq<string>, body: seq<Term>, env: Paths, home: string, g: Gen,
      p: Program, scope: set<string>)
    requires GenFunction(params, body, env, home, g, p).Some?
    ensures Accepted(FreeBody(body), CleanBody(body, scope + Names(params)), env.Keys + Names(params), home, p)
    decreases body, 1
  {
    hide Numbered;
    ParamsScope(params, 0, env, g);
    var (prefix, inner, g1) := GenParams(params, 0, env, g);
    BodyAccepted(body, inner, true, home, g1, p, scope + Names(params));
  }

  lemma {:induction false} CallAccepted(t: Term, env: Paths, tail: bool, home: string, g: Gen, p: Program,
      scope: set<string>)
    requires t.Call? && GenCall(t, env, tail, home, g, p).Some?
    ensures Accepted(Free(t), Clean(t, scope), env.Keys, home, p)
    decreases t, 0
  {
    hide Numbered, Global, Resolve, BuiltinId;
    var f, xs := t.head, t.args;
    match HeadOf(f, env.Keys, home, p)
    case Constructor(_) =>
      PathGrounded(f, env.Keys, home, p);
      PathClean(f, scope);
      AllAccepted(xs, env, home, g, p, scope);
    case Direct(code) =>
      if code.Declared? { PathGrounded(f, env.Keys, home, p); PathClean(f, scope); }
          else { BuiltinGrounded(f, env.Keys, home, p); }
      AllAccepted(xs, env, home, g, p, scope);
    case Computed =>
      var rf := GenHead(f, env, home, g, p).value;
      if f.Field? { ExprAccepted(f.parent, env, false, home, g, p, scope); }
          else { ExprAccepted(f, env, false, home, g, p, scope); }
      AllAccepted(xs, env, home, Tick(rf.gen), p, scope);
  }

  lemma {:induction false} AllAccepted(ts: seq<Term>, env: Paths, home: string, g: Gen, p: Program, scope: set<string>)
    requires GenAll(ts, env, home, g, p).Some?
    ensures Accepted(FreeAll(ts), CleanAll(ts, scope), env.Keys, home, p)
    decreases ts
  {
    hide Numbered, Global;
    if ts != [] {
      ExprAccepted(ts[0], env, false, home, g, p, scope);
      AllAccepted(ts[1..], env, home, GenExpr(ts[0], env, false, home, g, p).value.gen, p, scope);
    }
  }

  lemma {:induction false} EntriesAccepted(es: seq<Entry>, last: nat, env: Paths, home: string, g: Gen, p: Program,
      scope: set<string>)
    requires GenEntries(es, last, env, home, g, p).Some?
    ensures Accepted(FreeEntries(es), CleanEntries(es, scope), env.Keys, home, p)
    decreases es
  {
    hide Numbered, Global;
    if es != [] {
      var e := es[0];
      assert e.key < e && e.value < e;
      ExprAccepted(e.key, env, false, home, Tick(g), p, scope);
      var rk := GenExpr(e.key, env, false, home, Tick(g), p).value;
      ExprAccepted(e.value, env, false, home, rk.gen, p, scope);
      var rv := GenExpr(e.value, env, false, home, rk.gen, p).value;
      EntriesAccepted(es[1..], g.counter + 1, env, home, rv.gen, p, scope);
    }
  }

  lemma {:induction false} ArmsAccepted(arms: seq<Arm>, n: Node, env: Paths, tail: bool, home: string, g: Gen,
      p: Program, scope: set<string>)
    requires GenArms(arms, n, env, tail, home, g, p).Some?
    ensures Accepted(FreeArms(arms), CleanArms(arms, scope), env.Keys, home, p)
    decreases arms
  {
    hide Numbered, Global;
    if arms != [] {
      var pattern, body := arms[0].pattern, arms[0].body;
      PatternScope(pattern, n, env, home, p);
      var (test, inner) := GenPattern(pattern, n, env, home, p).value;
      BodyAccepted(body, inner, tail, home, g, p, scope + PatternBinds(pattern));
      ArmsAccepted(arms[1..], n, env, tail, home, GenBody(body, inner, tail, home, g, p).value.gen, p, scope);
    }
  }

  lemma {:induction false} BodyAccepted(body: seq<Term>, env: Paths, tail: bool, home: string, g: Gen, p: Program,
      scope: set<string>)
    requires GenBody(body, env, tail, home, g, p).Some?
    ensures Accepted(FreeBody(body), CleanBody(body, scope), env.Keys, home, p)
    decreases body, 0
  {
    hide Numbered, Global;
    if body == [] {
    } else if body[0].Bind? {
      var t := body[0];
      assert t.value < t;
      ExprAccepted(t.value, env, false, home, Tick(g), p, scope);
      var r := GenExpr(t.value, env, false, home, Tick(g), p).value;
      NamesScope(t.names, g.counter + 1, env, r.gen);
      var (parts, inner, g1) := GenNames(t.names, g.counter + 1, env, r.gen);
      assert Free(t) == Free(t.value) && Clean(t, scope) == Clean(t.value, scope);
      if |body| == 1 {
        assert body[1..] == [];
      } else {
        BodyAccepted(body[1..], inner, tail, home, g1, p, scope + Names(t.names));
      }
    } else {
      ExprAccepted(body[0], env, tail && |body| == 1, home, g, p, scope);
      var r := GenExpr(body[0], env, tail && |body| == 1, home, g, p).value;
      if |body| == 1 {
        assert body[1..] == [];
      } else {
        BodyAccepted(body[1..], env, tail, home, r.gen, p, scope);
      }
    }
  }

  // ------------------------------------------- when missing a blank is harmless

  /** No path from `_` names anything, seen from any module of the program. */
  ghost predicate NoBlankName(p: Program) {
    forall q | q in p.functions :: !Global(BLANK, p.functions[q].home, p)
  }

  /** Where `_` names nothing global, a lambda that misses a blank is refused. */
  lemma MissedBlankIsRefused(params: seq<string>, body: seq<Term>, env: Paths, home: string, g: Gen, p: Program)
    requires MissesBlank(params, body, env.Keys) && !Global(BLANK, home, p)
    ensures GenLambda(params, body, env, home, g, p) == None
  {
    hide Numbered, Global, MissesBlank;
    if GenLambda(params, body, env, home, g, p).Some? {
      LambdaAccepted(params, body, env, home, g, p, env.Keys);
    }
  }

  /** In any case it is compiled as if there were no `_` around it. */
  lemma MissedBlankIsIgnored(params: seq<string>, body: seq<Term>, env: Paths, home: string, g: Gen, p: Program)
    requires MissesBlank(params, body, env.Keys)
    ensures GenLambda(params, body, env, home, g, p) == GenLambda(params, body, env - {BLANK}, home, g, p)
  {
    hide Numbered, GenFunction;
    RefsNearlyFreeBody(body, Names(params));
    var bare := env - {BLANK};
    var captures := Sorted(Captures(params, body, env.Keys));
    assert Captures(params, body, env.Keys) == Captures(params, body, bare.Keys);
    assert forall j | 0 <= j < |captures| :: captures[j] in Names(captures);
    assert seq(|captures|, j requires 0 <= j < |captures| => env[captures[j]])
      == seq(|captures|, j requires 0 <= j < |captures| => bare[captures[j]]);
  }

  /** The functions of a program, in the order they are emitted. */
  ghost predicate Lists(names: seq<string>, p: Program) {
    && Names(names) == p.functions.Keys && (forall q | q in names :: q in p.functions)
    && forall i, j | 0 <= i < j < |names| :: names[i] != names[j]
  }

  lemma {:induction false} FunctionsAccepted(names: seq<string>, p: Program, g: Gen, q: string)
    requires (forall x | x in names :: x in p.functions) && q in names && GenProgram(names, p, g).Some?
    requires !Global(BLANK, p.functions[q].home, p)
    ensures CleanBody(p.functions[q].body, Names(p.functions[q].params))
  {
    hide Numbered, Global;
    var last := names[|names| - 1];
    var rest := names[..|names| - 1];
    if q == last {
      var fn := p.functions[q];
      FunctionAccepted(fn.params, fn.body, map[], fn.home, GenProgram(rest, p, g).value.gen, p, {});
      assert {} + Names(fn.params) == Names(fn.params);
    } else {
      var i :| 0 <= i < |names| && names[i] == q;
      assert rest[i] == q;
      FunctionsAccepted(rest, p, g, q);
    }
  }

  /** Calling any function of the compiled program does what calling it in the source
      program means: the same result or fault, in the same state of the world, with as
      many function objects made. */
  ghost predicate Faithful(p: Program) {
    forall names, m, q, args, w, fuel | Lists(names, p) && q in p.functions && GenProgram(names, p, Gen(0, [])).Some? ::
      SameCall(names, p, m, q, args, w, fuel)
  }

  ghost predicate SameCall(names: seq<string>, p: Program, m: Machine, q: string, args: seq<Value>, w: World, fuel: nat)
    requires Lists(names, p) && GenProgram(names, p, Gen(0, [])).Some?
  {
    var r := GenProgram(names, p, Gen(0, [])).value;
    var e := Enter(Declared(q), args, State([], w), fuel, Setting(p, m));
    var x := RunCode(Object(FunctionCode(q), []), args, Heap([], w), fuel, Link(r.it, r.gen, m));
    SameOut(e.out, x.out, false) && e.state.world == x.heap.world && |e.state.closures| == |x.heap.objects|
  }

  /** Closure conversion preserves the meaning of every program that is accepted and
      has no function or record that can be called `_`. */
  lemma {:induction false} ProgramSame(p: Program)
    requires NoBlankName(p)
    ensures Faithful(p)
  {
    hide Numbered, Global, GenProgram;
    forall names, m, q, args, w, fuel | Lists(names, p) && q in p.functions && GenProgram(names, p, Gen(0, [])).Some?
      ensures SameCall(names, p, m, q, args, w, fuel)
    {
      forall x | x in p.functions ensures CleanBody(p.functions[x].body, Names(p.functions[x].params)) {
        assert x in Names(names);
        FunctionsAccepted(names, p, Gen(0, []), x);
      }
      CleanProgramSame(names, p, m, q, args, w, fuel);
    }
  }

  // ------------------------------------------------ and when it does some harm

  /** The same functions, by name, parameters and module, with other bodies. */
  ghost predicate SameDeclarations(p: Program, p': Program) {
    && p'.records == p.records && p'.aliases == p.aliases && p'.functions.Keys == p.functions.Keys
    && forall q | q in p.functions :: p'.functions[q].params == p.functions[q].params
        && p'.functions[q].home == p.functions[q].home
  }

  function PathTerm(path: seq<string>): (t: Term)
    requires path != []
    ensures Path(t) == Some(path)
    decreases |path|
  {
    var last := |path| - 1;
    assert path == path[..last] + [path[last]];
    if |path| == 1 then Name(path[0]) else Field(PathTerm(path[..last]), path[last])
  }

  /** A use of what a path from `_` names. */
  function Use(path: seq<string>, home: string, p: Program): Term
    requires Known(path, home, p)
  {
    var q := Resolve(p, home, Joined(path));
    if q in p.functions then PathTerm(path) else Call(PathTerm(path), seq(p.records[q], _ => Nil))
  }

  function BlankMatch(use: Term): seq<Term> { [Match(Nil, [Arm(Name(BLANK), [use])])] }

  /** `let _ = null` and a call of `fn (): match null | _: <use>`. */
  function BlankCall(use: Term): seq<Term> {
    [Bind([BLANK], Nil), Call(Lambda([], BlankMatch(use)), [])]
  }

  /** A program with that body in `q`, and nothing elsewhere. */
  function Usurped(p: Program, q: string, path: seq<string>): Program
    requires q in p.functions && Known(path, p.functions[q].home, p)
  {
    p.(functions := map x | x in p.functions ::
      Function(p.functions[x].params, if x == q then BlankCall(Use(path, p.functions[q].home, p)) else [Nil],
          p.functions[x].home))
  }

  /** A machine on which nothing works but making records. */
  function Bare(): Machine {
    Machine((op: Op, args, w) => (if op.OpRecord? then Some(Null) else None, w), (r, args, w) => (None, w),
            (v, w) => (None, w), (v, args, w) => (None, w), (a, b, w) => (None, w), w => (false, w), (n, w) => w,
            (n, w) => (None, w), (x, w) => (None, w), (b, w) => (None, w), v => Neither, (o, x, y) => x,
            (o, x, y) => false, v => false, (v, q) => false, (v, n) => false, (v, l) => false, (r, v, j) => Null)
  }

  // In the source program the use is of the local `_`, which is null.

  lemma {:induction false} PathMeans(path: seq<string>, env: Env, home: string, s: State, fuel: nat, c: Setting)
    requires path != [] && path[0] in env && env[path[0]] == Null && c.machine == Bare()
    ensures var r := Eval(PathTerm(path), env, home, s, fuel, c);
      r == Res(if |path| == 1 then Val(Null) else Fault, s)
    decreases |path|
  {
    if |path| > 1 {
      var last := |path| - 1;
      var parent := PathTerm(path[..last]);
      assert Rooted(PathTerm(path), env.Keys);
      PathMeans(path[..last], env, home, s, fuel, c);
    }
  }

  lemma {:induction false} NullsMean(n: nat, env: Env, home: string, s: State, fuel: nat, c: Setting)
    ensures EvalAll(seq(n, _ => Nil), env, home, s, fuel, c) == Vals(seq(n, _ => Null), s)
  {
    var ts := seq(n, _ => Nil);
    if n > 0 {
      assert ts[1..] == seq(n - 1, _ => Nil);
      NullsMean(n - 1, env, home, s, fuel, c);
      assert [Null] + seq(n - 1, _ => Null) == seq(n, _ => Null);
    }
  }

  lemma UseMeans(path: seq<string>, env: Env, home: string, s: State, fuel: nat, c: Setting)
    requires path != [] && path[0] == BLANK && BLANK in env && env[BLANK] == Null && c.machine == Bare() && fuel > 1
    requires Known(path, home, c.program)
    ensures var r := Eval(Use(path, home, c.program), env, home, s, fuel, c);
      r.state == s && (r.out == Fault
          || (r.out == Val(Null) && Resolve(c.program, home, Joined(path)) in c.program.functions))
  {
    var t, q := PathTerm(path), Resolve(c.program, home, Joined(path));
    PathMeans(path, env, home, s, fuel, c);
    if q !in c.program.functions {
      assert Rooted(t, env.Keys);
      NullsMean(c.program.records[q], env, home, s, fuel, c);
      if |path| > 1 { PathMeans(path[..|path| - 1], env, home, s, fuel, c); }
    }
  }

  lemma BlankCallMeans(path: seq<string>, env: Env, home: string, s: State, fuel: nat, c: Setting)
    requires path != [] && path[0] == BLANK && c.machine == Bare() && fuel > 3 && s.closures == []
    requires Known(path, home, c.program)
    ensures var r := EvalBody(BlankCall(Use(path, home, c.program)), env, home, s, fuel, c);
      r.out == Fault || (r.out == Val(Null) && Resolve(c.program, home, Joined(path)) in c.program.functions)
  {
    var use := Use(path, home, c.program);
    var lambda, env1 := Lambda([], BlankMatch(use)), env[BLANK := Null];
    var made := Made([], BlankMatch(use), env1, home);
    var s1 := s.(closures := [made]);
    UseMeans(path, env1, home, s1, fuel - 2, c);
    var arms := [Arm(Name(BLANK), [use])];
    assert EvalBody([use], env1, home, s1, fuel - 2, c) == Eval(use, env1, home, s1, fuel - 2, c);
    assert EvalArms(arms, Null, env1, home, s1, fuel - 2, c) == EvalBody([use], env1, home, s1, fuel - 2, c);
    assert Eval(Nil, env1, home, s1, fuel - 2, c) == Res(Val(Null), s1);
    assert Eval(Match(Nil, arms), env1, home, s1, fuel - 2, c) == EvalArms(arms, Null, env1, home, s1, fuel - 2, c);
    assert BlankMatch(use) == [Match(Nil, arms)];
    assert EvalBody(BlankMatch(use), env1, home, s1, fuel - 2, c) == EvalArms(arms, Null, env1, home, s1, fuel - 2, c);
    assert WithParams(env1, [], []) == env1;
    assert Enter(made, [], s1, fuel - 2, c) == EvalBody(BlankMatch(use), env1, home, s1, fuel - 2, c);
    assert s1.closures[0] == made;
    assert Apply(Fun(0), [], s1, fuel - 1, c) == Enter(made, [], s1, fuel - 2, c);
    assert s.closures + [made] == [made];
    assert EvalHead(lambda, env1, home, s, fuel, c) == Res(Val(Fun(0)), s1);
    assert EvalAll([], env1, home, s1, fuel, c) == Vals([], s1);
    var call := Call(lambda, []);
    assert Eval(call, env1, home, s, fuel, c) == Apply(Fun(0), [], s1, fuel - 1, c);
    assert EvalBody([call], env1, home, s, fuel, c) == Eval(call, env1, home, s, fuel, c);
    assert BlankCall(use)[1..] == [call];
  }

  // The emitted lambda captures nothing, and uses what the path names.

  function UseCode(path: seq<string>, home: string, p: Program): Node
    requires Known(path, home, p)
  {
    var q := Resolve(p, home, Joined(path));
    if q in p.functions then NFunction(FunctionCode(q), []) else NPerform(OpRecord(q), seq(p.records[q], _ => NNull))
  }

  lemma {:induction false} NullsCompile(n: nat, env: Paths, home: string, g: Gen, p: Program)
    ensures GenAll(seq(n, _ => Nil), env, home, g, p) == Some(Got(seq(n, _ => NNull), g))
  {
    var ts: seq<Term> := seq(n, _ => Nil);
    if n > 0 {
      assert ts[0] == Nil && ts[1..] == seq(n - 1, _ => Nil);
      NullsCompile(n - 1, env, home, g, p);
      assert GenExpr(ts[0], env, false, home, g, p) == Some(Got(NNull, g));
      assert [NNull] + seq(n - 1, _ => NNull) == seq(n, _ => NNull);
    }
  }

  lemma UseCompiles(path: seq<string>, home: string, g: Gen, p: Program)
    requires Known(path, home, p)
    ensures GenExpr(Use(path, home, p), map[], true, home, g, p) == Some(Got(UseCode(path, home, p), g))
  {
    hide Numbered;
    var q, t := Resolve(p, home, Joined(path)), PathTerm(path);
    var none: Paths := map[];
    assert !Rooted(t, none.Keys);
    if q in p.functions {
      assert DeclaredPath(t, none.Keys, home, p) == Some(q);
    } else {
      NullsCompile(p.records[q], none, home, g, p);
    }
  }

  lemma {:induction false} NullsRun(n: nat, f: Frame, h: Heap, fuel: nat, k: Linked)
    ensures RunAll(seq(n, _ => NNull), f, h, fuel, k) == RanAll(seq(n, _ => Null), h)
  {
    if n > 0 {
      assert seq(n, _ => NNull)[1..] == seq(n - 1, _ => NNull);
      NullsRun(n - 1, f, h, fuel, k);
      assert [Null] + seq(n - 1, _ => Null) == seq(n, _ => Null);
    }
  }

  lemma UseRuns(path: seq<string>, home: string, f: Frame, h: Heap, fuel: nat, k: Linked, p: Program)
    requires Known(path, home, p) && k.machine == Bare()
    ensures var x := Run(UseCode(path, home, p), f, h, fuel, k);
      x.out == Came(if Resolve(p, home, Joined(path)) in p.functions then Fun(|h.objects|) else Null)
  {
    var q := Resolve(p, home, Joined(path));
    if q in p.functions { FunctionRuns(FunctionCode(q), [], [], f, h, fuel, k); }
        else { NullsRun(p.records[q], f, h, fuel, k); }
  }

  function InnerCode(use: Node, temp: nat): Decl {
    Decl(0, [SValue(NBlock([SBind(temp, NNull), SValue(NChoose([Choice(TTrue, [SValue(use)])]))]))])
  }

  function OuterCall(lambda: nat, temp: nat): Node {
    NBlock([SBind(temp, NFunction(LambdaCode(lambda), [])), SValue(NApply(NLocal(temp), [], true))])
  }

  lemma UseReads(path: seq<string>, home: string, p: Program)
    requires Known(path, home, p) && path[0] == BLANK
    ensures RefsBody(BlankMatch(Use(path, home, p)), {}) == {}
  {
    var use, t := Use(path, home, p), PathTerm(path);
    PathReads(t);
    RefsNearlyFree(t, {BLANK});
    assert Refs(t, {BLANK}) == {};
    if use.Call? { NullsRead(|use.args|, {BLANK}); }
    assert Refs(use, {BLANK}) == {};
    assert [use][1..] == [] && RefsBody([use], {BLANK}) == {};
    var arms := [Arm(Name(BLANK), [use])];
    assert {} + PatternNames(Name(BLANK)) == {BLANK} && arms[1..] == [];
    assert RefsArms(arms[1..], {}) == {} && RefsArms(arms, {}) == {};
    var body := BlankMatch(use);
    assert body[1..] == [] && RefsBody(body[1..], {}) == {};
    assert body[0] == Match(Nil, arms) && Refs(Nil, {}) == {} && Refs(body[0], {}) == {};
  }

  lemma {:induction false} NullsRead(n: nat, bound: set<string>)
    ensures RefsAll(seq(n, _ => Nil), bound) == {}
  {
    var ts: seq<Term> := seq(n, _ => Nil);
    if n > 0 {
      assert ts[0] == Nil && ts[1..] == seq(n - 1, _ => Nil);
      NullsRead(n - 1, bound);
    }
  }

  lemma LambdaCompiles(path: seq<string>, env: Paths, home: string, g: Gen, p: Program)
    requires Known(path, home, p) && path[0] == BLANK
    ensures var n, code := g.counter, UseCode(path, home, p);
      GenLambda([], BlankMatch(Use(path, home, p)), env, home, g, p)
      == Some(Got(NFunction(LambdaCode(n + 1), []), Gen(n + 2, g.decls + [(n + 1, InnerCode(code, n + 2))])))
  {
    hide Numbered, Use, UseCode, Known;
    var n, use, code := g.counter, Use(path, home, p), UseCode(path, home, p);
    var none: Paths := map[];
    var arms, body := [Arm(Name(BLANK), [use])], BlankMatch(use);
    var g2 := Tick(Tick(g));
    UseReads(path, home, p);
    assert Names([]) == {};
    assert Captures([], body, env.Keys) == {};
    var captures := Sorted(Captures([], body, env.Keys));
    assert captures == [] && InnerScope(captures) == none;
    UseCompiles(path, home, g2, p);
    assert GenBody([use], none, true, home, g2, p)
      == Some(Got([SValue(code)], g2)) by { SingleCompiles(use, none, home, g2, p); }
    BlankArmCompiles(use, code, NLocal(n + 2), none, home, g2, p);
    assert GenExpr(Nil, none, false, home, g2, p) == Some(Got(NNull, g2));
    assert GenMatch(Match(Nil, arms), none, true, home, Tick(g), p)
      == Some(Got(InnerCode(code, n + 2).stmts[0].value, g2));
    assert GenExpr(Match(Nil, arms), none, true, home, Tick(g), p)
      == Some(Got(InnerCode(code, n + 2).stmts[0].value, g2));
    SingleCompiles(Match(Nil, arms), none, home, Tick(g), p);
    assert GenBody(body, none, true, home, Tick(g), p) == Some(Got(InnerCode(code, n + 2).stmts, g2));
    assert GenParams([], 0, none, Tick(g)) == ([], none, Tick(g));
    assert [] + InnerCode(code, n + 2).stmts == InnerCode(code, n + 2).stmts;
    assert GenFunction([], body, none, home, Tick(g), p) == Some(Got(InnerCode(code, n + 2), g2));
    var made := GenLambda([], body, env, home, g, p).value.it;
    assert |made.captures| == |captures|;
    assert made.captures == [];
  }

  lemma BlankArmCompiles(use: Term, code: Node, value: Node, env: Paths, home: string, g: Gen, p: Program)
    requires GenBody([use], env, true, home, g, p) == Some(Got([SValue(code)], g))
    ensures GenArms([Arm(Name(BLANK), [use])], value, env, true, home, g, p)
      == Some(Got([Choice(TTrue, [SValue(code)])], g))
  {
    hide Numbered, GenBody;
    var arms := [Arm(Name(BLANK), [use])];
    assert arms[1..] == [] && GenArms(arms[1..], value, env, true, home, g, p) == Some(Got([], g));
    assert [Choice(TTrue, [SValue(code)])] + [] == [Choice(TTrue, [SValue(code)])];
  }

  lemma SingleCompiles(t: Term, env: Paths, home: string, g: Gen, p: Program)
    requires GenExpr(t, env, true, home, g, p).Some? && !t.Bind?
    ensures var r := GenExpr(t, env, true, home, g, p).value;
      GenBody([t], env, true, home, g, p) == Some(Got([SValue(r.it)], r.gen))
  {}

  lemma BlankCallCompiles(path: seq<string>, env: Paths, home: string, g: Gen, p: Program)
    requires Known(path, home, p) && path[0] == BLANK
    ensures var n, code := g.counter, UseCode(path, home, p);
      GenBody(BlankCall(Use(path, home, p)), env, true, home, g, p)
      == Some(Got([SBind(n + 1, NNull)] + [SValue(OuterCall(n + 2, n + 4))],
          Gen(n + 4, g.decls + [(n + 2, InnerCode(code, n + 3))])))
  {
    hide Numbered, Use, UseCode, Known, GenLambda;
    var n, use, code := g.counter, Use(path, home, p), UseCode(path, home, p);
    var g1 := Tick(g);
    var lambda := Lambda([], BlankMatch(use));
    var call := Call(lambda, []);
    var scope := env[BLANK := NLocal(n + 1)];
    LambdaCompiles(path, scope, home, g1, p);
    var r := GenLambda([], BlankMatch(use), scope, home, g1, p).value;
    assert GenHead(lambda, scope, home, g1, p) == Some(r);
    assert GenAll([], scope, home, Tick(r.gen), p) == Some(Got([], Tick(r.gen)));
    assert GenExpr(call, scope, true, home, g1, p) == Some(Got(OuterCall(n + 2, n + 4), Tick(r.gen)));
    SingleCompiles(call, scope, home, g1, p);
    assert GenNames([BLANK], n + 1, env, g1) == ([], scope, g1);
    assert BlankCall(use)[1..] == [call];
    assert [SBind(n + 1, NNull)] + [] + [SValue(OuterCall(n + 2, n + 4))] == [SBind(n + 1, NNull)]
      + [SValue(OuterCall(n + 2, n + 4))];
  }

  lemma BlankCallRuns(path: seq<string>, lambda: nat, first: nat, temp: nat, inner: nat, home: string, f: Frame,
      h: Heap, fuel: nat, k: Linked, p: Program)
    requires Known(path, home, p) && k.machine == Bare() && fuel > 3 && h.objects == []
    requires lambda in k.lambdas && k.lambdas[lambda] == InnerCode(UseCode(path, home, p), inner)
    ensures var x := RunStmts([SBind(first, NNull)] + [SValue(OuterCall(lambda, temp))], f, h, fuel, k);
      x.out == Left(if Resolve(p, home, Joined(path)) in p.functions then Fun(1) else Null)
  {
    hide Use, UseCode, Known, Resolve, Joined;
    var code := UseCode(path, home, p);
    var f1 := f.(locals := f.locals[first := Null]);
    BindRuns(first, NNull, [SValue(OuterCall(lambda, temp))], f, h, fuel, k);
    ValueRuns(OuterCall(lambda, temp), f1, h, fuel, k);
    BlockRuns(temp, NFunction(LambdaCode(lambda), []), NApply(NLocal(temp), [], true), f1, h, fuel, k);
    FunctionRuns(LambdaCode(lambda), [], [], f1, h, fuel, k);
    var o := Object(LambdaCode(lambda), []);
    var h1 := h.(objects := [o]);
    assert h.objects + [o] == [o];
    var f2 := f1.(locals := f1.locals[temp := Fun(0)]);
    ApplyRuns(temp, [], true, f2, h1, fuel, k);
    assert RunAll([], f2, h1, fuel, k) == RanAll([], h1);
    assert RunApply(Fun(0), [], h1, fuel - 1, k) == RunCode(o, [], h1, fuel - 2, k);
    InnerRuns(code, inner, h1, fuel - 2, k);
    UseRuns(path, home, Frame(map[inner := Null], [], []), h1, fuel - 2, k, p);
  }

  lemma InnerRuns(code: Node, temp: nat, h: Heap, fuel: nat, k: Linked)
    ensures RunStmts(InnerCode(code, temp).stmts, Frame(map[], [], []), h, fuel, k)
      == Run(code, Frame(map[temp := Null], [], []), h, fuel, k)
  {
    var f, f1 := Frame(map[], [], []), Frame(map[temp := Null], [], []);
    var choose := NChoose([Choice(TTrue, [SValue(code)])]);
    ValueRuns(NBlock([SBind(temp, NNull), SValue(choose)]), f, h, fuel, k);
    BlockRuns(temp, NNull, choose, f, h, fuel, k);
    assert f.(locals := f.locals[temp := Null]) == f1;
    ValueRuns(code, f1, h, fuel, k);
    assert RunChoice([Choice(TTrue, [SValue(code)])], f1, h, fuel, k) == RunStmts([SValue(code)], f1, h, fuel, k);
  }

  // A program with these declarations is accepted, and goes wrong.

  lemma {:induction false} UsurpedAccepted(names: seq<string>, p: Program, q: string, path: seq<string>, g: Gen)
    requires q in p.functions && Known(path, p.functions[q].home, p) && path[0] == BLANK
    requires forall x | x in names :: x in p.functions
    ensures GenProgram(names, Usurped(p, q, path), g).Some?
  {
    hide Numbered, Known, Use;
    var p' := Usurped(p, q, path);
    if names != [] {
      var last, rest := names[|names| - 1], names[..|names| - 1];
      UsurpedAccepted(rest, p, q, path, g);
      var g1 := GenProgram(rest, p', g).value.gen;
      var fn := p'.functions[last];
      var (prefix, scope, g2) := GenParams(fn.params, 0, map[], g1);
      if last == q {
        UsurpedKnows(p, q, path);
        BlankCallCompiles(path, scope, fn.home, g2, p');
      } else {
        SingleCompiles(Nil, scope, fn.home, g2, p');
      }
    }
  }

  lemma UsurpedKnows(p: Program, q: string, path: seq<string>)
    requires q in p.functions && Known(path, p.functions[q].home, p)
    ensures var p' := Usurped(p, q, path);
      var home := p.functions[q].home;
      && SameDeclarations(p, p') && p'.functions[q].home == home
      && Known(path, home, p') && Use(path, home, p') == Use(path, home, p)
      && p'.functions[q].body == BlankCall(Use(path, home, p'))
  {
    assert Usurped(p, q, path).functions.Keys == p.functions.Keys;
  }

  /** Where a path from `_` names a function or a record, closure conversion does not
      preserve the meaning of every program with the same declarations: this one is
      accepted, its source gives null or fails, and its code gives something else. */
  lemma {:induction false} BlankNameMisleads(p: Program, q: string, path: seq<string>, w: World)
    requires q in p.functions && Known(path, p.functions[q].home, p) && path[0] == BLANK
    ensures SameDeclarations(p, Usurped(p, q, path)) && !Faithful(Usurped(p, q, path))
  {
    hide Numbered, Known, Use, UseCode, GenProgram, BlankCall;
    var p', fn := Usurped(p, q, path), p.functions[q];
    var names := Sorted(p.functions.Keys);
    UsurpedKnows(p, q, path);
    assert q in Names(names) && Lists(names, p') by { assert forall x | x in names :: x in Names(names); }
    UsurpedAccepted(names, p, q, path, Gen(0, []));
    var args: seq<Value> := seq(|fn.params|, _ => Null);
    var none: Env := map[];
    BlankCallMeans(path, WithParams(none, fn.params, args), fn.home, State([], w), 4, Setting(p', Bare()));
    UsurpedRuns(names, p', q, path, args, w);
    assert !SameCall(names, p', Bare(), q, args, w, 4);
  }

  lemma {:induction false} UsurpedRuns(names: seq<string>, p: Program, q: string, path: seq<string>, args: seq<Value>,
      w: World)
    requires Lists(names, p) && q in p.functions && GenProgram(names, p, Gen(0, [])).Some?
    requires Known(path, p.functions[q].home, p) && path[0] == BLANK && |args| == |p.functions[q].params|
    requires p.functions[q].body == BlankCall(Use(path, p.functions[q].home, p))
    ensures var r := GenProgram(names, p, Gen(0, [])).value;
      var x := RunCode(Object(FunctionCode(q), []), args, Heap([], w), 4, Link(r.it, r.gen, Bare()));
      x.out == Came(if Resolve(p, p.functions[q].home, Joined(path)) in p.functions then Fun(1) else Null)
  {
    hide Numbered, Known, Use, UseCode, GenProgram, BlankCall, GenBody, GenParams, Run, RunStmts, Resolve, Joined;
    var r := GenProgram(names, p, Gen(0, [])).value;
    var k, fn := Link(r.it, r.gen, Bare()), p.functions[q];
    var f, h := Frame(map[], [], args), Heap([], w);
    ProgramEmits(names, p, Bare());
    assert q in Names(names);
    var g := ProgramDeclares(names, p, Gen(0, []), q, k);
    var (prefix, scope, g1) := GenParams(fn.params, 0, map[], g);
    BlankCallCompiles(path, scope, fn.home, g1, p);
    var n, code := g1.counter, UseCode(path, fn.home, p);
    var rest := [SBind(n + 1, NNull)] + [SValue(OuterCall(n + 2, n + 4))];
    assert k.functions[q] == Decl(|fn.params|, prefix + rest);
    assert k.lambdas[n + 2] == InnerCode(code, n + 3) by {
      assert (n + 2, InnerCode(code, n + 3)) in GenBody(fn.body, scope, true, fn.home, g1, p).value.gen.decls;
    }
    var none: Env := map[];
    var f1 := ParamsSame(fn.params, 0, rest, map[], none, f, h, 4, g, k);
    BlankCallRuns(path, n + 2, n + 1, n + 4, n + 3, fn.home, f1, h, 4, k, p);
  }

  /** Closure conversion preserves the meaning of every accepted program with given
      declarations if and only if no path from `_` names one of them; `w` is any world. */
  lemma {:induction false} FaithfulExactly(p: Program, w: World)
    ensures (forall p' | SameDeclarations(p, p') :: Faithful(p')) <==> NoBlankName(p)
  {
    hide Faithful, Known;
    if NoBlankName(p) {
      forall p' | SameDeclarations(p, p') ensures Faithful(p') {
        forall q | q in p'.functions ensures !Global(BLANK, p'.functions[q].home, p') {
          GlobalDeclared(p'.functions[q].home, p, p');
        }
        ProgramSame(p');
      }
    } else {
      var q :| q in p.functions && Global(BLANK, p.functions[q].home, p);
      NoSuchBuiltin();
      var path: seq<string> :| path != [] && path[0] == BLANK && Known(path, p.functions[q].home, p);
      BlankNameMisleads(p, q, path, w);
    }
  }

  lemma GlobalDeclared(home: string, p: Program, p': Program)
    requires SameDeclarations(p, p')
    ensures Global(BLANK, home, p) == Global(BLANK, home, p')
  {
    forall path: seq<string> | path != [] ensures Known(path, home, p) == Known(path, home, p') {}
  }
}
