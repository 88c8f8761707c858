// Closure conversion preserves meaning: emitted code, run with its captures, does
// what evaluation in lexical scope does.
module WispCorrect {
  import opened Outcomes
  import opened WispTerm
  import opened WispOperators
  import opened WispMachine
  import opened WispCode

  // ----------------------------------------------------------- how they relate

  /** Every name the code can find is in scope, and is found with its value. */
  ghost predicate Stands(scope: Paths, env: Env, f: Frame, k: Linked) {
    forall s | s in scope :: s in env && PathValue(scope[s], f, k) == Some(env[s])
  }

  /** Every name in scope, of those that are read, can be found by the code. */
  ghost predicate Covers(scope: Paths, env: Env, names: set<string>) {
    forall s | s in names && s in env :: s in scope
  }

  ghost predicate Below(f: Frame, n: nat) {
    forall id | id in f.locals :: id <= n
  }

  ghost predicate Sits(scope: Paths, env: Env, names: set<string>, f: Frame, g: Gen, k: Linked) {
    Stands(scope, env, f, k) && Covers(scope, env, names) && Below(f, g.counter)
  }

  /** The lambdas emitted so far are in the linked program. */
  ghost predicate Emits(g: Gen, k: Linked) {
    forall d | d in g.decls :: d.0 in k.lambdas && k.lambdas[d.0] == d.1
  }

  /** `d` is what the generator emits for a function, from some state of its counter. */
  ghost predicate Emitted(d: Decl, params: seq<string>, body: seq<Term>, scope: Paths, home: string, g: Gen, k: Linked,
      p: Program) {
    var r := GenFunction(params, body, scope, home, g, p);
    r.Some? && r.value.it == d && Emits(r.value.gen, k)
  }

  ghost predicate CapturedRight(params: seq<string>, body: seq<Term>, env: Env, captures: seq<string>,
      captured: seq<Value>) {
    && |captured| == |captures|
    && (forall j | 0 <= j < |captures| :: captures[j] in env && captured[j] == env[captures[j]])
    && Needed(params, body, env.Keys) <= Names(captures)
  }

  ghost predicate SameFunction(cl: Closure, o: Object, k: Linked, p: Program) {
    match cl
    case Declared(q) => q in p.functions && o == Object(CodeOf(cl), [])
    case Builtin(name) => BuiltinId(name).Some? && o == Object(CodeOf(cl), [])
    case Made(params, body, env, home) =>
      && o.code.LambdaCode? && o.code.id in k.lambdas
      && CleanBody(body, env.Keys + Names(params))
      && exists captures, g ::
           && Emitted(k.lambdas[o.code.id], params, body, InnerScope(captures), home, g, k, p)
           && CapturedRight(params, body, env, captures, o.captured)
  }

  ghost predicate SameState(s: State, h: Heap, k: Linked, p: Program) {
    && s.world == h.world && |s.closures| == |h.objects|
    && forall i | 0 <= i < |s.closures| :: SameFunction(s.closures[i], h.objects[i], k, p)
  }

  /** The same outcome; from a tail position it may come by leaving the function. */
  predicate SameOut(o: Out, x: Exit, tail: bool) {
    match o
    case Val(v) => x == Came(v) || (tail && x == Left(v))
    case Fault => x == Broke
    case Timeout => x == Spent
  }

  ghost predicate Same(r: Res, x: Ran, tail: bool, k: Linked, p: Program) {
    SameOut(r.out, x.out, tail) && SameState(r.state, x.heap, k, p)
  }

  ghost predicate SameAll(r: Many, x: RanAll, k: Linked, p: Program) {
    match r
    case Vals(vs, s) => x.RanAll? && x.values == vs && SameState(s, x.heap, k, p)
    case Stop(o, s) => !o.Val? && x.Halted? && SameOut(o, x.out, false) && SameState(s, x.heap, k, p)
  }

  ghost predicate Declares(q: string, g: Gen, k: Linked, c: Setting)
    requires q in c.program.functions
  {
    var fn := c.program.functions[q];
    && q in k.functions
    && Emitted(k.functions[q], fn.params, fn.body, map[], fn.home, g, k, c.program)
  }

  /** A linked program is what the generator makes of the source program, and no
      lambda in it misses a blank. */
  ghost predicate Compiles(k: Linked, c: Setting) {
    && k.machine == c.machine
    && forall q | q in c.program.functions ::
         && CleanBody(c.program.functions[q].body, Names(c.program.functions[q].params))
         && exists g :: Declares(q, g, k, c)
  }

  // -------------------------------------------------------------- small facts

  lemma EmitsLess(g: Gen, g': Gen, k: Linked)
    requires Grew(g, g') && Emits(g', k)
    ensures Emits(g, k)
  {
    forall d | d in g.decls ensures d.0 in k.lambdas && k.lambdas[d.0] == d.1 {
      assert d in g'.decls;
    }
  }

  lemma SitsPart(scope: Paths, env: Env, names: set<string>, part: set<string>, f: Frame, g: Gen, g': Gen, k: Linked)
    requires Sits(scope, env, names, f, g, k) && part <= names && g.counter <= g'.counter
    ensures Sits(scope, env, part, f, g', k)
  {}

  /** A fresh local leaves everything where it was found. */
  lemma SitsGrows(scope: Paths, env: Env, names: set<string>, part: set<string>, f: Frame, g: Gen, v: Value, k: Linked)
    requires Sits(scope, env, names, f, g, k) && part <= names
    ensures Sits(scope, env, part, f.(locals := f.locals[g.counter + 1 := v]), Tick(g), k)
  {
    StandsGrows(scope, env, f, g.counter + 1, v, k);
  }

  /** Fresh locals disturb no path. */
  lemma {:induction false} PathGrows(n: Node, f: Frame, id: nat, v: Value, k: Linked)
    requires PathValue(n, f, k).Some? && id !in f.locals
    ensures PathValue(n, f.(locals := f.locals[id := v]), k) == PathValue(n, f, k)
  {
    if n.NPart? { PathGrows(n.of, f, id, v, k); }
  }

  lemma {:induction false} StandsGrows(scope: Paths, env: Env, f: Frame, id: nat, v: Value, k: Linked)
    requires Stands(scope, env, f, k) && id !in f.locals
    ensures Stands(scope, env, f.(locals := f.locals[id := v]), k)
  {
    forall s | s in scope ensures PathValue(scope[s], f.(locals := f.locals[id := v]), k) == Some(env[s]) {
      PathGrows(scope[s], f, id, v, k);
    }
  }

  lemma PathRuns(n: Node, f: Frame, h: Heap, fuel: nat, k: Linked)
    requires PathValue(n, f, k).Some?
    ensures Run(n, f, h, fuel, k) == Ran(Came(PathValue(n, f, k).value), h)
  {}

  lemma {:induction false} PathsRun(ns: seq<Node>, vs: seq<Value>, f: Frame, h: Heap, fuel: nat, k: Linked)
    requires |ns| == |vs| && forall j | 0 <= j < |ns| :: PathValue(ns[j], f, k) == Some(vs[j])
    ensures RunAll(ns, f, h, fuel, k) == RanAll(vs, h)
  {
    if ns != [] {
      PathRuns(ns[0], f, h, fuel, k);
      PathsRun(ns[1..], vs[1..], f, h, fuel, k);
      assert [vs[0]] + vs[1..] == vs;
    }
  }

  /** A name bound to a fresh local. */
  lemma StandsBinds(scope: Paths, env: Env, f: Frame, name: string, id: nat, v: Value, k: Linked)
    requires Stands(scope, env, f, k) && id !in f.locals
    ensures Stands(scope[name := NLocal(id)], env[name := v], f.(locals := f.locals[id := v]), k)
  {
    StandsGrows(scope, env, f, id, v, k);
  }

  lemma SameAllocate(cl: Closure, o: Object, s: State, h: Heap, k: Linked, p: Program)
    requires SameState(s, h, k, p) && SameFunction(cl, o, k, p)
    ensures SameState(s.(closures := s.closures + [cl]), h.(objects := h.objects + [o]), k, p)
  {}

  /** Both sides see the same locals at the head of a path. */
  lemma RootsAgree(t: Term, scope: Paths, env: Env, f: Frame, k: Linked)
    requires Stands(scope, env, f, k) && Covers(scope, env, Free(t))
    ensures Rooted(t, scope.Keys) == Rooted(t, env.Keys)
  {
    if Path(t).Some? { RootIsFree(t); }
  }

  lemma HeadsAgree(t: Term, scope: Paths, env: Env, home: string, f: Frame, k: Linked, p: Program)
    requires Stands(scope, env, f, k) && Covers(scope, env, Free(t))
    ensures DeclaredPath(t, scope.Keys, home, p) == DeclaredPath(t, env.Keys, home, p)
    ensures HeadOf(t, scope.Keys, home, p) == HeadOf(t, env.Keys, home, p)
  {
    RootsAgree(t, scope, env, f, k);
  }

  // ------------------------------------------------------------------ patterns

  /** The names a pattern binds are those it adds to the scope. */
  lemma {:induction false} PatternScope(t: Term, n: Node, env: Paths, home: string, p: Program)
    requires GenPattern(t, n, env, home, p).Some?
    ensures GenPattern(t, n, env, home, p).value.1.Keys == env.Keys + PatternBinds(t)
    decreases t
  {
    match t
    case Call(ctor, fields) =>
      PatternsScope(fields, true, n, 0, TRecord(n, Resolve(p, home, Joined(Path(ctor).value))), env, home, p);
    case Vector(fields) => PatternsScope(fields, false, n, 0, TVector(n, |fields|), env, home, p);
    case _ =>
  }

  lemma {:induction false} PatternsScope(ts: seq<Term>, record: bool, n: Node, j: nat, check: Test, env: Paths,
                                         home: string, p: Program)
    requires GenPatterns(ts, record, n, j, check, env, home, p).Some?
    ensures GenPatterns(ts, record, n, j, check, env, home, p).value.1.Keys == env.Keys + PatternBindsAll(ts)
    decreases ts
  {
    if ts != [] {
      PatternScope(ts[0], NPart(record, n, j), env, home, p);
      var (test, scope) := GenPattern(ts[0], NPart(record, n, j), env, home, p).value;
      PatternsScope(ts[1..], record, n, j + 1, TAnd(check, test), scope, home, p);
    }
  }

  lemma {:induction false} PatternEnv(t: Term, v: Value, env: Env, c: Setting)
    ensures WithPattern(env, t, v, c).Keys == env.Keys + PatternBinds(t)
    decreases t
  {
    match t
    case Call(_, fields) => PatternsEnv(fields, true, v, 0, env, c);
    case Vector(fields) => PatternsEnv(fields, false, v, 0, env, c);
    case _ =>
  }

  lemma {:induction false} PatternsEnv(ts: seq<Term>, record: bool, v: Value, j: nat, env: Env, c: Setting)
    ensures WithPatterns(env, ts, record, v, j, c).Keys == env.Keys + PatternBindsAll(ts)
    decreases ts
  {
    if ts != [] {
      var part := c.machine.part(record, v, j);
      PatternEnv(ts[0], part, env, c);
      PatternsEnv(ts[1..], record, v, j + 1, WithPattern(env, ts[0], part, c), c);
    }
  }

  /** A pattern's test holds when the pattern matches, and its names are found. */
  lemma {:induction false} PatternSame(t: Term, n: Node, v: Value, scope: Paths, env: Env, home: string, f: Frame,
      c: Setting, k: Linked)
    requires k.machine == c.machine && GenPattern(t, n, scope, home, c.program).Some?
    requires PathValue(n, f, k) == Some(v) && Stands(scope, env, f, k)
    ensures var (test, scope') := GenPattern(t, n, scope, home, c.program).value;
      var env' := WithPattern(env, t, v, c);
      (Holds(test, f, k) <==> Matches(t, v, home, c)) && Stands(scope', env', f, k)
    decreases t
  {
    match t
    case Call(ctor, fields) =>
      var q := Resolve(c.program, home, Joined(Path(ctor).value));
      PatternsSame(fields, true, n, v, 0, TRecord(n, q), scope, env, home, f, c, k);
    case Vector(fields) =>
      PatternsSame(fields, false, n, v, 0, TVector(n, |fields|), scope, env, home, f, c, k);
    case _ =>
  }

  lemma {:induction false} PatternsSame(ts: seq<Term>, record: bool, n: Node, v: Value, j: nat, check: Test,
      scope: Paths, env: Env, home: string, f: Frame, c: Setting, k: Linked)
    requires k.machine == c.machine && GenPatterns(ts, record, n, j, check, scope, home, c.program).Some?
    requires PathValue(n, f, k) == Some(v) && Stands(scope, env, f, k)
    ensures var (test, scope') := GenPatterns(ts, record, n, j, check, scope, home, c.program).value;
      var env' := WithPatterns(env, ts, record, v, j, c);
      (Holds(test, f, k) <==> Holds(check, f, k) && MatchesAll(ts, record, v, j, home, c)) && Stands(scope', env', f, k)
    decreases ts
  {
    hide Resolve, Stands;
    if ts != [] {
      var part := c.machine.part(record, v, j);
      PatternSame(ts[0], NPart(record, n, j), part, scope, env, home, f, c, k);
      var (test, scope1) := GenPattern(ts[0], NPart(record, n, j), scope, home, c.program).value;
      PatternsSame(ts[1..], record, n, v, j + 1, TAnd(check, test), scope1, WithPattern(env, ts[0], part, c), home, f,
          c, k);
    }
  }

  // ---------------------------------------------------------------- parameters

  lemma NamesSplit(names: seq<string>)
    requires names != []
    ensures Names(names) == {names[0]} + Names(names[1..])
  {}

  /** The binds of an emitted function put its arguments where its body finds them. */
  lemma {:induction false} ParamsSame(params: seq<string>, j: nat, rest: seq<Stmt>, scope: Paths, env: Env, f: Frame,
      h: Heap, fuel: nat, g: Gen, k: Linked)
    returns (f': Frame)
    requires Stands(scope, env, f, k) && Below(f, g.counter) && j + |params| == |f.args|
    ensures var (prefix, scope', g') := GenParams(params, j, scope, g);
      var env' := WithParams(env, params, f.args[j..]);
      && RunStmts(prefix + rest, f, h, fuel, k) == RunStmts(rest, f', h, fuel, k)
      && Stands(scope', env', f', k) && Below(f', g'.counter)
      && scope'.Keys == scope.Keys + Names(params) && env'.Keys == env.Keys + Names(params)
    decreases params
  {
    hide Numbered, Run, RunStmts, Stands;
    if params == [] {
      f' := f;
      assert [] + rest == rest;
    } else {
      var binding, v := g.counter + 1, f.args[j];
      var f1 := f.(locals := f.locals[binding := v]);
      var scope1, env1 := scope[params[0] := NLocal(binding)], env[params[0] := v];
      StandsBinds(scope, env, f, params[0], binding, v, k);
      f' := ParamsSame(params[1..], j + 1, rest, scope1, env1, f1, h, fuel, Tick(g), k);
      var (tail, scope', g') := GenParams(params[1..], j + 1, scope1, Tick(g));
      assert [SBind(binding, NArg(j))] + tail + rest == [SBind(binding, NArg(j))] + (tail + rest);
      PathRuns(NArg(j), f, h, fuel, k);
      BindRuns(binding, NArg(j), tail + rest, f, h, fuel, k);
      assert f.args[j..][0] == v && f.args[j..][1..] == f1.args[j + 1..];
      NamesSplit(params);
    }
  }

  // -------------------------------------------------------------- let of parts

  lemma LocalRuns(op: Op, id: nat, f: Frame, h: Heap, fuel: nat, k: Linked)
    requires id in f.locals
    ensures Run(NPerform(op, [NLocal(id)]), f, h, fuel, k) == PerformIn(op, [f.locals[id]], h, k)
  {
    PathsRun([NLocal(id)], [f.locals[id]], f, h, fuel, k);
  }

  lemma {:induction false} PartsSame(names: seq<string>, i: nat, value: nat, v: Value, rest: seq<Stmt>, scope: Paths,
      env: Env, f: Frame, g: Gen, s: State, h: Heap, fuel: nat, c: Setting, k: Linked) returns (f': Frame, h': Heap)
    requires k.machine == c.machine && SameState(s, h, k, c.program)
    requires Stands(scope, env, f, k) && Below(f, g.counter) && value in f.locals && f.locals[value] == v
    ensures var (parts, scope', g') := GenParts(names, i, value, scope, g);
      match WithParts(env, names, i, v, s, c)
      case Unbound(o, s') =>
        && o == Fault && SameState(s', h', k, c.program)
        && RunStmts(parts + rest, f, h, fuel, k) == Ran(Broke, h')
      case Bound(env', s') =>
        && RunStmts(parts + rest, f, h, fuel, k) == RunStmts(rest, f', h', fuel, k)
        && SameState(s', h', k, c.program) && Stands(scope', env', f', k) && Below(f', g'.counter)
        && scope'.Keys == scope.Keys + Names(names) && env'.Keys == env.Keys + Names(names)
    decreases names
  {
    hide Run, RunStmts, SameFunction, Stands;
    f', h' := f, h;
    if names == [] {
      assert [] + rest == rest;
    } else {
      var temp := g.counter + 1;
      var scope1 := scope[names[0] := NLocal(temp)];
      var (tail, scope', g') := GenParts(names[1..], i + 1, value, scope1, Tick(g));
      var node := NPerform(OpGetAt(i), [NLocal(value)]);
      var stmts := [SBind(temp, node)] + tail + rest;
      assert stmts == [SBind(temp, node)] + (tail + rest);
      LocalRuns(OpGetAt(i), value, f, h, fuel, k);
      BindRuns(temp, node, tail + rest, f, h, fuel, k);
      var x, r := Run(node, f, h, fuel, k), Perform(OpGetAt(i), [v], s, c);
      h' := x.heap;
      assert ([SBind(temp, node)] + tail) + rest == stmts;
      if r.out.Val? {
        var w := r.out.value;
        StandsBinds(scope, env, f, names[0], temp, w, k);
        f', h' := PartsSame(names[1..], i + 1, value, v, rest, scope1, env[names[0] := w],
                            f.(locals := f.locals[temp := w]), Tick(g), r.state, x.heap, fuel, c, k);
        NamesSplit(names);
      }
    }
  }

  lemma {:induction false} NamesSame(names: seq<string>, value: nat, v: Value, rest: seq<Stmt>, scope: Paths, env: Env,
      f: Frame, g: Gen, s: State, h: Heap, fuel: nat, c: Setting, k: Linked) returns (f': Frame, h': Heap)
    requires k.machine == c.machine && SameState(s, h, k, c.program)
    requires Stands(scope, env, f, k) && Below(f, g.counter) && value in f.locals && f.locals[value] == v
    ensures var (parts, scope', g') := GenNames(names, value, scope, g);
      match WithNames(env, names, v, s, c)
      case Unbound(o, s') =>
        && o == Fault && SameState(s', h', k, c.program)
        && RunStmts(parts + rest, f, h, fuel, k) == Ran(Broke, h')
      case Bound(env', s') =>
        && RunStmts(parts + rest, f, h, fuel, k) == RunStmts(rest, f', h', fuel, k)
        && SameState(s', h', k, c.program) && Stands(scope', env', f', k) && Below(f', g'.counter)
        && scope'.Keys == scope.Keys + Names(names) && env'.Keys == env.Keys + Names(names)
  {
    if |names| == 1 {
      f', h' := f, h;
      assert [] + rest == rest;
      assert names == [names[0]];
    } else {
      f', h' := PartsSame(names, 0, value, v, rest, scope, env, f, g, s, h, fuel, c, k);
    }
  }

  // ------------------------------------------------------ how some code runs

  lemma OneRuns(a: Node, f: Frame, h: Heap, fuel: nat, k: Linked)
    ensures var x := Run(a, f, h, fuel, k);
      RunAll([a], f, h, fuel, k) == if !x.out.Came? then Halted(x.out, x.heap) else RanAll([x.out.value], x.heap)
  {
    assert [a][1..] == [];
  }

  lemma PairRuns(a: Node, b: Node, f: Frame, h: Heap, fuel: nat, k: Linked)
    ensures var x := Run(a, f, h, fuel, k);
      var y := Run(b, f, x.heap, fuel, k);
      RunAll([a, b], f, h, fuel, k) ==
        if !x.out.Came? then Halted(x.out, x.heap)
        else if !y.out.Came? then Halted(y.out, y.heap)
        else RanAll([x.out.value, y.out.value], y.heap)
  {
    var x := Run(a, f, h, fuel, k);
    assert [a, b][1..] == [b];
    OneRuns(b, f, x.heap, fuel, k);
    var y := Run(b, f, x.heap, fuel, k);
    if x.out.Came? && y.out.Came? {
      assert [x.out.value] + [y.out.value] == [x.out.value, y.out.value];
    }
  }

  /** An `assoc` into a map held in a local. */
  lemma AssocRuns(last: nat, m: Value, a: Node, b: Node, f: Frame, h: Heap, fuel: nat, k: Linked)
    requires PathValue(NLocal(last), f, k) == Some(m)
    ensures var x := Run(a, f, h, fuel, k);
      var y := Run(b, f, x.heap, fuel, k);
      Run(NPerform(OpAssoc, [NLocal(last), a, b]), f, h, fuel, k) ==
        if !x.out.Came? then x
        else if !y.out.Came? then y
        else PerformIn(OpAssoc, [m, x.out.value, y.out.value], y.heap, k)
  {
    var nodes := [NLocal(last), a, b];
    PathRuns(NLocal(last), f, h, fuel, k);
    assert nodes[1..] == [a, b];
    PairRuns(a, b, f, h, fuel, k);
    var x := Run(a, f, h, fuel, k);
    var y := Run(b, f, x.heap, fuel, k);
    if x.out.Came? && y.out.Came? {
      assert [m] + [x.out.value, y.out.value] == [m, x.out.value, y.out.value];
    }
  }

  lemma ValueRuns(a: Node, f: Frame, h: Heap, fuel: nat, k: Linked)
    ensures RunStmts([SValue(a)], f, h, fuel, k) == Run(a, f, h, fuel, k)
  {}

  lemma NullRuns(f: Frame, h: Heap, fuel: nat, k: Linked)
    ensures RunStmts([SValue(NNull)], f, h, fuel, k) == Ran(Came(Null), h)
  {}

  lemma BindRuns(id: nat, a: Node, rest: seq<Stmt>, f: Frame, h: Heap, fuel: nat, k: Linked)
    ensures var x := Run(a, f, h, fuel, k);
      RunStmts([SBind(id, a)] + rest, f, h, fuel, k) ==
        if !x.out.Came? then x else RunStmts(rest, f.(locals := f.locals[id := x.out.value]), x.heap, fuel, k)
  {
    assert ([SBind(id, a)] + rest)[1..] == rest;
  }

  /** A block that binds one thing and goes on to another. */
  lemma BlockRuns(id: nat, a: Node, b: Node, f: Frame, h: Heap, fuel: nat, k: Linked)
    ensures var x := Run(a, f, h, fuel, k);
      Run(NBlock([SBind(id, a), SValue(b)]), f, h, fuel, k) ==
        if !x.out.Came? then x else Run(b, f.(locals := f.locals[id := x.out.value]), x.heap, fuel, k)
  {
    var x := Run(a, f, h, fuel, k);
    assert [SBind(id, a)] + [SValue(b)] == [SBind(id, a), SValue(b)];
    BindRuns(id, a, [SValue(b)], f, h, fuel, k);
    if x.out.Came? { ValueRuns(b, f.(locals := f.locals[id := x.out.value]), x.heap, fuel, k); }
  }

  lemma ChoiceRuns(id: nat, a: Node, b: Node, f: Frame, h: Heap, fuel: nat, k: Linked)
    requires id in f.locals
    ensures Run(NIf(NLocal(id), [SValue(a)], [SValue(b)]), f, h, fuel, k) ==
      if k.machine.truth(f.locals[id]) then Run(a, f, h, fuel, k) else Run(b, f, h, fuel, k)
  {
    PathRuns(NLocal(id), f, h, fuel, k);
    ValueRuns(a, f, h, fuel, k);
    ValueRuns(b, f, h, fuel, k);
  }

  lemma CallRuns(code: CodeRef, args: seq<Node>, tail: bool, f: Frame, h: Heap, fuel: nat, k: Linked)
    ensures Run(NCall(code, args, tail), f, h, fuel, k) ==
      match RunAll(args, f, h, fuel, k)
      case Halted(o, h1) => Ran(o, h1)
      case RanAll(vs, h1) => if fuel == 0 then Ran(Spent, h1)
          else Returned(RunCode(Object(code, []), vs, h1, fuel - 1, k), tail)
  {}

  lemma PlainRuns(op: Op, f: Frame, h: Heap, fuel: nat, k: Linked)
    ensures Run(NPerform(op, []), f, h, fuel, k) == PerformIn(op, [], h, k)
  {
    assert RunAll([], f, h, fuel, k) == RanAll([], h);
  }

  // ------------------------------------------------------------- whole terms

  /** The code of an expression does what the expression means. */
  lemma {:induction false} ExprSame(t: Term, env: Env, scope: Paths, f: Frame, home: string, tail: bool, g: Gen,
                        s: State, h: Heap, fuel: nat, c: Setting, k: Linked)
    requires Compiles(k, c) && SameState(s, h, k, c.program) && Clean(t, env.Keys)
    requires var r := GenExpr(t, scope, tail, home, g, c.program); r.Some? && Emits(r.value.gen, k)
    requires Sits(scope, env, Free(t), f, g, k)
    ensures Same(Eval(t, env, home, s, fuel, c),
      Run(GenExpr(t, scope, tail, home, g, c.program).value.it, f, h, fuel, k), tail, k, c.program)
    decreases fuel, t, 1
  {
    hide Numbered, Sits, SameFunction, RunStmts, EvalBody, GenBody, GenPattern;
    match t
    case Nil =>
    case Lit(l) =>
    case Name(_) => NameSame(t, env, scope, f, home, tail, g, s, h, fuel, c, k);
    case Vector(xs) => AllSame(xs, env, scope, f, home, g, s, h, fuel, c, k);
    case MapLit(_) => MapSame(t, env, scope, f, home, tail, g, s, h, fuel, c, k);
    case Lambda(_, _) => LambdaSame(t, env, scope, f, home, tail, g, s, h, fuel, c, k);
    case If(_, _, _) => IfSame(t, env, scope, f, home, tail, g, s, h, fuel, c, k);
    case Match(_, _) => MatchSame(t, env, scope, f, home, tail, g, s, h, fuel, c, k);
    case Binary(op, _, _) =>
      if op == "and" || op == "or" {
        ShortSame(t, env, scope, f, home, tail, g, s, h, fuel, c, k);
      } else {
        BinarySame(t, env, scope, f, home, tail, g, s, h, fuel, c, k);
      }
    case Field(_, _) => FieldSame(t, env, scope, f, home, tail, g, s, h, fuel, c, k);
    case Call(_, _) => CallSame(t, env, scope, f, home, tail, g, s, h, fuel, c, k);
  }

  lemma {:induction false} NameSame(t: Term, env: Env, scope: Paths, f: Frame, home: string, tail: bool, g: Gen,
                        s: State, h: Heap, fuel: nat, c: Setting, k: Linked)
    requires Compiles(k, c) && SameState(s, h, k, c.program) && Clean(t, env.Keys) && t.Name?
    requires var r := GenExpr(t, scope, tail, home, g, c.program); r.Some? && Emits(r.value.gen, k)
    requires Sits(scope, env, Free(t), f, g, k)
    ensures Same(Eval(t, env, home, s, fuel, c),
      Run(GenExpr(t, scope, tail, home, g, c.program).value.it, f, h, fuel, k), tail, k, c.program)
    decreases fuel, t, 0
  {
    if t.name in env {
      assert t.name in scope;
      PathRuns(scope[t.name], f, h, fuel, k);
    } else {
      var cl := GlobalName(t.name, home, c.program).value;
      SameAllocate(cl, Object(CodeOf(cl), []), s, h, k, c.program);
    }
  }

  /** A lambda captures all that its body needs of the scope it is made in. */
  lemma {:induction false} LambdaSame(t: Term, env: Env, scope: Paths, f: Frame, home: string, tail: bool, g: Gen,
                        s: State, h: Heap, fuel: nat, c: Setting, k: Linked)
    requires Compiles(k, c) && SameState(s, h, k, c.program) && Clean(t, env.Keys) && t.Lambda?
    requires var r := GenExpr(t, scope, tail, home, g, c.program); r.Some? && Emits(r.value.gen, k)
    requires Sits(scope, env, Free(t), f, g, k)
    ensures Same(Eval(t, env, home, s, fuel, c),
      Run(GenExpr(t, scope, tail, home, g, c.program).value.it, f, h, fuel, k), tail, k, c.program)
    decreases fuel, t, 0
  {
    hide Numbered, GenFunction, Run, RunStmts, RunAll, SameState, CapturedRight, Captures, MissesBlank, Sits;
    var captures := Sorted(Captures(t.params, t.body, scope.Keys));
    var nodes, values := CapturesFound(t, env, scope, captures, f, g, k);
    var r := GenExpr(t, scope, tail, home, g, c.program).value;
    var inner := GenFunction(t.params, t.body, InnerScope(captures), home, Tick(g), c.program).value;
    var name := g.counter + 1;
    assert (name, inner.it) in r.gen.decls;
    EmitsLess(inner.gen, r.gen, k);
    assert r.it == NFunction(LambdaCode(name), nodes);
    FunctionRuns(LambdaCode(name), nodes, values, f, h, fuel, k);
    assert Emitted(k.lambdas[name], t.params, t.body, InnerScope(captures), home, Tick(g), k, c.program);
    SameAllocate(Made(t.params, t.body, env, home), Object(LambdaCode(name), values), s, h, k, c.program);
  }

  /** What is captured is found, and is all that is needed. */
  lemma CapturesFound(t: Term, env: Env, scope: Paths, captures: seq<string>, f: Frame, g: Gen, k: Linked)
    returns (nodes: seq<Node>, values: seq<Value>)
    requires t.Lambda? && Clean(t, env.Keys) && Sits(scope, env, Free(t), f, g, k)
    requires captures == Sorted(Captures(t.params, t.body, scope.Keys))
    ensures forall j | 0 <= j < |captures| :: captures[j] in scope
    ensures nodes == seq(|captures|, j requires 0 <= j < |captures| => scope[captures[j]])
    ensures |values| == |nodes| && forall j | 0 <= j < |nodes| :: PathValue(nodes[j], f, k) == Some(values[j])
    ensures CapturedRight(t.params, t.body, env, captures, values)
  {
    CapturesAreNeeded(t.params, t.body, env.Keys);
    forall j | 0 <= j < |captures| ensures captures[j] in scope && captures[j] in env {
      assert captures[j] in Names(captures);
    }
    nodes := seq(|captures|, j requires 0 <= j < |captures| => scope[captures[j]]);
    values := seq(|captures|, j requires 0 <= j < |captures| => env[captures[j]]);
    forall n | n in Needed(t.params, t.body, env.Keys) ensures n in Names(captures) {
      assert n in Free(t);
    }
  }

  lemma FunctionRuns(code: CodeRef, nodes: seq<Node>, values: seq<Value>, f: Frame, h: Heap, fuel: nat, k: Linked)
    requires |nodes| == |values| && forall j | 0 <= j < |nodes| :: PathValue(nodes[j], f, k) == Some(values[j])
    ensures Run(NFunction(code, nodes), f, h, fuel, k) ==
      Ran(Came(Fun(|h.objects|)), h.(objects := h.objects + [Object(code, values)]))
  {
    PathsRun(nodes, values, f, h, fuel, k);
  }

  lemma IfRuns(x: Node, yes: seq<Stmt>, no: seq<Stmt>, f: Frame, h: Heap, fuel: nat, k: Linked)
    ensures var r := Run(x, f, h, fuel, k);
      Run(NIf(x, yes, no), f, h, fuel, k) ==
        if !r.out.Came? then r
        else if k.machine.truth(r.out.value) then RunStmts(yes, f, r.heap, fuel, k)
        else RunStmts(no, f, r.heap, fuel, k)
  {}

  lemma ChooseRuns(arms: seq<Choice>, f: Frame, h: Heap, fuel: nat, k: Linked)
    ensures Run(NChoose(arms), f, h, fuel, k) == RunChoice(arms, f, h, fuel, k)
  {}

  lemma PerformRuns(op: Op, a: Node, b: Node, f: Frame, h: Heap, fuel: nat, k: Linked)
    ensures var x := Run(a, f, h, fuel, k);
      var y := Run(b, f, x.heap, fuel, k);
      Run(NPerform(op, [a, b]), f, h, fuel, k) ==
        if !x.out.Came? then x
        else if !y.out.Came? then y
        else PerformIn(op, [x.out.value, y.out.value], y.heap, k)
  {
    PairRuns(a, b, f, h, fuel, k);
  }

  lemma ApplyRuns(id: nat, args: seq<Node>, tail: bool, f: Frame, h: Heap, fuel: nat, k: Linked)
    requires id in f.locals
    ensures Run(NApply(NLocal(id), args, tail), f, h, fuel, k) ==
      match RunAll(args, f, h, fuel, k)
      case Halted(o, h1) => Ran(o, h1)
      case RanAll(vs, h1) => if fuel == 0 then Ran(Spent, h1)
          else Returned(RunApply(f.locals[id], vs, h1, fuel - 1, k), tail)
  {
    PathRuns(NLocal(id), f, h, fuel, k);
  }

  lemma {:induction false} IfSame(t: Term, env: Env, scope: Paths, f: Frame, home: string, tail: bool, g: Gen,
                        s: State, h: Heap, fuel: nat, c: Setting, k: Linked)
    requires Compiles(k, c) && SameState(s, h, k, c.program) && Clean(t, env.Keys) && t.If?
    requires var r := GenExpr(t, scope, tail, home, g, c.program); r.Some? && Emits(r.value.gen, k)
    requires Sits(scope, env, Free(t), f, g, k)
    ensures Same(Eval(t, env, home, s, fuel, c),
      Run(GenExpr(t, scope, tail, home, g, c.program).value.it, f, h, fuel, k), tail, k, c.program)
    decreases fuel, t, 0
  {
    hide Numbered, SameFunction, SameState, Sits, Emits, Run, RunStmts, RunAll, GenAll, EvalAll;
    var rx := GenExpr(t.condition, scope, false, home, g, c.program).value;
    var ry := GenBody(t.yes, scope, tail, home, rx.gen, c.program).value;
    var rn := GenBody(t.no, scope, tail, home, ry.gen, c.program).value;
    EmitsLess(ry.gen, rn.gen, k);
    EmitsLess(rx.gen, ry.gen, k);
    SitsPart(scope, env, Free(t), Free(t.condition), f, g, g, k);
    SitsPart(scope, env, Free(t), FreeBody(t.yes), f, g, rx.gen, k);
    SitsPart(scope, env, Free(t), FreeBody(t.no), f, g, ry.gen, k);
    ExprSame(t.condition, env, scope, f, home, false, g, s, h, fuel, c, k);
    var e, x := Eval(t.condition, env, home, s, fuel, c), Run(rx.it, f, h, fuel, k);
    IfRuns(rx.it, ry.it, rn.it, f, h, fuel, k);
    if e.out.Val? {
      if c.machine.truth(e.out.value) {
        BodySame(t.yes, env, scope, f, home, tail, rx.gen, e.state, x.heap, fuel, c, k);
      } else {
        BodySame(t.no, env, scope, f, home, tail, ry.gen, e.state, x.heap, fuel, c, k);
      }
    }
  }

  lemma {:induction false} MatchSame(t: Term, env: Env, scope: Paths, f: Frame, home: string, tail: bool, g: Gen,
                        s: State, h: Heap, fuel: nat, c: Setting, k: Linked)
    requires Compiles(k, c) && SameState(s, h, k, c.program) && Clean(t, env.Keys) && t.Match?
    requires var r := GenExpr(t, scope, tail, home, g, c.program); r.Some? && Emits(r.value.gen, k)
    requires Sits(scope, env, Free(t), f, g, k)
    ensures Same(Eval(t, env, home, s, fuel, c),
      Run(GenExpr(t, scope, tail, home, g, c.program).value.it, f, h, fuel, k), tail, k, c.program)
    decreases fuel, t, 0
  {
    hide Numbered, SameFunction, SameState, Sits, Emits, Run, RunStmts, RunAll, RunChoice, GenAll, EvalAll, EvalArms;
    var temp := g.counter + 1;
    var ra := GenArms(t.arms, NLocal(temp), scope, tail, home, Tick(g), c.program).value;
    var rx := GenExpr(t.subject, scope, false, home, ra.gen, c.program).value;
    EmitsLess(ra.gen, rx.gen, k);
    SitsPart(scope, env, Free(t), Free(t.subject), f, g, ra.gen, k);
    ExprSame(t.subject, env, scope, f, home, false, ra.gen, s, h, fuel, c, k);
    var e, x := Eval(t.subject, env, home, s, fuel, c), Run(rx.it, f, h, fuel, k);
    BlockRuns(temp, rx.it, NChoose(ra.it), f, h, fuel, k);
    if e.out.Val? {
      var f1 := f.(locals := f.locals[temp := e.out.value]);
      SitsGrows(scope, env, Free(t), FreeArms(t.arms), f, g, e.out.value, k);
      ChooseRuns(ra.it, f1, x.heap, fuel, k);
      ArmsSame(t.arms, NLocal(temp), e.out.value, env, scope, f1, home, tail, Tick(g), e.state, x.heap, fuel, c, k);
    }
  }

  lemma {:induction false} ShortSame(t: Term, env: Env, scope: Paths, f: Frame, home: string, tail: bool, g: Gen,
                        s: State, h: Heap, fuel: nat, c: Setting, k: Linked)
    requires Compiles(k, c) && SameState(s, h, k, c.program) && Clean(t, env.Keys) && t.Binary?
      && (t.op == "and" || t.op == "or")
    requires var r := GenExpr(t, scope, tail, home, g, c.program); r.Some? && Emits(r.value.gen, k)
    requires Sits(scope, env, Free(t), f, g, k)
    ensures Same(Eval(t, env, home, s, fuel, c),
      Run(GenExpr(t, scope, tail, home, g, c.program).value.it, f, h, fuel, k), tail, k, c.program)
    decreases fuel, t, 0
  {
    hide Numbered, SameState, Run, RunAll, RunStmts, GenAll, Sits, Emits, SameFunction;
    var temp := g.counter + 1;
    var ry := GenExpr(t.right, scope, tail, home, Tick(g), c.program).value;
    var rx := GenExpr(t.left, scope, false, home, ry.gen, c.program).value;
    EmitsLess(ry.gen, rx.gen, k);
    SitsPart(scope, env, Free(t), Free(t.left), f, g, ry.gen, k);
    ExprSame(t.left, env, scope, f, home, false, ry.gen, s, h, fuel, c, k);
    var e, x := Eval(t.left, env, home, s, fuel, c), Run(rx.it, f, h, fuel, k);
    var right, left := [SValue(ry.it)], [SValue(NLocal(temp))];
    var choice := if t.op == "and" then NIf(NLocal(temp), right, left) else NIf(NLocal(temp), left, right);
    BlockRuns(temp, rx.it, choice, f, h, fuel, k);
    if e.out.Val? {
      var f1 := f.(locals := f.locals[temp := e.out.value]);
      SitsGrows(scope, env, Free(t), Free(t.right), f, g, e.out.value, k);
      ChoiceRuns(temp, if t.op == "and" then ry.it else NLocal(temp), if t.op == "and" then NLocal(temp) else ry.it,
          f1, x.heap, fuel, k);
      PathRuns(NLocal(temp), f1, x.heap, fuel, k);
      ExprSame(t.right, env, scope, f1, home, tail, Tick(g), e.state, x.heap, fuel, c, k);
    }
  }

  lemma {:induction false} BinarySame(t: Term, env: Env, scope: Paths, f: Frame, home: string, tail: bool, g: Gen,
                        s: State, h: Heap, fuel: nat, c: Setting, k: Linked)
    requires Compiles(k, c) && SameState(s, h, k, c.program) && Clean(t, env.Keys) && t.Binary? && t.op != "and"
      && t.op != "or"
    requires var r := GenExpr(t, scope, tail, home, g, c.program); r.Some? && Emits(r.value.gen, k)
    requires Sits(scope, env, Free(t), f, g, k)
    ensures Same(Eval(t, env, home, s, fuel, c),
      Run(GenExpr(t, scope, tail, home, g, c.program).value.it, f, h, fuel, k), tail, k, c.program)
    decreases fuel, t, 0
  {
    hide Numbered, RunStmts, EvalBody, GenBody;
    var rx := GenExpr(t.left, scope, false, home, g, c.program).value;
    var ry := GenExpr(t.right, scope, false, home, rx.gen, c.program).value;
    EmitsLess(rx.gen, ry.gen, k);
    ExprSame(t.left, env, scope, f, home, false, g, s, h, fuel, c, k);
    var e, x := Eval(t.left, env, home, s, fuel, c), Run(rx.it, f, h, fuel, k);
    if e.out.Val? {
      ExprSame(t.right, env, scope, f, home, false, rx.gen, e.state, x.heap, fuel, c, k);
    }
    if e.out.Val? && Eval(t.right, env, home, e.state, fuel, c).out.Val? {
      var e2, x2 := Eval(t.right, env, home, e.state, fuel, c), Run(ry.it, f, x.heap, fuel, k);
      OperatorRuns(t.op, e.out.value, e2.out.value, e2.state.world, c.machine);
    }
  }

  lemma {:induction false} FieldSame(t: Term, env: Env, scope: Paths, f: Frame, home: string, tail: bool, g: Gen,
                        s: State, h: Heap, fuel: nat, c: Setting, k: Linked)
    requires Compiles(k, c) && SameState(s, h, k, c.program) && Clean(t, env.Keys) && t.Field?
    requires var r := GenExpr(t, scope, tail, home, g, c.program); r.Some? && Emits(r.value.gen, k)
    requires Sits(scope, env, Free(t), f, g, k)
    ensures Same(Eval(t, env, home, s, fuel, c),
      Run(GenExpr(t, scope, tail, home, g, c.program).value.it, f, h, fuel, k), tail, k, c.program)
    decreases fuel, t, 0
  {
    hide Numbered, Run, RunStmts, RunAll, GenAll, EvalAll;
    HeadsAgree(t, scope, env, home, f, k, c.program);
    match DeclaredPath(t, env.Keys, home, c.program)
    case Some(q) =>
      FunctionRuns(FunctionCode(q), [], [], f, h, fuel, k);
      SameAllocate(Declared(q), Object(FunctionCode(q), []), s, h, k, c.program);
    case None =>
      var rx := GenExpr(t.parent, scope, false, home, g, c.program).value;
      ExprSame(t.parent, env, scope, f, home, false, g, s, h, fuel, c, k);
      PerformRuns(OpGet, rx.it, NPerform(OpLiteral(Text(t.name, true)), []), f, h, fuel, k);
      PlainRuns(OpLiteral(Text(t.name, true)), f, Run(rx.it, f, h, fuel, k).heap, fuel, k);
  }

  lemma {:induction false} CallSame(t: Term, env: Env, scope: Paths, f: Frame, home: string, tail: bool, g: Gen,
                        s: State, h: Heap, fuel: nat, c: Setting, k: Linked)
    requires Compiles(k, c) && SameState(s, h, k, c.program) && Clean(t, env.Keys) && t.Call?
    requires var r := GenExpr(t, scope, tail, home, g, c.program); r.Some? && Emits(r.value.gen, k)
    requires Sits(scope, env, Free(t), f, g, k)
    ensures Same(Eval(t, env, home, s, fuel, c),
      Run(GenExpr(t, scope, tail, home, g, c.program).value.it, f, h, fuel, k), tail, k, c.program)
    decreases fuel, t, 0, 1
  {
    hide Numbered, SameFunction, SameState, Run, RunAll, Eval, EvalAll, GenAll, GenHead, HeadOf;
    HeadsAgree(t.head, scope, env, home, f, k, c.program);
    match HeadOf(t.head, env.Keys, home, c.program)
    case Constructor(q) => ConstructorSame(t, q, env, scope, f, home, tail, g, s, h, fuel, c, k);
    case Direct(code) => DirectSame(t, code, env, scope, f, home, tail, g, s, h, fuel, c, k);
    case Computed => ComputedSame(t, env, scope, f, home, tail, g, s, h, fuel, c, k);
  }

  lemma {:induction false} ConstructorSame(t: Term, q: string, env: Env, scope: Paths, f: Frame, home: string,
      tail: bool, g: Gen, s: State, h: Heap, fuel: nat, c: Setting, k: Linked)
    requires Compiles(k, c) && SameState(s, h, k, c.program) && Clean(t, env.Keys) && t.Call?
      && HeadOf(t.head, env.Keys, home, c.program) == Constructor(q) == HeadOf(t.head, scope.Keys, home, c.program)
    requires var r := GenExpr(t, scope, tail, home, g, c.program); r.Some? && Emits(r.value.gen, k)
    requires Sits(scope, env, Free(t), f, g, k)
    ensures Same(Eval(t, env, home, s, fuel, c),
      Run(GenExpr(t, scope, tail, home, g, c.program).value.it, f, h, fuel, k), tail, k, c.program)
    decreases fuel, t, 0, 0
  {
    hide Numbered, SameFunction, EvalAll, RunAll, GenAll;
    AllSame(t.args, env, scope, f, home, g, s, h, fuel, c, k);
  }

  lemma {:induction false} DirectSame(t: Term, code: Closure, env: Env, scope: Paths, f: Frame, home: string,
      tail: bool, g: Gen, s: State, h: Heap, fuel: nat, c: Setting, k: Linked)
    requires Compiles(k, c) && SameState(s, h, k, c.program) && Clean(t, env.Keys) && t.Call?
      && HeadOf(t.head, env.Keys, home, c.program) == Direct(code) == HeadOf(t.head, scope.Keys, home, c.program)
    requires var r := GenExpr(t, scope, tail, home, g, c.program); r.Some? && Emits(r.value.gen, k)
    requires Sits(scope, env, Free(t), f, g, k)
    ensures Same(Eval(t, env, home, s, fuel, c),
      Run(GenExpr(t, scope, tail, home, g, c.program).value.it, f, h, fuel, k), tail, k, c.program)
    decreases fuel, t, 0, 0
  {
    hide Numbered, SameState, Run, RunStmts, RunCode, Enter, Compiles, GenAll, EvalAll;
    var r := GenAll(t.args, scope, home, g, c.program).value;
    AllSame(t.args, env, scope, f, home, g, s, h, fuel, c, k);
    var e, x := EvalAll(t.args, env, home, s, fuel, c), RunAll(r.it, f, h, fuel, k);
    CallRuns(CodeOf(code), r.it, tail, f, h, fuel, k);
    if e.Vals? && fuel > 0 {
      EnterSame(code, Object(CodeOf(code), []), e.values, e.state, x.heap, fuel - 1, c, k);
    }
  }

  lemma {:induction false} ComputedSame(t: Term, env: Env, scope: Paths, f: Frame, home: string, tail: bool, g: Gen,
                        s: State, h: Heap, fuel: nat, c: Setting, k: Linked)
    requires Compiles(k, c) && SameState(s, h, k, c.program) && Clean(t, env.Keys) && t.Call?
      && HeadOf(t.head, env.Keys, home, c.program) == Computed == HeadOf(t.head, scope.Keys, home, c.program)
    requires var r := GenExpr(t, scope, tail, home, g, c.program); r.Some? && Emits(r.value.gen, k)
    requires Sits(scope, env, Free(t), f, g, k)
    ensures Same(Eval(t, env, home, s, fuel, c),
      Run(GenExpr(t, scope, tail, home, g, c.program).value.it, f, h, fuel, k), tail, k, c.program)
    decreases fuel, t, 0, 0
  {
    hide Numbered, SameState, SameFunction, Run, RunStmts, RunAll, GenAll, EvalAll, RunApply, Apply;
    var rf := GenHead(t.head, scope, home, g, c.program).value;
    var temp := rf.gen.counter + 1;
    var ra := GenAll(t.args, scope, home, Tick(rf.gen), c.program).value;
    EmitsLess(rf.gen, ra.gen, k);
    HeadSame(t.head, env, scope, f, home, g, s, h, fuel, c, k);
    var e, x := EvalHead(t.head, env, home, s, fuel, c), Run(rf.it, f, h, fuel, k);
    var apply := NApply(NLocal(temp), ra.it, tail);
    BlockRuns(temp, rf.it, apply, f, h, fuel, k);
    if e.out.Val? {
      var v := e.out.value;
      var f1 := f.(locals := f.locals[temp := v]);
      StandsGrows(scope, env, f, temp, v, k);
      ApplyRuns(temp, ra.it, tail, f1, x.heap, fuel, k);
      AllSame(t.args, env, scope, f1, home, Tick(rf.gen), e.state, x.heap, fuel, c, k);
      var ea, xa := EvalAll(t.args, env, home, e.state, fuel, c), RunAll(ra.it, f1, x.heap, fuel, k);
      if ea.Vals? && fuel > 0 {
        ApplySame(v, ea.values, ea.state, xa.heap, fuel - 1, c, k);
      }
    }
  }

  lemma {:induction false} MapSame(t: Term, env: Env, scope: Paths, f: Frame, home: string, tail: bool, g: Gen,
                        s: State, h: Heap, fuel: nat, c: Setting, k: Linked)
    requires Compiles(k, c) && SameState(s, h, k, c.program) && Clean(t, env.Keys) && t.MapLit?
    requires var r := GenExpr(t, scope, tail, home, g, c.program); r.Some? && Emits(r.value.gen, k)
    requires Sits(scope, env, Free(t), f, g, k)
    ensures Same(Eval(t, env, home, s, fuel, c),
      Run(GenExpr(t, scope, tail, home, g, c.program).value.it, f, h, fuel, k), tail, k, c.program)
    decreases fuel, t, 0
  {
    hide Numbered, SameFunction, EvalEntries, RunStmts, RunAll, GenAll, EvalAll;
    var temp := g.counter + 1;
    var r := GenEntries(t.entries, temp, scope, home, Tick(g), c.program).value;
    BindRuns(temp, NPerform(OpEmptyMap, []), r.it, f, h, fuel, k);
    PlainRuns(OpEmptyMap, f, h, fuel, k);
    var e, x := Perform(OpEmptyMap, [], s, c), Run(NPerform(OpEmptyMap, []), f, h, fuel, k);
    if e.out.Val? {
      var f1 := f.(locals := f.locals[temp := e.out.value]);
      StandsGrows(scope, env, f, temp, e.out.value, k);
      EntriesSame(t.entries, e.out.value, temp, env, scope, f1, home, Tick(g), e.state, x.heap, fuel, c, k);
    }
  }

  lemma {:induction false} HeadSame(t: Term, env: Env, scope: Paths, f: Frame, home: string, g: Gen,
                        s: State, h: Heap, fuel: nat, c: Setting, k: Linked)
    requires Compiles(k, c) && SameState(s, h, k, c.program) && Clean(t, env.Keys)
    requires var r := GenHead(t, scope, home, g, c.program); r.Some? && Emits(r.value.gen, k)
    requires Sits(scope, env, Free(t), f, g, k)
    ensures Same(EvalHead(t, env, home, s, fuel, c),
      Run(GenHead(t, scope, home, g, c.program).value.it, f, h, fuel, k), false, k, c.program)
    decreases fuel, t, 2
  {
    if t.Field? {
      var r := GenExpr(t.parent, scope, false, home, g, c.program).value;
      ExprSame(t.parent, env, scope, f, home, false, g, s, h, fuel, c, k);
      OneRuns(r.it, f, h, fuel, k);
    } else {
      ExprSame(t, env, scope, f, home, false, g, s, h, fuel, c, k);
    }
  }

  lemma {:induction false} AllSame(ts: seq<Term>, env: Env, scope: Paths, f: Frame, home: string, g: Gen,
                        s: State, h: Heap, fuel: nat, c: Setting, k: Linked)
    requires Compiles(k, c) && SameState(s, h, k, c.program) && CleanAll(ts, env.Keys)
    requires var r := GenAll(ts, scope, home, g, c.program); r.Some? && Emits(r.value.gen, k)
    requires Sits(scope, env, FreeAll(ts), f, g, k)
    ensures SameAll(EvalAll(ts, env, home, s, fuel, c),
      RunAll(GenAll(ts, scope, home, g, c.program).value.it, f, h, fuel, k), k, c.program)
    decreases fuel, ts
  {
    hide Numbered;
    if ts != [] {
      var r := GenExpr(ts[0], scope, false, home, g, c.program).value;
      var rs := GenAll(ts[1..], scope, home, r.gen, c.program).value;
      EmitsLess(r.gen, rs.gen, k);
      ExprSame(ts[0], env, scope, f, home, false, g, s, h, fuel, c, k);
      var e, x := Eval(ts[0], env, home, s, fuel, c), Run(r.it, f, h, fuel, k);
      assert ([r.it] + rs.it)[1..] == rs.it;
      if e.out.Val? {
        AllSame(ts[1..], env, scope, f, home, r.gen, e.state, x.heap, fuel, c, k);
      }
    }
  }

  lemma {:induction false} EntriesSame(es: seq<Entry>, m: Value, last: nat, env: Env, scope: Paths, f: Frame,
      home: string, g: Gen, s: State, h: Heap, fuel: nat, c: Setting, k: Linked)
    requires Compiles(k, c) && SameState(s, h, k, c.program) && CleanEntries(es, env.Keys)
    requires var r := GenEntries(es, last, scope, home, g, c.program); r.Some? && Emits(r.value.gen, k)
    requires Sits(scope, env, FreeEntries(es), f, g, k) && last in f.locals && f.locals[last] == m
    ensures Same(EvalEntries(es, m, env, home, s, fuel, c),
      RunStmts(GenEntries(es, last, scope, home, g, c.program).value.it, f, h, fuel, k), false, k, c.program)
    decreases fuel, es
  {
    hide Numbered, Eval, Run, GenExpr, RunAll, Clean, Free, SameFunction;
    if es == [] {
      ValueRuns(NLocal(last), f, h, fuel, k);
      PathRuns(NLocal(last), f, h, fuel, k);
    } else {
      var a := es[0];
      assert a.key < a && a.value < a;
      var next := g.counter + 1;
      var rk := GenExpr(a.key, scope, false, home, Tick(g), c.program).value;
      var rv := GenExpr(a.value, scope, false, home, rk.gen, c.program).value;
      var rs := GenEntries(es[1..], next, scope, home, rv.gen, c.program).value;
      EmitsLess(rv.gen, rs.gen, k);
      EmitsLess(rk.gen, rv.gen, k);
      var node := NPerform(OpAssoc, [NLocal(last), rk.it, rv.it]);
      BindRuns(next, node, rs.it, f, h, fuel, k);
      AssocRuns(last, m, rk.it, rv.it, f, h, fuel, k);
      ExprSame(a.key, env, scope, f, home, false, Tick(g), s, h, fuel, c, k);
      var ek, xk := Eval(a.key, env, home, s, fuel, c), Run(rk.it, f, h, fuel, k);
      if ek.out.Val? {
        ExprSame(a.value, env, scope, f, home, false, rk.gen, ek.state, xk.heap, fuel, c, k);
        var ev, xv := Eval(a.value, env, home, ek.state, fuel, c), Run(rv.it, f, xk.heap, fuel, k);
        if ev.out.Val? {
          var e, x := Perform(OpAssoc, [m, ek.out.value, ev.out.value], ev.state, c), Run(node, f, h, fuel, k);
          if e.out.Val? {
            StandsGrows(scope, env, f, next, e.out.value, k);
            EntriesSame(es[1..], e.out.value, next, env, scope, f.(locals := f.locals[next := e.out.value]), home,
                rv.gen,
                        e.state, x.heap, fuel, c, k);
          }
        }
      }
    }
  }

  lemma {:induction false} ArmsSame(arms: seq<Arm>, n: Node, v: Value, env: Env, scope: Paths, f: Frame, home: string,
      tail: bool, g: Gen, s: State, h: Heap, fuel: nat, c: Setting, k: Linked)
    requires Compiles(k, c) && SameState(s, h, k, c.program) && CleanArms(arms, env.Keys)
    requires var r := GenArms(arms, n, scope, tail, home, g, c.program); r.Some? && Emits(r.value.gen, k)
    requires Sits(scope, env, FreeArms(arms), f, g, k) && PathValue(n, f, k) == Some(v)
    ensures Same(EvalArms(arms, v, env, home, s, fuel, c),
      RunChoice(GenArms(arms, n, scope, tail, home, g, c.program).value.it, f, h, fuel, k), tail, k, c.program)
    decreases fuel, arms
  {
    hide Numbered;
    if arms != [] {
      var (test, inner) := GenPattern(arms[0].pattern, n, scope, home, c.program).value;
      var r := GenBody(arms[0].body, inner, tail, home, g, c.program).value;
      var rs := GenArms(arms[1..], n, scope, tail, home, r.gen, c.program).value;
      EmitsLess(r.gen, rs.gen, k);
      assert ([Choice(test, r.it)] + rs.it)[1..] == rs.it;
      PatternSame(arms[0].pattern, n, v, scope, env, home, f, c, k);
      PatternScope(arms[0].pattern, n, scope, home, c.program);
      PatternEnv(arms[0].pattern, v, env, c);
      if Matches(arms[0].pattern, v, home, c) {
        BodySame(arms[0].body, WithPattern(env, arms[0].pattern, v, c), inner, f, home, tail, g, s, h, fuel, c, k);
      } else {
        ArmsSame(arms[1..], n, v, env, scope, f, home, tail, r.gen, s, h, fuel, c, k);
      }
    }
  }

  lemma {:induction false} BodySame(body: seq<Term>, env: Env, scope: Paths, f: Frame, home: string, tail: bool, g: Gen,
                        s: State, h: Heap, fuel: nat, c: Setting, k: Linked)
    requires Compiles(k, c) && SameState(s, h, k, c.program) && CleanBody(body, env.Keys)
    requires var r := GenBody(body, scope, tail, home, g, c.program); r.Some? && Emits(r.value.gen, k)
    requires Sits(scope, env, FreeBody(body), f, g, k)
    ensures Same(EvalBody(body, env, home, s, fuel, c),
      RunStmts(GenBody(body, scope, tail, home, g, c.program).value.it, f, h, fuel, k), tail, k, c.program)
    decreases fuel, body, 1
  {
    hide Numbered;
    if body == [] {
    } else if body[0].Bind? {
      LetSame(body, env, scope, f, home, tail, g, s, h, fuel, c, k);
    } else {
      var r := GenExpr(body[0], scope, tail && |body| == 1, home, g, c.program).value;
      if |body| == 1 {
        ExprSame(body[0], env, scope, f, home, tail, g, s, h, fuel, c, k);
      } else {
        var rs := GenBody(body[1..], scope, tail, home, r.gen, c.program).value;
        EmitsLess(r.gen, rs.gen, k);
        ExprSame(body[0], env, scope, f, home, false, g, s, h, fuel, c, k);
        var e, x := Eval(body[0], env, home, s, fuel, c), Run(r.it, f, h, fuel, k);
        assert ([SDrop(r.it)] + rs.it)[1..] == rs.it;
        if e.out.Val? {
          BodySame(body[1..], env, scope, f, home, tail, r.gen, e.state, x.heap, fuel, c, k);
        }
      }
    }
  }

  lemma {:induction false} LetSame(body: seq<Term>, env: Env, scope: Paths, f: Frame, home: string, tail: bool, g: Gen,
                        s: State, h: Heap, fuel: nat, c: Setting, k: Linked)
    requires Compiles(k, c) && SameState(s, h, k, c.program) && CleanBody(body, env.Keys) && body != [] && body[0].Bind?
    requires var r := GenBody(body, scope, tail, home, g, c.program); r.Some? && Emits(r.value.gen, k)
    requires Sits(scope, env, FreeBody(body), f, g, k)
    ensures Same(EvalBody(body, env, home, s, fuel, c),
      RunStmts(GenBody(body, scope, tail, home, g, c.program).value.it, f, h, fuel, k), tail, k, c.program)
    decreases fuel, body, 0
  {
    hide Numbered, SameState, SameFunction, Emits, Run, RunAll, GenAll, Eval, GenExpr, WithNames, GenNames;
    var t := body[0];
    assert t.value < t;
    var temp := g.counter + 1;
    var r := GenExpr(t.value, scope, false, home, Tick(g), c.program).value;
    var (parts, scope1, g1) := GenNames(t.names, temp, scope, r.gen);
    var rest := if |body| == 1 then [SValue(NNull)] else GenBody(body[1..], scope1, tail, home, g1, c.program).value.it;
    if |body| > 1 { EmitsLess(g1, GenBody(body[1..], scope1, tail, home, g1, c.program).value.gen, k); }
    EmitsLess(r.gen, g1, k);
    assert Free(t) == Free(t.value) && Clean(t, env.Keys) == Clean(t.value, env.Keys);
    ExprSame(t.value, env, scope, f, home, false, Tick(g), s, h, fuel, c, k);
    var e, x := Eval(t.value, env, home, s, fuel, c), Run(r.it, f, h, fuel, k);
    assert [SBind(temp, r.it)] + parts + rest == [SBind(temp, r.it)] + (parts + rest);
    BindRuns(temp, r.it, parts + rest, f, h, fuel, k);
    if e.out.Val? {
      var v := e.out.value;
      var f1 := f.(locals := f.locals[temp := v]);
      StandsGrows(scope, env, f, temp, v, k);
      var f2, h2 := NamesSame(t.names, temp, v, rest, scope, env, f1, r.gen, e.state, x.heap, fuel, c, k);
      if WithNames(env, t.names, v, e.state, c).Bound? && |body| > 1 {
        var w := WithNames(env, t.names, v, e.state, c);
        BodySame(body[1..], w.env, scope1, f2, home, tail, g1, w.state, h2, fuel, c, k);
      }
      NullRuns(f2, h2, fuel, k);
    }
  }

  // ------------------------------------------------------------------- calls

  /** A body with its parameters bound. */
  lemma {:induction false} FunctionSame(d: Decl, params: seq<string>, body: seq<Term>, scope: Paths, env: Env,
      home: string, g: Gen, captured: seq<Value>, args: seq<Value>, s: State, h: Heap, fuel: nat, c: Setting, k: Linked)
    requires Compiles(k, c) && SameState(s, h, k, c.program) && |params| == |args|
    requires Emitted(d, params, body, scope, home, g, k, c.program) && CleanBody(body, env.Keys + Names(params))
    requires Stands(scope, env, Frame(map[], captured, args), k) && Covers(scope, env, FreeBody(body) - Names(params))
    ensures Same(EvalBody(body, WithParams(env, params, args), home, s, fuel, c),
                 RunStmts(d.stmts, Frame(map[], captured, args), h, fuel, k), true, k, c.program)
    decreases fuel, body, 2
  {
    hide Numbered;
    var f := Frame(map[], captured, args);
    var (prefix, scope1, g1) := GenParams(params, 0, scope, g);
    var r := GenBody(body, scope1, true, home, g1, c.program).value;
    var f1 := ParamsSame(params, 0, r.it, scope, env, f, h, fuel, g, k);
    assert args[0..] == args;
    BodySame(body, WithParams(env, params, args), scope1, f1, home, true, g1, s, h, fuel, c, k);
  }

  lemma EmittedArity(d: Decl, params: seq<string>, body: seq<Term>, scope: Paths, home: string, g: Gen, k: Linked,
      p: Program)
    requires Emitted(d, params, body, scope, home, g, k, p)
    ensures d.arity == |params|
  {}

  /** A lambda finds what it captured, and that is all its body needs. */
  lemma CapturesStand(params: seq<string>, body: seq<Term>, env: Env, captures: seq<string>, captured: seq<Value>,
      args: seq<Value>, k: Linked)
    requires CapturedRight(params, body, env, captures, captured)
    ensures Stands(InnerScope(captures), env, Frame(map[], captured, args), k)
    ensures Covers(InnerScope(captures), env, FreeBody(body) - Names(params))
  {
    forall s | s in FreeBody(body) - Names(params) && s in env ensures s in InnerScope(captures) {
      assert s in Needed(params, body, env.Keys);
    }
  }

  /** Calls of the same function with the same arguments come to the same. */
  lemma {:induction false} EnterSame(cl: Closure, o: Object, args: seq<Value>, s: State, h: Heap, fuel: nat,
      c: Setting, k: Linked)
    requires Compiles(k, c) && SameState(s, h, k, c.program) && SameFunction(cl, o, k, c.program)
    ensures Same(Enter(cl, args, s, fuel, c), RunCode(o, args, h, fuel, k), false, k, c.program)
    decreases fuel
  {
    hide Numbered, Emitted, Run, RunStmts, RunBuiltin, EvalBody, Consult, CapturedRight, CleanBody;
    match cl
    case Builtin(name) => if fuel > 0 { ConsultSame(name, args, s, h, fuel - 1, c, k); }
    case Declared(q) =>
      var fn := c.program.functions[q];
      var g :| Declares(q, g, k, c);
      EmittedArity(k.functions[q], fn.params, fn.body, map[], fn.home, g, k, c.program);
      var empty: Env := map[];
      assert empty.Keys + Names(fn.params) == Names(fn.params);
      if |fn.params| == |args| {
        FunctionSame(k.functions[q], fn.params, fn.body, map[], empty, fn.home, g, o.captured, args, s, h, fuel, c, k);
      }
    case Made(params, body, env, home) =>
      var captures, g :| Emitted(k.lambdas[o.code.id], params, body, InnerScope(captures), home, g, k, c.program)
                         && CapturedRight(params, body, env, captures, o.captured);
      EmittedArity(k.lambdas[o.code.id], params, body, InnerScope(captures), home, g, k, c.program);
      CapturesStand(params, body, env, captures, o.captured, args, k);
      if |params| == |args| {
        FunctionSame(k.lambdas[o.code.id], params, body, InnerScope(captures), env, home, g, o.captured, args, s, h,
            fuel, c, k);
      }
  }

  lemma {:induction false} ApplySame(v: Value, args: seq<Value>, s: State, h: Heap, fuel: nat, c: Setting, k: Linked)
    requires Compiles(k, c) && SameState(s, h, k, c.program)
    ensures Same(Apply(v, args, s, fuel, c), RunApply(v, args, h, fuel, k), false, k, c.program)
    decreases fuel
  {
    if v.Fun? && v.address < |s.closures| && fuel > 0 {
      EnterSame(s.closures[v.address], h.objects[v.address], args, s, h, fuel - 1, c, k);
    }
  }

  /** What the runtime does for the number of a builtin is what its name means. */
  lemma {:induction false} ConsultSame(name: string, args: seq<Value>, s: State, h: Heap, fuel: nat, c: Setting,
      k: Linked)
    requires Compiles(k, c) && SameState(s, h, k, c.program) && BuiltinId(name).Some?
    ensures Same(Consult(name, args, s, fuel, c), RunBuiltin(BuiltinId(name).value, args, h, fuel, k), false, k,
      c.program)
    decreases fuel
  {
    hide RoutineOf, RoutineNamed, BuiltinId;
    BuiltinRuns(name);
    RoutinesNumbered(BuiltinId(name).value);
    var w := c.machine.tick(s.world).1;
    var s1, h1 := s.(world := w), h.(world := w);
    match RoutineNamed(name).value
    case Map => if |args| == 2 { CollectSame(true, args, s1, h1, fuel, c, k); }
    case Filter => if |args| == 2 { CollectSame(false, args, s1, h1, fuel, c, k); }
    case Reduce =>
      if |args| == 3 && c.machine.elements(args[2], w).0.Some? {
        var (items, w2) := c.machine.elements(args[2], w);
        assert items.value[0..] == items.value;
        ReduceSame(args[0], items.value, 0, args[1], s.(world := w2), h.(world := w2), fuel, c, k);
      }
    case _ =>
  }

  lemma RoutinesNumbered(id: nat)
    ensures RoutineOf(id) == Some(Map) <==> id == 7
    ensures RoutineOf(id) == Some(Filter) <==> id == 8
    ensures RoutineOf(id) == Some(Reduce) <==> id == 9
  {}

  lemma {:induction false} CollectSame(all: bool, args: seq<Value>, s: State, h: Heap, fuel: nat, c: Setting, k: Linked)
    requires Compiles(k, c) && SameState(s, h, k, c.program) && |args| == 2
    ensures var (src, w) := c.machine.elements(args[1], h.world);
      var r := PerformIn(OpVector, [], h.(world := w), k);
      Same(Collect(all, args[0], args[1], s, fuel, c),
           if src.None? then Ran(Broke, h.(world := w)) else if !r.out.Came? then r
           else RunCollect(if all then 7 else 8, args[0], src.value, 0, r.out.value, r.heap, fuel, k), false, k,
             c.program)
    decreases fuel, 1
  {
    var (src, w) := c.machine.elements(args[1], h.world);
    if src.Some? {
      var r := Perform(OpVector, [], s.(world := w), c);
      var x := PerformIn(OpVector, [], h.(world := w), k);
      assert src.value[0..] == src.value;
      if r.out.Val? {
        if all { MapSameOver(args[0], src.value, 0, r.out.value, r.state, x.heap, fuel, c, k); }
        else { FilterSame(args[0], src.value, 0, r.out.value, r.state, x.heap, fuel, c, k); }
      }
    }
  }

  lemma {:induction false} MapSameOver(f: Value, src: seq<Value>, i: nat, out: Value, s: State, h: Heap, fuel: nat,
      c: Setting, k: Linked)
    requires Compiles(k, c) && SameState(s, h, k, c.program) && i <= |src|
    ensures Same(MapOver(f, src[i..], out, s, fuel, c), RunCollect(7, f, src, i, out, h, fuel, k), false, k, c.program)
    decreases fuel, 0, |src| - i
  {
    hide CallOn, RunCallOn;
    if i < |src| {
      CallSameOn(f, [src[i]], s, h, fuel, c, k);
      var r, x := CallOn(f, [src[i]], s, fuel, c), RunCallOn(f, [src[i]], h, fuel, k);
      if r.out.Val? {
        var more, xm := Perform(OpConj, [out, r.out.value], r.state, c), PerformIn(OpConj, [out, r.out.value],
          x.heap, k);
        if more.out.Val? { MapSameOver(f, src, i + 1, more.out.value, more.state, xm.heap, fuel, c, k); }
      }
    }
  }

  lemma {:induction false} FilterSame(f: Value, src: seq<Value>, i: nat, out: Value, s: State, h: Heap, fuel: nat,
      c: Setting, k: Linked)
    requires Compiles(k, c) && SameState(s, h, k, c.program) && i <= |src|
    ensures Same(FilterOver(f, src[i..], out, s, fuel, c), RunCollect(8, f, src, i, out, h, fuel, k), false, k,
      c.program)
    decreases fuel, 0, |src| - i
  {
    hide CallOn, RunCallOn;
    if i < |src| {
      CallSameOn(f, [src[i]], s, h, fuel, c, k);
      var r, x := CallOn(f, [src[i]], s, fuel, c), RunCallOn(f, [src[i]], h, fuel, k);
      if r.out.Val? {
        if c.machine.truth(r.out.value) {
          var more, xm := Perform(OpConj, [out, src[i]], r.state, c), PerformIn(OpConj, [out, src[i]], x.heap, k);
          if more.out.Val? { FilterSame(f, src, i + 1, more.out.value, more.state, xm.heap, fuel, c, k); }
        } else {
          FilterSame(f, src, i + 1, out, r.state, x.heap, fuel, c, k);
        }
      }
    }
  }

  lemma {:induction false} ReduceSame(f: Value, src: seq<Value>, i: nat, out: Value, s: State, h: Heap, fuel: nat,
      c: Setting, k: Linked)
    requires Compiles(k, c) && SameState(s, h, k, c.program) && i <= |src|
    ensures Same(ReduceOver(f, src[i..], out, s, fuel, c), RunReduce(f, src, i, out, h, fuel, k), false, k, c.program)
    decreases fuel, 0, |src| - i
  {
    hide CallOn, RunCallOn;
    if i < |src| {
      CallSameOn(f, [out, src[i]], s, h, fuel, c, k);
      var r, x := CallOn(f, [out, src[i]], s, fuel, c), RunCallOn(f, [out, src[i]], h, fuel, k);
      if r.out.Val? { ReduceSame(f, src, i + 1, r.out.value, r.state, x.heap, fuel, c, k); }
    }
  }

  lemma {:induction false} CallSameOn(f: Value, args: seq<Value>, s: State, h: Heap, fuel: nat, c: Setting, k: Linked)
    requires Compiles(k, c) && SameState(s, h, k, c.program)
    ensures Same(CallOn(f, args, s, fuel, c), RunCallOn(f, args, h, fuel, k), false, k, c.program)
    decreases fuel, 0, 0
  {
    var a, xa := Perform(OpArray(|args|), [], s, c), PerformIn(OpArray(|args|), [], h, k);
    if a.out.Val? {
      var e, xe := Perform(OpEnter, [], a.state, c), PerformIn(OpEnter, [], xa.heap, k);
      if e.out.Val? && fuel > 0 { ApplySame(f, args, e.state, xe.heap, fuel - 1, c, k); }
    }
  }
}
