// Whole programs: every function of a program is emitted in turn, what is emitted
// is linked, and the linked program does what the source program means.
module WispProgram {
  import opened Outcomes
  import opened WispTerm
  import opened WispOperators
  import opened WispMachine
  import opened WispCode
  import opened WispCorrect

  /** Emits the functions `names` of a program. */
  function GenProgram(names: seq<string>, p: Program, g: Gen): (r: Option<Got<map<string, Decl>>>)
    requires forall q | q in names :: q in p.functions
    ensures Grown(g, r)
  {
    if names == [] then Some(Got(map[], g))
    else
      var last := names[|names| - 1];
      match GenProgram(names[..|names| - 1], p, g)
      case None => None
      case Some(r) =>
        var fn := p.functions[last];
        match GenFunction(fn.params, fn.body, map[], fn.home, r.gen, p)
        case None => None
        case Some(d) => Some(Got(r.it[last := d.it], d.gen))
  }

  lemma {:induction false} ProgramStops(names: seq<string>, i: nat, p: Program, g: Gen)
    requires (forall q | q in names :: q in p.functions) && i <= |names|
    requires GenProgram(names[..i], p, g).None?
    ensures GenProgram(names, p, g).None?
  {
    if i == |names| {
      assert names[..i] == names;
    } else {
      var rest := names[..|names| - 1];
      assert rest[..i] == names[..i];
      ProgramStops(rest, i, p, g);
    }
  }

  function LambdaTable(decls: seq<(nat, Decl)>): map<nat, Decl> {
    if decls == [] then map[]
    else LambdaTable(decls[..|decls| - 1])[decls[|decls| - 1].0 := decls[|decls| - 1].1]
  }

  function Link(named: map<string, Decl>, g: Gen, m: Machine): Linked {
    Linked(LambdaTable(g.decls), named, m)
  }

  ghost predicate AllDistinct(decls: seq<(nat, Decl)>) {
    forall i, j | 0 <= i < j < |decls| :: decls[i].0 != decls[j].0
  }

  /** Lambdas with different numbers do not hide one another. */
  lemma {:induction false} TableHolds(decls: seq<(nat, Decl)>)
    requires AllDistinct(decls)
    ensures forall d | d in decls :: d.0 in LambdaTable(decls) && LambdaTable(decls)[d.0] == d.1
  {
    if decls != [] {
      var rest := decls[..|decls| - 1];
      TableHolds(rest);
      forall d | d in decls ensures d.0 in LambdaTable(decls) && LambdaTable(decls)[d.0] == d.1 {
        var i :| 0 <= i < |decls| && decls[i] == d;
        if i < |decls| - 1 { assert rest[i] == d && decls[i].0 != decls[|decls| - 1].0; }
      }
    }
  }

  /** Each emitted function is there under its name, as emitted at some point. */
  lemma {:induction false} ProgramDeclares(names: seq<string>, p: Program, g: Gen, q: string, k: Linked)
    returns (at: Gen)
    requires (forall x | x in names :: x in p.functions) && q in names
    requires forall i, j | 0 <= i < j < |names| :: names[i] != names[j]
    requires var r := GenProgram(names, p, g); r.Some? && Emits(r.value.gen, k)
    ensures var named := GenProgram(names, p, g).value.it;
      var fn := p.functions[q];
      q in named && Emitted(named[q], fn.params, fn.body, map[], fn.home, at, k, p)
  {
    hide Numbered;
    var last := names[|names| - 1];
    var rest := names[..|names| - 1];
    var r := GenProgram(rest, p, g).value;
    var fn := p.functions[last];
    var d := GenFunction(fn.params, fn.body, map[], fn.home, r.gen, p).value;
    EmitsLess(r.gen, d.gen, k);
    if q == last {
      at := r.gen;
    } else {
      var i :| 0 <= i < |names| && names[i] == q;
      assert rest[i] == q;
      at := ProgramDeclares(rest, p, g, q, k);
    }
  }

  /** All that was emitted is in the linked program. */
  lemma ProgramEmits(names: seq<string>, p: Program, m: Machine)
    requires (forall q | q in names :: q in p.functions) && GenProgram(names, p, Gen(0, [])).Some?
    ensures var r := GenProgram(names, p, Gen(0, [])).value;
      Emits(r.gen, Link(r.it, r.gen, m))
  {
    TableHolds(GenProgram(names, p, Gen(0, [])).value.gen.decls);
  }

  ghost predicate NoMissedBlank(p: Program) {
    forall q | q in p.functions :: CleanBody(p.functions[q].body, Names(p.functions[q].params))
  }

  /** A program that the generator accepts, and in which no lambda misses a blank,
      is compiled faithfully. */
  lemma {:induction false} ProgramCompiles(names: seq<string>, p: Program, m: Machine)
    requires Names(names) == p.functions.Keys && NoMissedBlank(p)
    requires forall i, j | 0 <= i < j < |names| :: names[i] != names[j]
    requires forall q | q in names :: q in p.functions
    requires GenProgram(names, p, Gen(0, [])).Some?
    ensures var r := GenProgram(names, p, Gen(0, [])).value;
      Compiles(Link(r.it, r.gen, m), Setting(p, m))
  {
    var r := GenProgram(names, p, Gen(0, [])).value;
    var k, c := Link(r.it, r.gen, m), Setting(p, m);
    ProgramEmits(names, p, m);
    forall q | q in p.functions ensures exists g :: Declares(q, g, k, c) {
      assert q in Names(names);
      var g := ProgramDeclares(names, p, Gen(0, []), q, k);
      assert Declares(q, g, k, c);
    }
  }

  /** Calling a function of such a program, compiled, does what it means. */
  lemma {:induction false} CleanProgramSame(names: seq<string>, p: Program, m: Machine, q: string, args: seq<Value>,
      w: World, fuel: nat)
    requires Names(names) == p.functions.Keys && NoMissedBlank(p) && q in p.functions
    requires forall i, j | 0 <= i < j < |names| :: names[i] != names[j]
    requires forall x | x in names :: x in p.functions
    requires GenProgram(names, p, Gen(0, [])).Some?
    ensures var r := GenProgram(names, p, Gen(0, [])).value;
      var e := Enter(Declared(q), args, State([], w), fuel, Setting(p, m));
      var x := RunCode(Object(FunctionCode(q), []), args, Heap([], w), fuel, Link(r.it, r.gen, m));
      SameOut(e.out, x.out, false) && e.state.world == x.heap.world && |e.state.closures| == |x.heap.objects|
  {
    ProgramCompiles(names, p, m);
    var r := GenProgram(names, p, Gen(0, [])).value;
    EnterSame(Declared(q), Object(FunctionCode(q), []), args, State([], w), Heap([], w), fuel, Setting(p, m),
        Link(r.it, r.gen, m));
  }

  lemma BlankHasMeaning(env: Env, home: string, s: State, fuel: nat, c: Setting)
    requires "x" in env && BLANK in env
    ensures EvalBody(BLANK_BODY, env, home, s, fuel, c) == Res(Val(env[BLANK]), s)
  {
    assert EvalBody([Name(BLANK)], env, home, s, fuel, c) == Res(Val(env[BLANK]), s);
    assert EvalArms(BLANK_ARMS, env["x"], env, home, s, fuel, c) == Res(Val(env[BLANK]), s);
    assert Eval(BLANK_BODY[0], env, home, s, fuel, c) == Res(Val(env[BLANK]), s);
  }

  lemma NoSuchBuiltin()
    ensures BuiltinId(BLANK) == None
  {
    hide Position;
    assert |BLANK| == 1;
    forall i | 0 <= i < |BUILTINS| ensures |BUILTINS[i]| > 1 {}
    NotThere(BUILTINS, BLANK);
  }

  lemma {:induction false} NotThere(names: seq<string>, name: string)
    requires forall i | 0 <= i < |names| :: names[i] != name
    ensures Position(names, name) == None
  {
    if names != [] { NotThere(names[1..], name); }
  }

  // --------------------------------------------- names that cannot miss a blank

  /** No `let` and no parameter is called `_`. */
  predicate Plain(t: Term) {
    match t
    case Vector(xs) => PlainAll(xs)
    case MapLit(es) => PlainEntries(es)
    case Call(f, xs) => Plain(f) && PlainAll(xs)
    case Field(x, _) => Plain(x)
    case Binary(_, x, y) => Plain(x) && Plain(y)
    case Lambda(params, body) => BLANK !in params && PlainAll(body)
    case Bind(names, x) => BLANK !in names && Plain(x)
    case If(x, yes, no) => Plain(x) && PlainAll(yes) && PlainAll(no)
    case Match(x, arms) => Plain(x) && PlainArms(arms)
    case _ => true
  }

  predicate PlainAll(ts: seq<Term>) { ts != [] ==> Plain(ts[0]) && PlainAll(ts[1..]) }

  predicate PlainEntries(es: seq<Entry>) {
    es != [] ==>
      var e := es[0];
      assert e.key < e && e.value < e;
      Plain(e.key) && Plain(e.value) && PlainEntries(es[1..])
  }

  predicate PlainArms(arms: seq<Arm>) { arms != [] ==> PlainAll(arms[0].body) && PlainArms(arms[1..]) }

  /** In a program that never binds `_` but in patterns, no lambda misses a blank. */
  lemma {:induction false} PlainIsClean(t: Term, scope: set<string>)
    requires Plain(t) && BLANK !in scope
    ensures Clean(t, scope)
    decreases t, 0
  {
    match t
    case Vector(xs) => PlainAllClean(xs, scope);
    case MapLit(es) => PlainEntriesClean(es, scope);
    case Call(f, xs) => PlainIsClean(f, scope); PlainAllClean(xs, scope);
    case Field(x, _) => PlainIsClean(x, scope);
    case Binary(_, x, y) => PlainIsClean(x, scope); PlainIsClean(y, scope);
    case Lambda(params, body) => PlainBodyClean(body, scope + Names(params));
    case Bind(_, x) => PlainIsClean(x, scope);
    case If(x, yes, no) => PlainIsClean(x, scope); PlainBodyClean(yes, scope); PlainBodyClean(no, scope);
    case Match(x, arms) => PlainIsClean(x, scope); PlainArmsClean(arms, scope);
    case _ =>
  }

  lemma {:induction false} PlainAllClean(ts: seq<Term>, scope: set<string>)
    requires PlainAll(ts) && BLANK !in scope
    ensures CleanAll(ts, scope)
    decreases ts
  {
    if ts != [] { PlainIsClean(ts[0], scope); PlainAllClean(ts[1..], scope); }
  }

  lemma {:induction false} PlainEntriesClean(es: seq<Entry>, scope: set<string>)
    requires PlainEntries(es) && BLANK !in scope
    ensures CleanEntries(es, scope)
    decreases es
  {
    if es != [] {
      var e := es[0];
      assert e.key < e && e.value < e;
      PlainIsClean(e.key, scope);
      PlainIsClean(e.value, scope);
      PlainEntriesClean(es[1..], scope);
    }
  }

  lemma {:induction false} PlainArmsClean(arms: seq<Arm>, scope: set<string>)
    requires PlainArms(arms) && BLANK !in scope
    ensures CleanArms(arms, scope)
    decreases arms
  {
    if arms != [] {
      PatternNearly(arms[0].pattern);
      PlainBodyClean(arms[0].body, scope + PatternBinds(arms[0].pattern));
      PlainArmsClean(arms[1..], scope);
    }
  }

  lemma {:induction false} PlainBodyClean(body: seq<Term>, scope: set<string>)
    requires PlainAll(body) && BLANK !in scope
    ensures CleanBody(body, scope)
    decreases body
  {
    if body != [] {
      PlainIsClean(body[0], scope);
      PlainBodyClean(body[1..], if body[0].Bind? then scope + Names(body[0].names) else scope);
    }
  }

  /** So the compiler is faithful to every program in which `_` is only a pattern. */
  lemma PlainMissesNoBlank(p: Program)
    requires forall q | q in p.functions :: BLANK !in p.functions[q].params && PlainAll(p.functions[q].body)
    ensures NoMissedBlank(p)
  {
    forall q | q in p.functions ensures CleanBody(p.functions[q].body, Names(p.functions[q].params)) {
      PlainBodyClean(p.functions[q].body, Names(p.functions[q].params));
    }
  }

  // ----------------------------------------------------------- mangled names

  /** A name as it is written into the compiled program, after its prefix. */
  function Mangled(s: string): string {
    if s == "" then ""
    else (if s[0] == '_' then "__" else if s[0] == '.' then "_d" else [s[0]]) + Mangled(s[1..])
  }

  /** Different names are mangled differently. */
  lemma {:induction false} MangledInjective(a: string, b: string)
    requires Mangled(a) == Mangled(b)
    ensures a == b
  {
    if a == "" || b == "" {
      assert |a| > 0 ==> |Mangled(a)| > 0;
      assert |b| > 0 ==> |Mangled(b)| > 0;
    } else {
      MangledTail(a);
      MangledTail(b);
      assert a[0] == b[0];
      MangledInjective(a[1..], b[1..]);
      assert a == [a[0]] + a[1..] && b == [b[0]] + b[1..];
    }
  }

  /** The first character can be told from what it is mangled to. */
  lemma MangledTail(s: string)
    requires s != ""
    ensures var m := Mangled(s);
      && |m| > 0 && (s[0] == '_' <==> |m| > 1 && m[0] == '_' && m[1] == '_')
          && (s[0] == '.' <==> |m| > 1 && m[0] == '_' && m[1] == 'd')
      && (s[0] != '_' && s[0] != '.' ==> m[0] == s[0])
      && Mangled(s[1..]) == m[if s[0] == '_' || s[0] == '.' then 2 else 1..]
  {
    var m, rest := Mangled(s), Mangled(s[1..]);
    var head := if s[0] == '_' then "__" else if s[0] == '.' then "_d" else [s[0]];
    assert m == head + rest && m[|head|..] == rest;
  }
}
