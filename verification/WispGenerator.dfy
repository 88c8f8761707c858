// The generator as it runs: a counter and a list of declarations that its methods
// update, and tables of names that `referenced` fills. Each method is proved to do
// what the function of the same name says.
module WispGenerator {
  import opened Outcomes
  import opened WispTerm
  import opened WispOperators
  import opened WispMachine
  import C = WispCode
  import P = WispProgram

  // ------------------------------------------------------------- referenced

  method Referenced(t: Term, bound: set<string>, names: set<string>) returns (out: set<string>)
    ensures out == names + Refs(t, bound)
    decreases t, 0
  {
    out := names;
    match t
    case Name(s) => if s !in bound { out := out + {s}; }
    case Call(f, args) =>
      out := Referenced(f, bound, out);
      out := ReferencedAll(args, bound, out);
    case Field(x, _) => out := Referenced(x, bound, out);
    case Binary(_, x, y) =>
      out := Referenced(x, bound, out);
      out := Referenced(y, bound, out);
    case Vector(xs) => out := ReferencedAll(xs, bound, out);
    case MapLit(es) =>
      for i := 0 to |es|
        invariant out + RefsEntries(es[i..], bound) == names + RefsEntries(es, bound)
      {
        assert es[i..][0] == es[i] && es[i..][1..] == es[i + 1..];
        var e := es[i];
        assert e.key < e && e.value < e && e < t;
        out := Referenced(e.key, bound, out);
        out := Referenced(e.value, bound, out);
      }
      assert es[|es|..] == [];
    case Lambda(params, body) =>
      var scope := bound;
      for i := 0 to |params|
        invariant scope == bound + Names(params[..i])
      {
        assert params[..i + 1] == params[..i] + [params[i]];
        scope := scope + {params[i]};
      }
      assert params[..|params|] == params;
      out := ReferencedBody(body, scope, out);
    case Bind(_, x) => out := Referenced(x, bound, out);
    case If(x, yes, no) =>
      out := Referenced(x, bound, out);
      out := ReferencedBody(yes, bound, out);
      out := ReferencedBody(no, bound, out);
    case Match(x, arms) =>
      out := Referenced(x, bound, out);
      ghost var before := out;
      for i := 0 to |arms|
        invariant out + RefsArms(arms[i..], bound) == before + RefsArms(arms, bound)
      {
        assert arms[i..][0] == arms[i] && arms[i..][1..] == arms[i + 1..];
        var a := arms[i];
        assert a.pattern < a && a < t;
        var scope := PatternNamed(a.pattern, bound);
        out := ReferencedBody(a.body, scope, out);
      }
      assert arms[|arms|..] == [];
    case _ =>
  }

  method ReferencedAll(ts: seq<Term>, bound: set<string>, names: set<string>) returns (out: set<string>)
    ensures out == names + RefsAll(ts, bound)
    decreases ts
  {
    out := names;
    for i := 0 to |ts|
      invariant out + RefsAll(ts[i..], bound) == names + RefsAll(ts, bound)
    {
      assert ts[i..][0] == ts[i] && ts[i..][1..] == ts[i + 1..];
      out := Referenced(ts[i], bound, out);
    }
    assert ts[|ts|..] == [];
  }

  method ReferencedBody(body: seq<Term>, bound: set<string>, names: set<string>) returns (out: set<string>)
    ensures out == names + RefsBody(body, bound)
    decreases body
  {
    out := names;
    var scope := bound;
    for i := 0 to |body|
      invariant out + RefsBody(body[i..], scope) == names + RefsBody(body, bound)
    {
      assert body[i..][0] == body[i] && body[i..][1..] == body[i + 1..];
      out := Referenced(body[i], scope, out);
      if body[i].Bind? { scope := scope + Names(body[i].names); }
    }
    assert body[|body|..] == [];
  }

  /** `pattern_names`. */
  method PatternNamed(p: Term, names: set<string>) returns (out: set<string>)
    ensures out == names + PatternNames(p)
    decreases p, 0
  {
    out := names;
    match p
    case Name(s) => out := out + {s};
    case Call(_, fields) => out := PatternsNamed(fields, out);
    case Vector(fields) => out := PatternsNamed(fields, out);
    case _ =>
  }

  method PatternsNamed(ps: seq<Term>, names: set<string>) returns (out: set<string>)
    ensures out == names + PatternNamesAll(ps)
    decreases ps
  {
    out := names;
    for i := 0 to |ps|
      invariant out + PatternNamesAll(ps[i..]) == names + PatternNamesAll(ps)
    {
      assert ps[i..][0] == ps[i] && ps[i..][1..] == ps[i + 1..];
      out := PatternNamed(ps[i], out);
    }
    assert ps[|ps|..] == [];
  }

  // ------------------------------------------------------------ the generator

  ghost predicate Agrees<T>(r: Option<T>, want: Option<C.Got<T>>, now: C.Gen) {
    match want
    case None => r == None
    case Some(got) => r == Some(got.it) && now == got.gen
  }

  /** What is left to do, put after what is done, is all there was to do. */
  ghost function Join<T>(done: seq<T>, rest: Option<C.Got<seq<T>>>): Option<C.Got<seq<T>>> {
    match rest
    case None => None
    case Some(r) => Some(C.Got(done + r.it, r.gen))
  }

  lemma JoinNothing<T>(rest: Option<C.Got<seq<T>>>)
    ensures Join([], rest) == rest
  {
    if rest.Some? { assert [] + rest.value.it == rest.value.it; }
  }

  lemma JoinMore<T>(done: seq<T>, more: seq<T>, rest: Option<C.Got<seq<T>>>)
    ensures Join(done, Join(more, rest)) == Join(done + more, rest)
  {
    if rest.Some? { assert done + (more + rest.value.it) == done + more + rest.value.it; }
  }

  class Generator {
    const program: Program
    var counter: nat
    var decls: seq<(nat, C.Decl)>

    ghost function Now(): C.Gen
      reads this
    {
      C.Gen(counter, decls)
    }

    constructor (program: Program)
      ensures this.program == program && Now() == C.Gen(0, [])
    {
      this.program := program;
      counter, decls := 0, [];
    }

    method Fresh() returns (id: nat)
      modifies this
      ensures id == old(counter) + 1 && Now() == C.Tick(old(Now()))
    {
      counter := counter + 1;
      id := counter;
    }

    /** Emits every function of the program. */
    method Functions(names: seq<string>) returns (r: Option<map<string, C.Decl>>)
      requires forall q | q in names :: q in program.functions
      modifies this
      ensures Agrees(r, P.GenProgram(names, program, old(Now())), Now())
    {
      hide C.Numbered;
      var named: map<string, C.Decl> := map[];
      for i := 0 to |names|
        invariant P.GenProgram(names[..i], program, old(Now())) == Some(C.Got(named, Now()))
      {
        assert names[..i + 1][..i] == names[..i];
        var fn := program.functions[names[i]];
        var d := EmitFunction(fn.params, fn.body, map[], fn.home);
        if d.None? {
          P.ProgramStops(names, i + 1, program, old(Now()));
          return None;
        }
        named := named[names[i] := d.value];
      }
      assert names[..|names|] == names;
      return Some(named);
    }

    method Lambda(params: seq<string>, body: seq<Term>, env: C.Paths, home: string) returns (r: Option<C.Node>)
      modifies this
      ensures Agrees(r, C.GenLambda(params, body, env, home, old(Now()), program), Now())
      decreases body, 2
    {
      hide C.Numbered;
      var name := Fresh();
      var used := ReferencedBody(body, Names(params), {});
      var pushed: seq<string> := [];
      var keys := env.Keys;
      while keys != {}
        invariant keys <= env.Keys
        invariant Names(pushed) == Captures(params, body, env.Keys - keys)
      {
        var key :| key in keys;
        if key in used && key !in params {
          assert Names(pushed + [key]) == Names(pushed) + {key};
          pushed := pushed + [key];
        }
        assert env.Keys - (keys - {key}) == (env.Keys - keys) + {key};
        keys := keys - {key};
      }
      assert env.Keys - {} == env.Keys;
      var captures := C.Sorted(Names(pushed));
      assert forall j | 0 <= j < |captures| :: captures[j] in Names(captures);
      var inner := C.InnerScope(captures);
      var d := EmitFunction(params, body, inner, home);
      if d.None? { return None; }
      decls := decls + [(name, d.value)];
      return Some(C.NFunction(C.LambdaCode(name), seq(|captures|, j requires 0 <= j < |captures| => env[captures[j]])));
    }

    method EmitFunction(params: seq<string>, body: seq<Term>, env: C.Paths, home: string) returns (r: Option<C.Decl>)
      modifies this
      ensures Agrees(r, C.GenFunction(params, body, env, home, old(Now()), program), Now())
      decreases body, 1
    {
      hide C.Numbered;
      ghost var all := C.GenParams(params, 0, env, Now());
      var prefix: seq<C.Stmt>, scope := [], env;
      assert params[0..] == params && [] + all.0 == all.0;
      for j := 0 to |params|
        invariant var rest := C.GenParams(params[j..], j, scope, Now());
          all == (prefix + rest.0, rest.1, rest.2)
      {
        assert params[j..][0] == params[j] && params[j..][1..] == params[j + 1..];
        var binding := Fresh();
        ghost var rest := C.GenParams(params[j + 1..], j + 1, scope[params[j] := C.NLocal(binding)], Now());
        assert prefix + ([C.SBind(binding, C.NArg(j))] + rest.0) == prefix + [C.SBind(binding, C.NArg(j))] + rest.0;
        prefix := prefix + [C.SBind(binding, C.NArg(j))];
        scope := scope[params[j] := C.NLocal(binding)];
      }
      assert params[|params|..] == [] && prefix + [] == prefix;
      var stmts := Body(body, scope, true, home);
      if stmts.None? { return None; }
      return Some(C.Decl(|params|, prefix + stmts.value));
    }

    method Body(body: seq<Term>, env: C.Paths, tail: bool, home: string) returns (r: Option<seq<C.Stmt>>)
      modifies this
      ensures Agrees(r, C.GenBody(body, env, tail, home, old(Now()), program), Now())
      decreases body, 0
    {
      hide C.GenExpr, C.GenNames, C.Numbered;
      ghost var all := C.GenBody(body, env, tail, home, Now(), program);
      var out: seq<C.Stmt>, scope := [], env;
      assert body[0..] == body;
      JoinNothing(all);
      for j := 0 to |body|
        invariant all == Join(out, C.GenBody(body[j..], scope, tail, home, Now(), program))
      {
        assert body[j..][0] == body[j] && body[j..][1..] == body[j + 1..];
        var last := j == |body| - 1;
        assert |body[j..]| == 1 <==> last;
        ghost var was := C.GenBody(body[j..], scope, tail, home, Now(), program);
        if body[j].Bind? {
          var t := body[j];
          assert t.value < t;
          var temp := Fresh();
          var value := Expr(t.value, scope, false, home);
          if value.None? { return None; }
          var parts;
          parts, scope := LetNames(t.names, temp, scope);
          var stmts := [C.SBind(temp, value.value)] + parts;
          if last { stmts := stmts + [C.SValue(C.NNull)]; }
          if last { assert body[j + 1..] == [] && stmts + [] == stmts; }
          assert was == Join(stmts, C.GenBody(body[j + 1..], scope, tail, home, Now(), program));
          JoinMore(out, stmts, C.GenBody(body[j + 1..], scope, tail, home, Now(), program));
          out := out + stmts;
        } else {
          var value := Expr(body[j], scope, tail && last, home);
          if value.None? { return None; }
          var stmt := if last then C.SValue(value.value) else C.SDrop(value.value);
          if last { assert body[j + 1..] == [] && [stmt] + [] == [stmt]; }
          assert was == Join([stmt], C.GenBody(body[j + 1..], scope, tail, home, Now(), program));
          JoinMore(out, [stmt], C.GenBody(body[j + 1..], scope, tail, home, Now(), program));
          out := out + [stmt];
        }
      }
      assert body[|body|..] == [] && out + [] == out;
      return Some(out);
    }

    method LetNames(names: seq<string>, value: nat, env: C.Paths) returns (stmts: seq<C.Stmt>, scope: C.Paths)
      modifies this
      ensures (stmts, scope, Now()) == C.GenNames(names, value, env, old(Now()))
    {
      stmts, scope := [], env;
      if |names| == 1 { return [], env[names[0] := C.NLocal(value)]; }
      ghost var all := C.GenParts(names, 0, value, env, Now());
      assert names[0..] == names && [] + all.0 == all.0;
      for i := 0 to |names|
        invariant var rest := C.GenParts(names[i..], i, value, scope, Now());
          all == (stmts + rest.0, rest.1, rest.2)
      {
        assert names[i..][0] == names[i] && names[i..][1..] == names[i + 1..];
        var temp := Fresh();
        var stmt := C.SBind(temp, C.NPerform(OpGetAt(i), [C.NLocal(value)]));
        ghost var rest := C.GenParts(names[i + 1..], i + 1, value, scope[names[i] := C.NLocal(temp)], Now());
        assert stmts + ([stmt] + rest.0) == stmts + [stmt] + rest.0;
        stmts := stmts + [stmt];
        scope := scope[names[i] := C.NLocal(temp)];
      }
      assert names[|names|..] == [] && stmts + [] == stmts;
    }

    method All(ts: seq<Term>, env: C.Paths, home: string) returns (r: Option<seq<C.Node>>)
      modifies this
      ensures Agrees(r, C.GenAll(ts, env, home, old(Now()), program), Now())
      decreases ts
    {
      hide C.Numbered;
      ghost var all := C.GenAll(ts, env, home, Now(), program);
      var out: seq<C.Node> := [];
      assert ts[0..] == ts;
      JoinNothing(all);
      for i := 0 to |ts|
        invariant all == Join(out, C.GenAll(ts[i..], env, home, Now(), program))
      {
        assert ts[i..][0] == ts[i] && ts[i..][1..] == ts[i + 1..];
        var node := Expr(ts[i], env, false, home);
        if node.None? { return None; }
        JoinMore(out, [node.value], C.GenAll(ts[i + 1..], env, home, Now(), program));
        out := out + [node.value];
      }
      assert ts[|ts|..] == [] && out + [] == out;
      return Some(out);
    }

    method Entries(es: seq<Entry>, first: nat, env: C.Paths, home: string) returns (r: Option<seq<C.Stmt>>)
      modifies this
      ensures Agrees(r, C.GenEntries(es, first, env, home, old(Now()), program), Now())
      decreases es
    {
      hide C.Numbered;
      ghost var all := C.GenEntries(es, first, env, home, Now(), program);
      var out: seq<C.Stmt>, last := [], first;
      assert es[0..] == es;
      JoinNothing(all);
      for i := 0 to |es|
        invariant all == Join(out, C.GenEntries(es[i..], last, env, home, Now(), program))
      {
        assert es[i..][0] == es[i] && es[i..][1..] == es[i + 1..];
        var e := es[i];
        assert e.key < e && e.value < e;
        var next := Fresh();
        var key := Expr(e.key, env, false, home);
        if key.None? { return None; }
        var value := Expr(e.value, env, false, home);
        if value.None? { return None; }
        var stmt := C.SBind(next, C.NPerform(OpAssoc, [C.NLocal(last), key.value, value.value]));
        JoinMore(out, [stmt], C.GenEntries(es[i + 1..], next, env, home, Now(), program));
        out := out + [stmt];
        last := next;
      }
      assert es[|es|..] == [] && out + [] == out;
      return Some(out + [C.SValue(C.NLocal(last))]);
    }

    method Arms(arms: seq<Arm>, value: C.Node, env: C.Paths, tail: bool, home: string)
      returns (r: Option<seq<C.Choice>>)
      modifies this
      ensures Agrees(r, C.GenArms(arms, value, env, tail, home, old(Now()), program), Now())
      decreases arms
    {
      hide C.Numbered;
      ghost var all := C.GenArms(arms, value, env, tail, home, Now(), program);
      var out: seq<C.Choice> := [];
      assert arms[0..] == arms;
      JoinNothing(all);
      for i := 0 to |arms|
        invariant all == Join(out, C.GenArms(arms[i..], value, env, tail, home, Now(), program))
      {
        assert arms[i..][0] == arms[i] && arms[i..][1..] == arms[i + 1..];
        var check := Pattern(arms[i].pattern, value, env, home);
        if check.None? { return None; }
        var body := Body(arms[i].body, check.value.1, tail, home);
        if body.None? { return None; }
        JoinMore(out, [C.Choice(check.value.0, body.value)],
            C.GenArms(arms[i + 1..], value, env, tail, home, Now(), program));
        out := out + [C.Choice(check.value.0, body.value)];
      }
      assert arms[|arms|..] == [] && out + [] == out;
      return Some(out);
    }

    method Pattern(t: Term, value: C.Node, env: C.Paths, home: string) returns (r: Option<(C.Test, C.Paths)>)
      ensures r == C.GenPattern(t, value, env, home, program)
      decreases t, 0
    {
      match t
      case Name(s) => r := if s == BLANK then Some((C.TTrue, env)) else Some((C.TTrue, env[s := value]));
      case Call(ctor, fields) =>
        if Path(ctor).None? { return None; }
        var q := Resolve(program, home, Joined(Path(ctor).value));
        if q !in program.records || |fields| != program.records[q] { return None; }
        r := Patterns(fields, true, value, C.TRecord(value, q), env, home);
      case Vector(fields) => r := Patterns(fields, false, value, C.TVector(value, |fields|), env, home);
      case Lit(l) => r := Some((C.TLiteral(value, l), env));
      case Nil => r := Some((C.TNull(value), env));
      case _ => r := None;
    }

    method Patterns(ts: seq<Term>, record: bool, value: C.Node, first: C.Test, env: C.Paths, home: string)
      returns (r: Option<(C.Test, C.Paths)>)
      ensures r == C.GenPatterns(ts, record, value, 0, first, env, home, program)
      decreases ts
    {
      var check, scope := first, env;
      for j := 0 to |ts|
        invariant C.GenPatterns(ts, record, value, 0, first, env, home, program)
               == C.GenPatterns(ts[j..], record, value, j, check, scope, home, program)
      {
        assert ts[j..][0] == ts[j] && ts[j..][1..] == ts[j + 1..];
        var item := Pattern(ts[j], C.NPart(record, value, j), scope, home);
        if item.None? { return None; }
        check, scope := C.TAnd(check, item.value.0), item.value.1;
      }
      assert ts[|ts|..] == [];
      return Some((check, scope));
    }

    method Expr(t: Term, env: C.Paths, tail: bool, home: string) returns (r: Option<C.Node>)
      modifies this
      ensures Agrees(r, C.GenExpr(t, env, tail, home, old(Now()), program), Now())
      decreases t, 0
    {
      hide C.Numbered;
      match t
      case Nil => r := Some(C.NNull);
      case Lit(l) => r := Some(C.NPerform(OpLiteral(l), []));
      case Name(name) =>
        if name in env { return Some(env[name]); }
        var f := GlobalName(name, home, program);
        r := if f.None? then None else Some(C.GenClosure(f.value));
      case Vector(xs) =>
        var items := All(xs, env, home);
        r := if items.None? then None else Some(C.NPerform(OpVector, items.value));
      case MapLit(es) =>
        var temp := Fresh();
        var stmts := Entries(es, temp, env, home);
        r := if stmts.None? then None else Some(C.NBlock([C.SBind(temp, C.NPerform(OpEmptyMap, []))] + stmts.value));
      case Lambda(params, body) => r := Lambda(params, body, env, home);
      case Bind(_, _) => r := None;
      case If(x, yes, no) =>
        var condition := Expr(x, env, false, home);
        if condition.None? { return None; }
        var left := Body(yes, env, tail, home);
        if left.None? { return None; }
        var right := Body(no, env, tail, home);
        r := if right.None? then None else Some(C.NIf(condition.value, left.value, right.value));
      case Match(x, arms) =>
        var temp := Fresh();
        var choices := Arms(arms, C.NLocal(temp), env, tail, home);
        if choices.None? { return None; }
        var subject := Expr(x, env, false, home);
        r := if subject.None? then None
            else Some(C.NBlock([C.SBind(temp, subject.value), C.SValue(C.NChoose(choices.value))]));
      case Binary(op, x, y) =>
        if op == "and" || op == "or" {
          r := Short(op, x, y, env, tail, home);
        } else {
          var left := Expr(x, env, false, home);
          if left.None? { return None; }
          var right := Expr(y, env, false, home);
          r := if right.None? then None else Some(C.NBinary(OperatorId(op), left.value, right.value));
        }
      case Field(x, name) =>
        var q := DeclaredPath(t, env.Keys, home, program);
        if q.Some? { return Some(C.GenClosure(Declared(q.value))); }
        var parent := Expr(x, env, false, home);
        r := if parent.None? then None
             else Some(C.NPerform(OpGet, [parent.value, C.NPerform(OpLiteral(Text(name, true)), [])]));
      case Call(f, xs) => r := Invocation(t, f, xs, env, tail, home);
    }

    /** `and` and `or`: the right operand is generated first, and runs last. */
    method Short(op: string, x: Term, y: Term, env: C.Paths, tail: bool, home: string) returns (r: Option<C.Node>)
      requires op == "and" || op == "or"
      modifies this
      ensures Agrees(r, C.GenExpr(Binary(op, x, y), env, tail, home, old(Now()), program), Now())
      decreases Binary(op, x, y), 0, 0
    {
      hide C.Numbered;
      ghost var t := Binary(op, x, y);
      assert x < t && y < t;
      var temp := Fresh();
      var right := Expr(y, env, tail, home);
      if right.None? { return None; }
      var left := Expr(x, env, false, home);
      if left.None? { return None; }
      var yes, no := [C.SValue(right.value)], [C.SValue(C.NLocal(temp))];
      var choice := if op == "and" then C.NIf(C.NLocal(temp), yes, no) else C.NIf(C.NLocal(temp), no, yes);
      return Some(C.NBlock([C.SBind(temp, left.value), C.SValue(choice)]));
    }

    method Invocation(ghost t: Term, f: Term, xs: seq<Term>, env: C.Paths, tail: bool, home: string)
      returns (r: Option<C.Node>)
      requires t == Term.Call(f, xs)
      modifies this
      ensures Agrees(r, C.GenExpr(t, env, tail, home, old(Now()), program), Now())
      decreases t, 0, 0
    {
      hide C.Numbered;
      match HeadOf(f, env.Keys, home, program)
      case Constructor(q) =>
        if |xs| != program.records[q] { return None; }
        var args := All(xs, env, home);
        r := if args.None? then None else Some(C.NPerform(OpRecord(q), args.value));
      case Direct(code) =>
        if code.Declared? && |xs| != |program.functions[code.name].params| { return None; }
        var args := All(xs, env, home);
        r := if args.None? then None else Some(C.NCall(C.CodeOf(code), args.value, tail));
      case Computed =>
        var callee := Head(f, env, home);
        if callee.None? { return None; }
        var temp := Fresh();
        var args := All(xs, env, home);
        r := if args.None? then None
             else Some(C.NBlock([C.SBind(temp, callee.value), C.SValue(C.NApply(C.NLocal(temp), args.value, tail))]));
    }

    method Head(f: Term, env: C.Paths, home: string) returns (r: Option<C.Node>)
      modifies this
      ensures Agrees(r, C.GenHead(f, env, home, old(Now()), program), Now())
      decreases f, 1
    {
      hide C.Numbered;
      if f.Field? {
        var parent := Expr(f.parent, env, false, home);
        r := if parent.None? then None else Some(C.NPerform(OpMember(f.name), [parent.value]));
      } else {
        r := Expr(f, env, false, home);
      }
    }
  }
}
