// What a Wisp program runs on, and what lexical scope says a program means.
//
// The runtime's own operations are arbitrary functions of their arguments and of
// the state of the world. Values are the same wherever a program runs: a function
// is the number of the function object that was made for it.
module WispMachine {
  import opened Outcomes
  import opened WispTerm
  import opened WispOperators

  datatype Function = Function(params: seq<string>, body: seq<Term>, home: string)

  /** The declarations of a program. */
  datatype Program = Program(functions: map<string, Function>, records: map<string, nat>, aliases: map<string, string>)

  function Joined(parts: seq<string>): string
    requires |parts| > 0
  {
    if |parts| == 1 then parts[0] else Joined(parts[..|parts| - 1]) + "." + parts[|parts| - 1]
  }

  function Resolve(p: Program, home: string, name: string): string {
    var local := home + ":" + name;
    if local in p.aliases then p.aliases[local] else home + "." + name
  }

  // ------------------------------------------------------------ lexical scope

  type Env = map<string, Value>

  /** A function object: a lambda with the scope it was made in, or a name for a
      function of the program or of the runtime. */
  datatype Closure = Made(params: seq<string>, body: seq<Term>, env: Env, home: string) | Declared(name: string)
      | Builtin(name: string)

  datatype State = State(closures: seq<Closure>, world: World)

  datatype Out = Val(value: Value) | Fault | Timeout

  datatype Res = Res(out: Out, state: State)
  datatype Many = Vals(values: seq<Value>, state: State) | Stop(out: Out, state: State)

  /** An evaluation in a program, on a machine. */
  datatype Setting = Setting(program: Program, machine: Machine)

  function Allocate(f: Closure, s: State): Res {
    Res(Val(Fun(|s.closures|)), s.(closures := s.closures + [f]))
  }

  function Perform(op: Op, args: seq<Value>, s: State, c: Setting): Res {
    var (r, w) := c.machine.perform(op, args, s.world);
    Res(if r.Some? then Val(r.value) else Fault, s.(world := w))
  }

  function Replied(r: Reply, s: State): Res {
    Res(if r.0.Some? then Val(r.0.value) else Fault, s.(world := r.1))
  }

  /** An operation, by the name of its operator. */
  function Calculate(op: string, a: Value, b: Value, s: State, c: Setting): Res {
    Replied(Operate(OperatorNamed(op), a, b, s.world, c.machine), s)
  }

  /** A name that no scope holds. */
  function GlobalName(name: string, home: string, p: Program): Option<Closure> {
    var q := Resolve(p, home, name);
    if q in p.functions then Some(Declared(q))
    else if BuiltinId(name).Some? then Some(Builtin(name)) else None
  }

  function WithParams(env: Env, params: seq<string>, args: seq<Value>): Env
    requires |params| == |args|
    decreases params
  {
    if params == [] then env else WithParams(env[params[0] := args[0]], params[1..], args[1..])
  }

  predicate Matches(p: Term, v: Value, home: string, c: Setting)
    decreases p
  {
    match p
    case Name(_) => true
    case Call(ctor, fields) =>
      && Path(ctor).Some?
      && c.machine.isRecord(v, Resolve(c.program, home, Joined(Path(ctor).value)))
      && MatchesAll(fields, true, v, 0, home, c)
    case Vector(fields) => c.machine.isVector(v, |fields|) && MatchesAll(fields, false, v, 0, home, c)
    case Lit(l) => c.machine.isLiteral(v, l)
    case Nil => v == Null
    case _ => false
  }

  predicate MatchesAll(ps: seq<Term>, record: bool, v: Value, j: nat, home: string, c: Setting)
    decreases ps
  {
    ps != [] ==> Matches(ps[0], c.machine.part(record, v, j), home, c) && MatchesAll(ps[1..], record, v, j + 1, home, c)
  }

  function WithPattern(env: Env, p: Term, v: Value, c: Setting): Env
    decreases p
  {
    match p
    case Name(s) => if s == BLANK then env else env[s := v]
    case Call(_, fields) => WithPatterns(env, fields, true, v, 0, c)
    case Vector(fields) => WithPatterns(env, fields, false, v, 0, c)
    case _ => env
  }

  function WithPatterns(env: Env, ps: seq<Term>, record: bool, v: Value, j: nat, c: Setting): Env
    decreases ps
  {
    if ps == [] then env
    else WithPatterns(WithPattern(env, ps[0], c.machine.part(record, v, j), c), ps[1..], record, v, j + 1, c)
  }

  datatype Named = Bound(env: Env, state: State) | Unbound(out: Out, state: State)

  /** `let` of one name, or of the first values of a collection. */
  function WithNames(env: Env, names: seq<string>, v: Value, s: State, c: Setting): Named {
    if |names| == 1 then Bound(env[names[0] := v], s) else WithParts(env, names, 0, v, s, c)
  }

  function WithParts(env: Env, names: seq<string>, k: nat, v: Value, s: State, c: Setting): Named
    decreases names
  {
    if names == [] then Bound(env, s)
    else
      var r := Perform(OpGetAt(k), [v], s, c);
      if !r.out.Val? then Unbound(r.out, r.state)
      else WithParts(env[names[0] := r.out.value], names[1..], k + 1, v, r.state, c)
  }

  function Eval(t: Term, env: Env, home: string, s: State, fuel: nat, c: Setting): Res
    decreases fuel, t, 0
  {
    match t
    case Nil => Res(Val(Null), s)
    case Lit(l) => Perform(OpLiteral(l), [], s, c)
    case Name(name) =>
      if name in env then Res(Val(env[name]), s)
      else (match GlobalName(name, home, c.program) case Some(f) => Allocate(f, s) case None => Res(Fault, s))
    case Vector(xs) =>
      (match EvalAll(xs, env, home, s, fuel, c)
       case Vals(vs, s1) => Perform(OpVector, vs, s1, c)
       case Stop(o, s1) => Res(o, s1))
    case MapLit(es) =>
      var r := Perform(OpEmptyMap, [], s, c);
      if !r.out.Val? then r else EvalEntries(es, r.out.value, env, home, r.state, fuel, c)
    case Lambda(params, body) => Allocate(Made(params, body, env, home), s)
    case Bind(_, _) => Res(Fault, s)
    case If(x, yes, no) =>
      var r := Eval(x, env, home, s, fuel, c);
      if !r.out.Val? then r
      else if c.machine.truth(r.out.value) then EvalBody(yes, env, home, r.state, fuel, c)
      else EvalBody(no, env, home, r.state, fuel, c)
    case Match(x, arms) =>
      var r := Eval(x, env, home, s, fuel, c);
      if !r.out.Val? then r else EvalArms(arms, r.out.value, env, home, r.state, fuel, c)
    case Binary(op, x, y) =>
      var r := Eval(x, env, home, s, fuel, c);
      if !r.out.Val? then r
      else if op == "and" || op == "or" then
        if c.machine.truth(r.out.value) == (op == "and") then Eval(y, env, home, r.state, fuel, c) else r
      else
        var r2 := Eval(y, env, home, r.state, fuel, c);
        if !r2.out.Val? then r2 else Calculate(op, r.out.value, r2.out.value, r2.state, c)
    case Field(x, name) =>
      (match DeclaredPath(t, env.Keys, home, c.program)
       case Some(q) => Allocate(Declared(q), s)
       case None =>
         var r := Eval(x, env, home, s, fuel, c);
         if !r.out.Val? then r
         else
           var k := Perform(OpLiteral(Text(name, true)), [], r.state, c);
           if !k.out.Val? then k else Perform(OpGet, [r.out.value, k.out.value], k.state, c))
    case Call(f, xs) =>
      (match HeadOf(f, env.Keys, home, c.program)
       case Constructor(q) =>
         (match EvalAll(xs, env, home, s, fuel, c)
          case Stop(o, s1) => Res(o, s1)
          case Vals(vs, s1) => Perform(OpRecord(q), vs, s1, c))
       case Direct(code) =>
         (match EvalAll(xs, env, home, s, fuel, c)
          case Stop(o, s1) => Res(o, s1)
          case Vals(vs, s1) => if fuel == 0 then Res(Timeout, s1) else Enter(code, vs, s1, fuel - 1, c))
       case Computed =>
         var r := EvalHead(f, env, home, s, fuel, c);
         if !r.out.Val? then r
         else
           match EvalAll(xs, env, home, r.state, fuel, c)
           case Stop(o, s1) => Res(o, s1)
           case Vals(vs, s1) => if fuel == 0 then Res(Timeout, s1) else Apply(r.out.value, vs, s1, fuel - 1, c))
  }

  /** A path that names a function of the program, its first name being no local. */
  function DeclaredPath(t: Term, scope: set<string>, home: string, p: Program): Option<string> {
    if Path(t).None? || Rooted(t, scope) then None
    else
      var q := Resolve(p, home, Joined(Path(t).value));
      if q in p.functions then Some(q) else None
  }

  datatype Head = Constructor(name: string) | Direct(code: Closure) | Computed

  /** What stands at the head of a call. */
  function HeadOf(f: Term, scope: set<string>, home: string, p: Program): (h: Head)
    ensures h.Direct? ==> !h.code.Made?
  {
    if Path(f).Some? && !Rooted(f, scope) && Resolve(p, home, Joined(Path(f).value)) in p.records
    then Constructor(Resolve(p, home, Joined(Path(f).value)))
    else match DeclaredPath(f, scope, home, p)
      case Some(q) => Direct(Declared(q))
      case None =>
        if f.Name? && f.name !in scope
            && BuiltinId(f.name).Some? then Direct(Builtin(f.name)) else Computed
  }

  /** A computed head: a field at the head of a call is a member of its parent. */
  function EvalHead(f: Term, env: Env, home: string, s: State, fuel: nat, c: Setting): Res
    decreases fuel, f, 1
  {
    if f.Field? then
      var r := Eval(f.parent, env, home, s, fuel, c);
      if !r.out.Val? then r else Perform(OpMember(f.name), [r.out.value], r.state, c)
    else Eval(f, env, home, s, fuel, c)
  }

  function EvalAll(ts: seq<Term>, env: Env, home: string, s: State, fuel: nat, c: Setting): Many
    decreases fuel, ts
  {
    if ts == [] then Vals([], s)
    else
      var r := Eval(ts[0], env, home, s, fuel, c);
      if !r.out.Val? then Stop(r.out, r.state)
      else
        match EvalAll(ts[1..], env, home, r.state, fuel, c)
        case Vals(vs, s1) => Vals([r.out.value] + vs, s1)
        case Stop(o, s1) => Stop(o, s1)
  }

  function EvalEntries(es: seq<Entry>, m: Value, env: Env, home: string, s: State, fuel: nat, c: Setting): Res
    decreases fuel, es
  {
    if es == [] then Res(Val(m), s)
    else
      var e := es[0];
      assert e.key < e && e.value < e;
      var k := Eval(e.key, env, home, s, fuel, c);
      if !k.out.Val? then k
      else
        var v := Eval(e.value, env, home, k.state, fuel, c);
        if !v.out.Val? then v
        else
          var r := Perform(OpAssoc, [m, k.out.value, v.out.value], v.state, c);
          if !r.out.Val? then r else EvalEntries(es[1..], r.out.value, env, home, r.state, fuel, c)
  }

  function EvalArms(arms: seq<Arm>, v: Value, env: Env, home: string, s: State, fuel: nat, c: Setting): Res
    decreases fuel, arms
  {
    if arms == [] then Res(Fault, s)
    else if Matches(arms[0].pattern, v, home, c)
        then EvalBody(arms[0].body, WithPattern(env, arms[0].pattern, v, c), home, s, fuel, c)
    else EvalArms(arms[1..], v, env, home, s, fuel, c)
  }

  function EvalBody(body: seq<Term>, env: Env, home: string, s: State, fuel: nat, c: Setting): Res
    decreases fuel, body
  {
    if body == [] then Res(Fault, s)
    else if body[0].Bind? then
      var t := body[0];
      assert t.value < t;
      var r := Eval(t.value, env, home, s, fuel, c);
      if !r.out.Val? then r
      else
        match WithNames(env, t.names, r.out.value, r.state, c)
        case Unbound(o, s1) => Res(o, s1)
        case Bound(env1, s1) => if |body| == 1 then Res(Val(Null), s1) else EvalBody(body[1..], env1, home, s1, fuel, c)
    else
      var r := Eval(body[0], env, home, s, fuel, c);
      if |body| == 1 || !r.out.Val? then r else EvalBody(body[1..], env, home, r.state, fuel, c)
  }

  /** A call of a function object. */
  function Enter(f: Closure, args: seq<Value>, s: State, fuel: nat, c: Setting): Res
    decreases fuel
  {
    match f
    case Made(params, body, env, home) =>
      if |params| != |args| then Res(Fault, s) else EvalBody(body, WithParams(env, params, args), home, s, fuel, c)
    case Declared(q) =>
      if q !in c.program.functions then Res(Fault, s)
      else
        var g := c.program.functions[q];
        if |g.params| != |args| then Res(Fault, s)
            else EvalBody(g.body, WithParams(map[], g.params, args), g.home, s, fuel, c)
    case Builtin(name) => if fuel == 0 then Res(Timeout, s) else Consult(name, args, s, fuel - 1, c)
  }

  /** A call of any value. */
  function Apply(v: Value, args: seq<Value>, s: State, fuel: nat, c: Setting): Res
    decreases fuel
  {
    if v.Fun? && v.address < |s.closures| then
      if fuel == 0 then Res(Timeout, s) else Enter(s.closures[v.address], args, s, fuel - 1, c)
    else
      var (r, w) := c.machine.foreign(v, args, s.world);
      Res(if r.Some? then Val(r.value) else Fault, s.(world := w))
  }

  /** A builtin, by its name. Those that call functions are `map`, `filter` and `reduce`. */
  function Consult(name: string, args: seq<Value>, s: State, fuel: nat, c: Setting): Res
    decreases fuel
  {
    var m := c.machine;
    var (fuelled, w) := m.tick(s.world);
    var s1 := s.(world := w);
    if !fuelled then Res(Fault, s1)
    else
      match RoutineNamed(name)
      case None => Res(Fault, s1)
      case Some(Map) => if |args| != 2 then Refused(s1, c) else Collect(true, args[0], args[1], s1, fuel, c)
      case Some(Filter) => if |args| != 2 then Refused(s1, c) else Collect(false, args[0], args[1], s1, fuel, c)
      case Some(Reduce) =>
        if |args| != 3 then Refused(s1, c)
        else
          var (items, w2) := m.elements(args[2], w);
          if items.None? then Res(Fault, s.(world := w2))
          else ReduceOver(args[0], items.value, args[1], s.(world := w2), fuel, c)
      case Some(r) => Replied(m.routine(r, args, w), s)
  }

  function Refused(s: State, c: Setting): Res { Replied(Die(WRONG_COUNT, s.world, c.machine), s) }

  /** `map` and `filter` go through the elements of a collection, and start from an empty
      vector. */
  function Collect(all: bool, f: Value, of: Value, s: State, fuel: nat, c: Setting): Res
    decreases fuel, 1
  {
    var (items, w) := c.machine.elements(of, s.world);
    if items.None? then Res(Fault, s.(world := w))
    else
      var r := Perform(OpVector, [], s.(world := w), c);
      if !r.out.Val? then r
      else if all then MapOver(f, items.value, r.out.value, r.state, fuel, c)
      else FilterOver(f, items.value, r.out.value, r.state, fuel, c)
  }

  /** What `f` gives for each item, in order, added to `out`. */
  function MapOver(f: Value, items: seq<Value>, out: Value, s: State, fuel: nat, c: Setting): Res
    decreases fuel, 0, |items|
  {
    if items == [] then Res(Val(out), s)
    else
      var r := CallOn(f, [items[0]], s, fuel, c);
      if !r.out.Val? then r
      else
        var more := Perform(OpConj, [out, r.out.value], r.state, c);
        if !more.out.Val? then more else MapOver(f, items[1..], more.out.value, more.state, fuel, c)
  }

  /** The items for which `f` gives a truth, in order, added to `out`. */
  function FilterOver(f: Value, items: seq<Value>, out: Value, s: State, fuel: nat, c: Setting): Res
    decreases fuel, 0, |items|
  {
    if items == [] then Res(Val(out), s)
    else
      var r := CallOn(f, [items[0]], s, fuel, c);
      if !r.out.Val? then r
      else if !c.machine.truth(r.out.value) then FilterOver(f, items[1..], out, r.state, fuel, c)
      else
        var more := Perform(OpConj, [out, items[0]], r.state, c);
        if !more.out.Val? then more else FilterOver(f, items[1..], more.out.value, more.state, fuel, c)
  }

  /** What `f` makes of `out` and each item in turn. */
  function ReduceOver(f: Value, items: seq<Value>, out: Value, s: State, fuel: nat, c: Setting): Res
    decreases fuel, 0, |items|
  {
    if items == [] then Res(Val(out), s)
    else
      var r := CallOn(f, [out, items[0]], s, fuel, c);
      if !r.out.Val? then r else ReduceOver(f, items[1..], r.out.value, r.state, fuel, c)
  }

  /** A call that a builtin makes, one level deeper. */
  function CallOn(f: Value, args: seq<Value>, s: State, fuel: nat, c: Setting): Res
    decreases fuel, 0, 0
  {
    var a := Perform(OpArray(|args|), [], s, c);
    if !a.out.Val? then a
    else
      var e := Perform(OpEnter, [], a.state, c);
      if !e.out.Val? then e
      else if fuel == 0 then Res(Timeout, e.state)
      else
        var r := Apply(f, args, e.state, fuel - 1, c);
        if !r.out.Val? then r
        else
          var l := Perform(OpLeave, [], r.state, c);
          if !l.out.Val? then l else Res(r.out, l.state)
  }
}
