// Terms of the Wisp language, the names they read, and what `referenced` collects.
module WispTerm {
  import opened Outcomes

  datatype Literal = Boolean(value: bool) | Integer(digits: string) | Float(digits: string)
      | Text(chars: string, keyword: bool)

  datatype Term =
    | Nil
    | Lit(literal: Literal)
    | Name(name: string)
    | Vector(items: seq<Term>)
    | MapLit(entries: seq<Entry>)
    | Call(head: Term, args: seq<Term>)
    | Field(parent: Term, name: string)
    | Binary(op: string, left: Term, right: Term)
    | Lambda(params: seq<string>, body: seq<Term>)
    | Bind(names: seq<string>, value: Term)
    | If(condition: Term, yes: seq<Term>, no: seq<Term>)
    | Match(subject: Term, arms: seq<Arm>)

  datatype Entry = Entry(key: Term, value: Term)
  datatype Arm = Arm(pattern: Term, body: seq<Term>)

  const BLANK: string := "_"

  function Names(names: seq<string>): set<string> { set s | s in names }

  /** A name followed by field names, as a list of its parts. */
  function Path(t: Term): (p: Option<seq<string>>)
    ensures p.Some? ==> |p.value| > 0
  {
    match t
    case Name(s) => Some([s])
    case Field(parent, s) => (match Path(parent) case Some(p) => Some(p + [s]) case None => None)
    case _ => None
  }

  /** Whether a path starts from a name in `scope`. */
  predicate Rooted(t: Term, scope: set<string>) {
    Path(t).Some? && Path(t).value[0] in scope
  }

  // ------------------------------------------------------- names of a pattern

  /** The names `pattern_names` treats as bound by a pattern. */
  function PatternNames(p: Term): set<string> {
    match p
    case Name(s) => {s}
    case Call(_, fields) => PatternNamesAll(fields)
    case Vector(fields) => PatternNamesAll(fields)
    case _ => {}
  }

  function PatternNamesAll(ps: seq<Term>): set<string> {
    if ps == [] then {} else PatternNames(ps[0]) + PatternNamesAll(ps[1..])
  }

  /** The names a pattern does bind: a blank binds nothing. */
  function PatternBinds(p: Term): set<string> {
    match p
    case Name(s) => if s == BLANK then {} else {s}
    case Call(_, fields) => PatternBindsAll(fields)
    case Vector(fields) => PatternBindsAll(fields)
    case _ => {}
  }

  function PatternBindsAll(ps: seq<Term>): set<string> {
    if ps == [] then {} else PatternBinds(ps[0]) + PatternBindsAll(ps[1..])
  }

  // ------------------------------------------------------------- free names

  /** The names a term reads from around it. */
  function Free(t: Term): set<string> {
    match t
    case Name(s) => {s}
    case Vector(xs) => FreeAll(xs)
    case MapLit(es) => FreeEntries(es)
    case Call(f, xs) => Free(f) + FreeAll(xs)
    case Field(x, _) => Free(x)
    case Binary(_, x, y) => Free(x) + Free(y)
    case Lambda(params, body) => FreeBody(body) - Names(params)
    case Bind(_, x) => Free(x)
    case If(x, yes, no) => Free(x) + FreeBody(yes) + FreeBody(no)
    case Match(x, arms) => Free(x) + FreeArms(arms)
    case _ => {}
  }

  function FreeAll(ts: seq<Term>): set<string> {
    if ts == [] then {} else Free(ts[0]) + FreeAll(ts[1..])
  }

  function FreeEntries(es: seq<Entry>): set<string> {
    if es == [] then {}
    else
      var e := es[0];
      assert e.key < e && e.value < e;
      Free(e.key) + Free(e.value) + FreeEntries(es[1..])
  }

  function FreeArms(arms: seq<Arm>): set<string> {
    if arms == [] then {} else (FreeBody(arms[0].body) - PatternBinds(arms[0].pattern)) + FreeArms(arms[1..])
  }

  function FreeBody(body: seq<Term>): set<string> {
    if body == [] then {}
    else Free(body[0]) + if body[0].Bind? then FreeBody(body[1..]) - Names(body[0].names) else FreeBody(body[1..])
  }

  // ------------------------------------------------------------- referenced

  /** What `referenced` adds to its table of names, given the names it holds bound. */
  function Refs(t: Term, bound: set<string>): set<string> {
    match t
    case Name(s) => if s in bound then {} else {s}
    case Vector(xs) => RefsAll(xs, bound)
    case MapLit(es) => RefsEntries(es, bound)
    case Call(f, xs) => Refs(f, bound) + RefsAll(xs, bound)
    case Field(x, _) => Refs(x, bound)
    case Binary(_, x, y) => Refs(x, bound) + Refs(y, bound)
    case Lambda(params, body) => RefsBody(body, bound + Names(params))
    case Bind(_, x) => Refs(x, bound)
    case If(x, yes, no) => Refs(x, bound) + RefsBody(yes, bound) + RefsBody(no, bound)
    case Match(x, arms) => Refs(x, bound) + RefsArms(arms, bound)
    case _ => {}
  }

  function RefsAll(ts: seq<Term>, bound: set<string>): set<string> {
    if ts == [] then {} else Refs(ts[0], bound) + RefsAll(ts[1..], bound)
  }

  function RefsEntries(es: seq<Entry>, bound: set<string>): set<string> {
    if es == [] then {}
    else
      var e := es[0];
      assert e.key < e && e.value < e;
      Refs(e.key, bound) + Refs(e.value, bound) + RefsEntries(es[1..], bound)
  }

  function RefsArms(arms: seq<Arm>, bound: set<string>): set<string> {
    if arms == [] then {}
    else RefsBody(arms[0].body, bound + PatternNames(arms[0].pattern)) + RefsArms(arms[1..], bound)
  }

  function RefsBody(body: seq<Term>, bound: set<string>): set<string> {
    if body == [] then {}
    else Refs(body[0], bound) + RefsBody(body[1..], if body[0].Bind? then bound + Names(body[0].names) else bound)
  }

  /** `got` is `want` without the bound names, but that it may lack the blank. */
  predicate Nearly(got: set<string>, want: set<string>, bound: set<string>) {
    got <= want - bound && want - bound - {BLANK} <= got
  }

  lemma {:induction false} PatternNearly(p: Term)
    ensures PatternBinds(p) == PatternNames(p) - {BLANK}
    decreases p
  {
    match p
    case Call(_, fields) => PatternNearlyAll(fields);
    case Vector(fields) => PatternNearlyAll(fields);
    case _ =>
  }

  lemma {:induction false} PatternNearlyAll(ps: seq<Term>)
    ensures PatternBindsAll(ps) == PatternNamesAll(ps) - {BLANK}
    decreases ps
  {
    if ps != [] {
      PatternNearly(ps[0]);
      PatternNearlyAll(ps[1..]);
    }
  }

  /** `referenced` collects the names a term reads that are not bound, and misses
      none of them but perhaps the blank. */
  lemma {:induction false} RefsNearlyFree(t: Term, bound: set<string>)
    ensures Nearly(Refs(t, bound), Free(t), bound)
    decreases t
  {
    match t
    case Vector(xs) => RefsNearlyFreeAll(xs, bound);
    case MapLit(es) => RefsNearlyFreeEntries(es, bound);
    case Call(f, xs) => RefsNearlyFree(f, bound); RefsNearlyFreeAll(xs, bound);
    case Field(x, _) => RefsNearlyFree(x, bound);
    case Binary(_, x, y) => RefsNearlyFree(x, bound); RefsNearlyFree(y, bound);
    case Lambda(params, body) => RefsNearlyFreeBody(body, bound + Names(params));
    case Bind(_, x) => RefsNearlyFree(x, bound);
    case If(x, yes, no) => RefsNearlyFree(x, bound); RefsNearlyFreeBody(yes, bound); RefsNearlyFreeBody(no, bound);
    case Match(x, arms) => RefsNearlyFree(x, bound); RefsNearlyFreeArms(arms, bound);
    case _ =>
  }

  lemma {:induction false} RefsNearlyFreeAll(ts: seq<Term>, bound: set<string>)
    ensures Nearly(RefsAll(ts, bound), FreeAll(ts), bound)
    decreases ts
  {
    if ts != [] { RefsNearlyFree(ts[0], bound); RefsNearlyFreeAll(ts[1..], bound); }
  }

  lemma {:induction false} RefsNearlyFreeEntries(es: seq<Entry>, bound: set<string>)
    ensures Nearly(RefsEntries(es, bound), FreeEntries(es), bound)
    decreases es
  {
    if es != [] {
      var e := es[0];
      assert e.key < e && e.value < e;
      RefsNearlyFree(e.key, bound);
      RefsNearlyFree(e.value, bound);
      RefsNearlyFreeEntries(es[1..], bound);
    }
  }

  lemma {:induction false} RefsNearlyFreeArms(arms: seq<Arm>, bound: set<string>)
    ensures Nearly(RefsArms(arms, bound), FreeArms(arms), bound)
    decreases arms
  {
    if arms != [] {
      PatternNearly(arms[0].pattern);
      RefsNearlyFreeBody(arms[0].body, bound + PatternNames(arms[0].pattern));
      RefsNearlyFreeArms(arms[1..], bound);
    }
  }

  lemma {:induction false} RefsNearlyFreeBody(body: seq<Term>, bound: set<string>)
    ensures Nearly(RefsBody(body, bound), FreeBody(body), bound)
    decreases body
  {
    if body != [] {
      RefsNearlyFree(body[0], bound);
      RefsNearlyFreeBody(body[1..], if body[0].Bind? then bound + Names(body[0].names) else bound);
    }
  }

  // ---------------------------------------------------- what a lambda captures

  /** The names `lambda` captures when the names in `scope` can be read. */
  function Captures(params: seq<string>, body: seq<Term>, scope: set<string>): set<string> {
    set s | s in scope && s in RefsBody(body, Names(params)) && s !in params
  }

  /** The names it has to: those of `scope` its body reads. */
  function Needed(params: seq<string>, body: seq<Term>, scope: set<string>): set<string> {
    set s | s in scope && s in FreeBody(body) && s !in params
  }

  /** The body reads a blank that stands for a name of `scope`, and every such read
      is under a pattern with a blank. */
  predicate MissesBlank(params: seq<string>, body: seq<Term>, scope: set<string>) {
    BLANK in scope && BLANK !in params && BLANK in FreeBody(body) && BLANK !in RefsBody(body, Names(params))
  }

  /** A lambda captures exactly the names its body needs, unless it misses the blank;
      and it never captures more. */
  lemma {:induction false} CapturesAreNeeded(params: seq<string>, body: seq<Term>, scope: set<string>)
    ensures Captures(params, body, scope) <= Needed(params, body, scope)
    ensures Captures(params, body, scope) == Needed(params, body, scope) <==> !MissesBlank(params, body, scope)
  {
    var got, want := Captures(params, body, scope), Needed(params, body, scope);
    RefsNearlyFreeBody(body, Names(params));
    if MissesBlank(params, body, scope) {
      assert BLANK in want && BLANK !in got;
    } else {
      forall s | s in want ensures s in got {}
    }
  }

  /** The body of `fn (): match x | _: _`. */
  const BLANK_ARMS: seq<Arm> := [Arm(Name(BLANK), [Name(BLANK)])]
  const BLANK_BODY: seq<Term> := [Match(Name("x"), BLANK_ARMS)]

  /** Inside `let _ = ...` that body reads the outer `_`, and does not capture it. */
  lemma BlankIsMissed()
    ensures MissesBlank([], BLANK_BODY, {"x", BLANK})
    ensures Needed([], BLANK_BODY, {"x", BLANK}) == {"x", BLANK}
    ensures Captures([], BLANK_BODY, {"x", BLANK}) == {"x"}
  {
    var inner := [Name(BLANK)];
    assert inner[1..] == [] && BLANK_ARMS[1..] == [] && BLANK_BODY[1..] == [];
    assert Names([]) == {};
    assert FreeBody(inner) == {BLANK} && RefsBody(inner, {BLANK}) == {};
    assert {} + PatternNames(Name(BLANK)) == {BLANK} && PatternBinds(Name(BLANK)) == {};
    assert FreeArms(BLANK_ARMS[1..]) == {} == RefsArms(BLANK_ARMS[1..], {});
    assert FreeArms(BLANK_ARMS) == {BLANK} && RefsArms(BLANK_ARMS, {}) == {};
    assert Refs(BLANK_BODY[0], {}) == {"x"} && Free(BLANK_BODY[0]) == {"x", BLANK};
    assert FreeBody(BLANK_BODY[1..]) == {} == RefsBody(BLANK_BODY[1..], {});
    assert FreeBody(BLANK_BODY) == {"x", BLANK} && RefsBody(BLANK_BODY, {}) == {"x"};
  }

  // ------------------------------------------- terms whose lambdas miss nothing

  /** No lambda in the term misses a blank, where the names of `scope` can be read. */
  predicate Clean(t: Term, scope: set<string>) {
    match t
    case Vector(xs) => CleanAll(xs, scope)
    case MapLit(es) => CleanEntries(es, scope)
    case Call(f, xs) => Clean(f, scope) && CleanAll(xs, scope)
    case Field(x, _) => Clean(x, scope)
    case Binary(_, x, y) => Clean(x, scope) && Clean(y, scope)
    case Lambda(params, body) => !MissesBlank(params, body, scope) && CleanBody(body, scope + Names(params))
    case Bind(_, x) => Clean(x, scope)
    case If(x, yes, no) => Clean(x, scope) && CleanBody(yes, scope) && CleanBody(no, scope)
    case Match(x, arms) => Clean(x, scope) && CleanArms(arms, scope)
    case _ => true
  }

  predicate CleanAll(ts: seq<Term>, scope: set<string>) {
    ts != [] ==> Clean(ts[0], scope) && CleanAll(ts[1..], scope)
  }

  predicate CleanEntries(es: seq<Entry>, scope: set<string>) {
    es != [] ==>
      var e := es[0];
      assert e.key < e && e.value < e;
      Clean(e.key, scope) && Clean(e.value, scope) && CleanEntries(es[1..], scope)
  }

  predicate CleanArms(arms: seq<Arm>, scope: set<string>) {
    arms != [] ==> CleanBody(arms[0].body, scope + PatternBinds(arms[0].pattern)) && CleanArms(arms[1..], scope)
  }

  predicate CleanBody(body: seq<Term>, scope: set<string>) {
    body != [] ==>
      && Clean(body[0], scope)
      && CleanBody(body[1..], if body[0].Bind? then scope + Names(body[0].names) else scope)
  }

  /** A path's first name is one the term reads. */
  lemma {:induction false} RootIsFree(t: Term)
    requires Path(t).Some?
    ensures Path(t).value[0] in Free(t)
  {
    if t.Field? { RootIsFree(t.parent); }
  }
}
