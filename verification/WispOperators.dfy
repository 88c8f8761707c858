// The runtime's operators and builtins: what their names mean to a program, which
// number the compiler gives each of them, and what the runtime does for a number.
//
// What the runtime does inside, to vectors, maps and the world, is arbitrary; which of
// its operations runs, on what, and what integer arithmetic gives, is not.
module WispOperators {
  import opened Outcomes
  import opened WispTerm
  import opened WispArithmetic

  type Data(!new)
  type World(!new)

  /** A double, with arithmetic that is not to be known. */
  type Double(!new)

  datatype Value = Null | Fun(address: nat) | Data(data: Data)

  datatype Op =
    | OpLiteral(literal: Literal) | OpVector | OpEmptyMap | OpAssoc | OpConj | OpGet | OpGetAt(index: nat)
    | OpMember(name: string) | OpRecord(name: string) | OpArray(size: nat) | OpEnter | OpLeave

  datatype Calculation = FAdd | FSub | FMul | FDiv
  datatype Comparison = Below | NotAbove | Above | NotBelow

  /** The builtins. */
  datatype Routine =
    | List | SetOf | Count | Get | Assoc | Conj | Not | Map | Filter | Reduce | First | Rest | Contains | Into
    | ToFloat | ToInteger | Dissoc | HashOf

  datatype Machine = Machine(
    perform: (Op, seq<Value>, World) -> (Option<Value>, World),
    routine: (Routine, seq<Value>, World) -> (Option<Value>, World),
    elements: (Value, World) -> (Option<seq<Value>>, World),
    foreign: (Value, seq<Value>, World) -> (Option<Value>, World),
    equal: (Value, Value, World) -> (Option<bool>, World),
    tick: World -> (bool, World),
    die: (nat, World) -> World,
    makeInt: (Long, World) -> (Option<Value>, World),
    makeFloat: (Double, World) -> (Option<Value>, World),
    makeBool: (bool, World) -> (Option<Value>, World),
    number: Value -> Number,
    calculate: (Calculation, Double, Double) -> Double,
    compare: (Comparison, Double, Double) -> bool,
    truth: Value -> bool,
    isRecord: (Value, string) -> bool,
    isVector: (Value, nat) -> bool,
    isLiteral: (Value, Literal) -> bool,
    part: (bool, Value, nat) -> Value)

  /** What a value is to arithmetic. */
  datatype Number = Whole(n: Long) | Real(x: Double) | Neither

  type Reply = (Option<Value>, World)

  // ----------------------------------------------------- what the names mean

  datatype Operator = Sum | Difference | Product | Division | Modulo | Same | Different | Less | LessOrSame | More
      | MoreOrSame

  /** What an operator means. A program has no others, as the reader has no others. */
  function OperatorNamed(op: string): Operator {
    if op == "+" then Sum
    else if op == "-" then Difference
    else if op == "*" then Product
    else if op == "/" then Division
    else if op == "%" then Modulo
    else if op == "==" then Same
    else if op == "!=" then Different
    else if op == "<" then Less
    else if op == "<=" then LessOrSame
    else if op == ">" then More
    else if op == ">=" then MoreOrSame
    else Sum
  }

  /** The integer an operation on integers gives, as an integer without bounds. */
  function Exactly(o: Operator, x: int, y: int): int
    requires o in {Sum, Difference, Product, Division, Modulo} && (o in {Division, Modulo} ==> y != 0)
  {
    match o
    case Sum => x + y
    case Difference => x - y
    case Product => x * y
    case Division => Quotient(x, y)
    case Modulo => Remainder(x, y)
  }

  function Compared(o: Operator, x: int, y: int): bool
    requires o in {Less, LessOrSame, More, MoreOrSame}
  {
    match o
    case Less => x < y
    case LessOrSame => x <= y
    case More => x > y
    case MoreOrSame => x >= y
  }

  const WRONG_KIND: nat := 4
  const WRONG_COUNT: nat := 6
  const OVERFLOW: nat := 9
  const BY_ZERO: nat := 10

  function Die(code: nat, w: World, m: Machine): Reply { (None, m.die(code, w)) }

  /** What an operation on two values means. Integers are exact: a result that is not a
      64-bit integer is an error. For a remainder it is the quotient that has to be. */
  function Operate(o: Operator, a: Value, b: Value, w: World, m: Machine): Reply {
    var (fuelled, w1) := m.tick(w);
    if !fuelled then (None, w1)
    else if o.Same? || o.Different? then
      var (r, w2) := m.equal(a, b, w1);
      if r.None? then (None, w2) else m.makeBool(r.value == o.Same?, w2)
    else
      match (m.number(a), m.number(b))
      case (Whole(x), Whole(y)) => WholeResult(o, x, y, w1, m)
      case (Real(x), Real(y)) => DoubleResult(o, x, y, w1, m)
      case _ => Die(WRONG_KIND, w1, m)
  }

  function WholeResult(o: Operator, x: Long, y: Long, w: World, m: Machine): Reply
    requires !o.Same? && !o.Different?
  {
    if o in {Less, LessOrSame, More, MoreOrSame} then m.makeBool(Compared(o, x, y), w)
    else if o in {Division, Modulo} && y == 0 then Die(BY_ZERO, w, m)
    else if !InLong(Exactly(if o.Modulo? then Division else o, x, y)) then Die(OVERFLOW, w, m)
    else
      assert o.Modulo? ==> InLong(Remainder(x, y)) by {
        if o.Modulo? { QuotientFits(x, y); }
      }
      m.makeInt(Exactly(o, x, y), w)
  }

  function DoubleResult(o: Operator, x: Double, y: Double, w: World, m: Machine): Reply
    requires !o.Same? && !o.Different?
  {
    match o
    case Sum => m.makeFloat(m.calculate(FAdd, x, y), w)
    case Difference => m.makeFloat(m.calculate(FSub, x, y), w)
    case Product => m.makeFloat(m.calculate(FMul, x, y), w)
    case Division => m.makeFloat(m.calculate(FDiv, x, y), w)
    case Modulo => Die(WRONG_KIND, w, m)
    case Less => m.makeBool(m.compare(Below, x, y), w)
    case LessOrSame => m.makeBool(m.compare(NotAbove, x, y), w)
    case More => m.makeBool(m.compare(Above, x, y), w)
    case MoreOrSame => m.makeBool(m.compare(NotBelow, x, y), w)
  }

  function RoutineNamed(name: string): Option<Routine> {
    if name == "list" then Some(List)
    else if name == "set" then Some(SetOf)
    else if name == "count" then Some(Count)
    else if name == "get" then Some(Get)
    else if name == "assoc" then Some(Assoc)
    else if name == "conj" then Some(Conj)
    else if name == "not" then Some(Not)
    else if name == "map" then Some(Map)
    else if name == "filter" then Some(Filter)
    else if name == "reduce" then Some(Reduce)
    else if name == "first" then Some(First)
    else if name == "rest" then Some(Rest)
    else if name == "contains" then Some(Contains)
    else if name == "into" then Some(Into)
    else if name == "float" then Some(ToFloat)
    else if name == "integer" then Some(ToInteger)
    else if name == "dissoc" then Some(Dissoc)
    else if name == "hash" then Some(HashOf)
    else None
  }

  // ------------------------------------------------- the numbers they are given

  const BUILTINS: seq<string> := [
    "list", "set", "count", "get", "assoc", "conj", "not", "map", "filter", "reduce",
    "first", "rest", "contains", "into", "float", "integer", "dissoc", "hash"]

  const OPERATORS: seq<string> := ["+", "-", "*", "/", "%", "==", "!=", "<", "<=", ">", ">="]

  function Position(names: seq<string>, name: string): Option<nat> {
    if names == [] then None
    else if names[0] == name then Some(0)
    else match Position(names[1..], name) case Some(i) => Some(i + 1) case None => None
  }

  function BuiltinId(name: string): Option<nat> { Position(BUILTINS, name) }

  function OperatorId(op: string): nat {
    match Position(OPERATORS, op) case Some(i) => i case None => 0
  }

  // ------------------------------------------------------- what the runtime does

  /** `binary`: what the runtime does for an operator's number. */
  function Binary(op: nat, a: Value, b: Value, w: World, m: Machine): Reply {
    var (fuelled, w1) := m.tick(w);
    if !fuelled then (None, w1)
    else if op == 5 then
      var (r, w2) := m.equal(a, b, w1);
      if r.None? then (None, w2) else m.makeBool(r.value, w2)
    else if op == 6 then
      var (r, w2) := m.equal(a, b, w1);
      if r.None? then (None, w2) else m.makeBool(!r.value, w2)
    else
      match m.number(a)
      case Real(x) =>
        (match m.number(b) case Real(y) => BinaryFloat(op, x, y, w1, m) case _ => Die(WRONG_KIND, w1, m))
      case Whole(x) =>
        (match m.number(b) case Whole(y) => BinaryInteger(op, x, y, w1, m) case _ => Die(WRONG_KIND, w1, m))
      case Neither => Die(WRONG_KIND, w1, m)
  }

  function BinaryFloat(op: nat, x: Double, y: Double, w: World, m: Machine): Reply {
    if op == 0 then m.makeFloat(m.calculate(FAdd, x, y), w)
    else if op == 1 then m.makeFloat(m.calculate(FSub, x, y), w)
    else if op == 2 then m.makeFloat(m.calculate(FMul, x, y), w)
    else if op == 3 then m.makeFloat(m.calculate(FDiv, x, y), w)
    else if op == 7 then m.makeBool(m.compare(Below, x, y), w)
    else if op == 8 then m.makeBool(m.compare(NotAbove, x, y), w)
    else if op == 9 then m.makeBool(m.compare(Above, x, y), w)
    else if op == 10 then m.makeBool(m.compare(NotBelow, x, y), w)
    else Die(WRONG_KIND, w, m)
  }

  /** Sums, differences and products are made in 64 bits, and tried for overflow after. */
  function BinaryInteger(op: nat, x: Long, y: Long, w: World, m: Machine): Reply {
    if op == 7 then m.makeBool(x < y, w)
    else if op == 8 then m.makeBool(x <= y, w)
    else if op == 9 then m.makeBool(x > y, w)
    else if op == 10 then m.makeBool(x >= y, w)
    else if op == 0 then
      var z := Wrap(x + y);
      if (y > 0 && z < x) || (y < 0 && z > x) then Die(OVERFLOW, w, m) else m.makeInt(z, w)
    else if op == 1 then
      var z := Wrap(x - y);
      if (y < 0 && z < x) || (y > 0 && z > x) then Die(OVERFLOW, w, m) else m.makeInt(z, w)
    else if op == 2 then
      if (x == -HALF && y == -1) || (y == -HALF && x == -1) then Die(OVERFLOW, w, m)
      else
        var z := Wrap(x * y);
        if y != 0 && Quotient(z, y) != x then Die(OVERFLOW, w, m) else m.makeInt(z, w)
    else if y == 0 then Die(BY_ZERO, w, m)
    else if x == -HALF && y == -1 then Die(OVERFLOW, w, m)
    else
      QuotientFits(x, y);
      m.makeInt(if op == 3 then Quotient(x, y) else Remainder(x, y), w)
  }

  /** `builtin`: which builtin the runtime runs for a number. */
  function RoutineOf(id: nat): Option<Routine> {
    if id == 0 then Some(List)
    else if id == 1 then Some(SetOf)
    else if id == 2 then Some(Count)
    else if id == 3 then Some(Get)
    else if id == 4 then Some(Assoc)
    else if id == 5 then Some(Conj)
    else if id == 6 then Some(Not)
    else if id == 7 then Some(Map)
    else if id == 8 then Some(Filter)
    else if id == 9 then Some(Reduce)
    else if id == 10 then Some(First)
    else if id == 11 then Some(Rest)
    else if id == 12 then Some(Contains)
    else if id == 13 then Some(Into)
    else if id == 14 then Some(ToFloat)
    else if id == 15 then Some(ToInteger)
    else if id == 16 then Some(Dissoc)
    else if id == 17 then Some(HashOf)
    else None
  }

  // ------------------------------------------- the numbers run what they name

  lemma {:induction false} PositionIs(names: seq<string>, i: nat)
    requires i < |names| && forall j | 0 <= j < i :: names[j] != names[i]
    ensures Position(names, names[i]) == Some(i)
  {
    if i > 0 {
      assert names[0] != names[i];
      assert names[1..][i - 1] == names[i];
      PositionIs(names[1..], i - 1);
    }
  }

  lemma {:induction false} PositionNames(names: seq<string>, name: string)
    ensures var r := Position(names, name);
      if r.Some? then r.value < |names| && names[r.value] == name else forall i | 0 <= i < |names| :: names[i] != name
  {
    if names != [] { PositionNames(names[1..], name); }
  }

  lemma OperatorsApart()
    ensures forall i, j | 0 <= i < j < |OPERATORS| :: OPERATORS[i] != OPERATORS[j]
  {}

  lemma BuiltinsApart()
    ensures forall i, j | 0 <= i < j < |BUILTINS| :: BUILTINS[i] != BUILTINS[j]
  {}

  lemma NumberedAs(i: nat)
    requires i < |BUILTINS|
    ensures RoutineOf(i) == RoutineNamed(BUILTINS[i]) && RoutineOf(i).Some?
  {}

  function Ordinal(r: Routine): (i: nat)
    ensures i < |BUILTINS|
  {
    match r
    case List => 0 case SetOf => 1 case Count => 2 case Get => 3 case Assoc => 4 case Conj => 5
    case Not => 6 case Map => 7 case Filter => 8 case Reduce => 9 case First => 10 case Rest => 11
    case Contains => 12 case Into => 13 case ToFloat => 14 case ToInteger => 15 case Dissoc => 16 case HashOf => 17
  }

  lemma NamedIsListed(name: string)
    requires RoutineNamed(name).Some?
    ensures BUILTINS[Ordinal(RoutineNamed(name).value)] == name
  {}

  /** The number of a builtin is one the runtime knows, and runs the builtin of that
      name; there are no others. */
  lemma BuiltinRuns(name: string)
    ensures BuiltinId(name).Some? <==> RoutineNamed(name).Some?
    ensures BuiltinId(name).Some? ==> RoutineOf(BuiltinId(name).value) == RoutineNamed(name)
  {
    hide Position, RoutineNamed, RoutineOf;
    PositionNames(BUILTINS, name);
    if BuiltinId(name).Some? { NumberedAs(BuiltinId(name).value); }
    if RoutineNamed(name).Some? { NamedIsListed(name); }
  }

  /** The place of an operator among the names the compiler numbers. */
  function Place(o: Operator): (i: nat)
    ensures i < |OPERATORS|
  {
    match o
    case Sum => 0 case Difference => 1 case Product => 2 case Division => 3 case Modulo => 4
    case Same => 5 case Different => 6
    case Less => 7 case LessOrSame => 8 case More => 9 case MoreOrSame => 10
  }

  lemma NumberPlaced(op: string)
    ensures OperatorId(op) == Place(OperatorNamed(op))
  {
    hide Position;
    PositionNames(OPERATORS, op);
    if op in OPERATORS {
      OperatorsApart();
      assert OPERATORS[Place(OperatorNamed(op))] == op;
    }
  }

  lemma IntegerMeans(o: Operator, x: Long, y: Long, w: World, m: Machine)
    requires !o.Same? && !o.Different?
    ensures BinaryInteger(Place(o), x, y, w, m) == WholeResult(o, x, y, w, m)
  {
    hide Quotient, Remainder, Wrap;
    var s := Wraps(x + y);
    var d := Wraps(x - y);
    var p := Wraps(x * y);
    SumShows(x, y);
    if y != 0 {
      ProductShows(x, y);
      QuotientFits(x, y);
    }
  }

  /** The number emitted for an operator runs that operator's own operation, whatever the
      operands: integer results are exact, and what is not a 64-bit integer is found. */
  lemma OperatorRuns(op: string, a: Value, b: Value, w: World, m: Machine)
    ensures Binary(OperatorId(op), a, b, w, m) == Operate(OperatorNamed(op), a, b, w, m)
  {
    hide OperatorId, OperatorNamed, BinaryInteger, WholeResult;
    var o := OperatorNamed(op);
    NumberPlaced(op);
    if !o.Same? && !o.Different? && m.number(a).Whole? && m.number(b).Whole? {
      IntegerMeans(o, m.number(a).n, m.number(b).n, m.tick(w).1, m);
    }
  }
}
