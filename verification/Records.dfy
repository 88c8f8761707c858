// Records whose fields are declared at run time: schemas, definitions, values, and the
// ways to make one value from another. Validators are pure functions.
module Records {
  import opened Outcomes
  import opened S = StructuralValues

  datatype Status = Ok | UnknownField | DuplicateField | TypeMismatch | FieldInvalid | ValueInvalid

  datatype Type =
    | TScalar(kind: nat)
    | TAny
    | TVector(element: Type)
    | TMap(element: Type)
    | TSet(element: Type)
    | TOrderedMap(element: Type)
    | TOrderedSet(element: Type)
    | TRecord(definition: Definition)
    | TOr(left: Type, right: Type)

  function KindOf(v: Value): nat {
    match v
    case Null => 0 case Bool(_) => 1 case Str(_) => 2 case I32(_) => 3 case I64(_) => 4
    case F32(_) => 5 case F64(_) => 6 case Vector(_) => 7 case Map(_) => 8 case Any(_, _) => 9
    case Set(_) => 10 case Record(_, _) => 11
    case OrderedMap(_) => 12 case OrderedSet(_) => 13
  }

  /** Which values a type is for; an opaque payload's type has the kind of one. */
  predicate InType(t: Type, v: Value) {
    match t
    case TAny => true
    case TScalar(kind) => KindOf(v) == kind
    case TVector(e) => v.Vector? && forall i | 0 <= i < |v.items| :: InType(e, v.items[i])
    case TSet(e) => v.Set? && forall i | 0 <= i < |v.items| :: InType(e, v.items[i])
    case TOrderedSet(e) => v.OrderedSet? && forall i | 0 <= i < |v.items| :: InType(e, v.items[i])
    case TMap(e) => v.Map? && forall i | 0 <= i < |v.pairs| :: InType(e, v.pairs[i].value)
    case TOrderedMap(e) => v.OrderedMap? && forall i | 0 <= i < |v.pairs| :: InType(e, v.pairs[i].value)
    case TRecord(d) => v.Record? && v.definition == d
    case TOr(a, b) => InType(a, v) || InType(b, v)
  }

  /** `type_accepts`: one traversal of the value, whose answer stays no once it is no. */
  method TypeAccepts(t: Type, v: Value) returns (r: bool)
    ensures r == InType(t, v)
    decreases t, 1
  {
    match t
    case TAny => return true;
    case TScalar(kind) => return KindOf(v) == kind;
    case TVector(e) => if !v.Vector? { return false; } r := AllAccepted(e, v.items);
    case TSet(e) => if !v.Set? { return false; } r := AllAccepted(e, v.items);
    case TOrderedSet(e) => if !v.OrderedSet? { return false; } r := AllAccepted(e, v.items);
    case TMap(e) => if !v.Map? { return false; } r := AllPairsAccepted(e, v.pairs);
    case TOrderedMap(e) => if !v.OrderedMap? { return false; } r := AllPairsAccepted(e, v.pairs);
    case TRecord(d) => return v.Record? && v.definition == d;
    case TOr(a, b) =>
      r := TypeAccepts(a, v);
      if r { return true; }
      r := TypeAccepts(b, v);
  }

  method AllAccepted(t: Type, items: seq<Value>) returns (valid: bool)
    ensures valid <==> forall i | 0 <= i < |items| :: InType(t, items[i])
    decreases t, 2
  {
    valid := true;
    for i := 0 to |items|
      invariant valid <==> forall k | 0 <= k < i :: InType(t, items[k])
    {
      if valid { valid := TypeAccepts(t, items[i]); }
    }
  }

  method AllPairsAccepted(t: Type, pairs: seq<Pair>) returns (valid: bool)
    ensures valid <==> forall i | 0 <= i < |pairs| :: InType(t, pairs[i].value)
    decreases t, 2
  {
    valid := true;
    for i := 0 to |pairs|
      invariant valid <==> forall k | 0 <= k < i :: InType(t, pairs[k].value)
    {
      if valid { valid := TypeAccepts(t, pairs[i].value); }
    }
  }

  // ------------------------------------------------- schemas and definitions

  type Values = map<Text, Value>

  datatype Field = Field(type_: Type, default_: Value, validator: Value -> bool)
  datatype Schema = Schema(fields: map<Text, Field>, defaults: Values)
  datatype RecordType = RecordType(definition: Definition, schema: Schema, validator: Values -> bool)
  datatype Rec = Rec(type_: RecordType, values: Values)

  function FieldStatus(f: Field, v: Value): Status {
    if !InType(f.type_, v) then TypeMismatch else if !f.validator(v) then FieldInvalid else Ok
  }

  /** A field holds values of its type that its validator lets through. */
  predicate Holds(f: Field, v: Value) { InType(f.type_, v) && f.validator(v) }

  /** A field has a default, which it accepts. */
  ghost predicate ValidSchema(s: Schema) {
    && s.fields.Keys == s.defaults.Keys
    && forall k | k in s.fields :: s.defaults[k] == s.fields[k].default_ && Holds(s.fields[k], s.defaults[k])
  }

  /** Exactly the fields of a schema, each with a value it accepts. */
  ghost predicate Fits(values: Values, s: Schema) {
    values.Keys == s.fields.Keys && forall k | k in values :: Holds(s.fields[k], values[k])
  }

  ghost predicate ValidType(t: RecordType) { ValidSchema(t.schema) && t.validator(t.schema.defaults) }

  ghost predicate ValidRec(r: Rec) { ValidType(r.type_) && Fits(r.values,
      r.type_.schema) && r.type_.validator(r.values) }

  datatype Tried<!T> = Made(value: T) | Refused(status: Status)

  function SchemaTryAdd(s: Schema, name: Text, t: Type, d: Value, validator: Value -> bool): Tried<Schema> {
    if name in s.fields then Refused(DuplicateField)
    else
      var f := Field(t, d, validator);
      if FieldStatus(f, d) != Ok then Refused(FieldStatus(f, d))
      else Made(Schema(s.fields[name := f], s.defaults[name := d]))
  }

  function TypeTryCreate(d: Definition, s: Schema, validator: Values -> bool): Tried<RecordType> {
    if validator(s.defaults) then Made(RecordType(d, s, validator)) else Refused(ValueInvalid)
  }

  function Default(t: RecordType): Rec { Rec(t, t.schema.defaults) }

  function Candidate(t: RecordType, values: Values): Tried<Rec> {
    if t.validator(values) then Made(Rec(t, values)) else Refused(ValueInvalid)
  }

  function TrySet(r: Rec, field: Text, v: Value): Tried<Rec>
    requires Fits(r.values, r.type_.schema)
  {
    if field !in r.type_.schema.fields then Refused(UnknownField)
    else
      var status := FieldStatus(r.type_.schema.fields[field], v);
      if status != Ok then Refused(status)
      else if Equal(r.values[field], v) then Made(r)
      else Candidate(r.type_, r.values[field := v])
  }

  function TryReset(r: Rec, field: Text): Tried<Rec>
    requires Fits(r.values, r.type_.schema)
  {
    if field !in r.type_.schema.fields then Refused(UnknownField)
        else TrySet(r, field, r.type_.schema.fields[field].default_)
  }

  function Clear(r: Rec): Rec { if r.values == r.type_.schema.defaults then r else Default(r.type_) }

  // -------------------------------------------------------- building from a map

  /** What an override leaves of a field: a value equal to the old one changes nothing. */
  function Overridden(old_: Value, v: Value): Value { if Equal(old_, v) then old_ else v }

  /** The fields named by the first `n` overrides hold what these leave of them, the others are untouched. */
  ghost predicate Applied(initial: Values, overrides: seq<Pair>, n: nat, values: Values)
    requires n <= |overrides|
  {
    && values.Keys == initial.Keys
    && (forall i | 0 <= i < n && overrides[i].key in values ::
         values[overrides[i].key] == Overridden(initial[overrides[i].key], overrides[i].value))
    && (forall k | k in values && (forall i | 0 <= i < n :: overrides[i].key != k) :: values[k] == initial[k])
  }

  ghost predicate Distinct(overrides: seq<Pair>) {
    forall i, j | 0 <= i < j < |overrides| :: overrides[i].key != overrides[j].key
  }

  lemma NoneApplied(initial: Values, overrides: seq<Pair>)
    ensures Applied(initial, overrides, 0, initial)
  { }

  lemma ApplyOne(initial: Values, overrides: seq<Pair>, n: nat, values: Values)
    requires n < |overrides| && Distinct(overrides) && Applied(initial, overrides, n, values)
    ensures overrides[n].key !in values ==> Applied(initial, overrides, n + 1, values)
    ensures overrides[n].key in values ==>
      values[overrides[n].key] == initial[overrides[n].key] &&
      Applied(initial, overrides, n + 1,
          values[overrides[n].key := Overridden(initial[overrides[n].key], overrides[n].value)])
  {
    var key := overrides[n].key;
    assert forall i | 0 <= i < n :: overrides[i].key != key;
    if key in values {
      var next := values[key := Overridden(initial[key], overrides[n].value)];
      forall k | k in next && (forall i | 0 <= i < n + 1 :: overrides[i].key != k) ensures next[k] == initial[k] {
        assert overrides[n].key != k;
      }
    } else {
      forall k | k in values && (forall i | 0 <= i < n + 1 :: overrides[i].key != k) ensures values[k] == initial[k] { }
    }
  }

  ghost predicate Accepted(t: RecordType, overrides: seq<Pair>, n: nat, strict: bool)
    requires n <= |overrides|
  {
    forall i | 0 <= i < n :: EntryStatus(t, overrides[i], strict) == Ok
  }

  /** The loop over the overrides: the first that fails stops it. */
  method ApplyEntries(t: RecordType, initial: Values, overrides: seq<Pair>, strict: bool)
    returns (status: Status, failed: Option<Text>, values: Values)
    requires Fits(initial, t.schema) && Distinct(overrides)
    ensures status == Ok <==> Accepted(t, overrides, |overrides|, strict)
    ensures status == Ok ==>
      && failed == None && Fits(values, t.schema)
      && Applied(initial, overrides, |overrides|, values)
    ensures status != Ok ==> FirstRefused(t, overrides, strict, status, failed)
  {
    hide Applied;
    status, failed, values := Ok, None, initial;
    assert Applied(initial, overrides, 0, values) by { NoneApplied(initial, overrides); }
    for i := 0 to |overrides|
      invariant Fits(values, t.schema)
      invariant status == Ok <==> Accepted(t, overrides, i, strict)
      invariant status == Ok ==> failed == None && Applied(initial, overrides, i, values)
      invariant status != Ok ==> FirstRefused(t, overrides, strict, status, failed)
    {
      if status == Ok {
        var p := overrides[i];
        ApplyOne(initial, overrides, i, values);
        if p.key !in t.schema.fields {
          if strict { status, failed := UnknownField, Some(p.key); }
        } else {
          var s := FieldStatus(t.schema.fields[p.key], p.value);
          if s != Ok {
            status, failed := s, Some(p.key);
          } else if !Equal(values[p.key], p.value) {
            values := values[p.key := p.value];
          } else {
            assert values == values[p.key := Overridden(values[p.key], p.value)];
          }
        }
        assert status == EntryStatus(t, p, strict);
        assert status != Ok ==> RefusedAt(t, overrides, strict, status, failed, i);
      }
    }
  }

  function EntryStatus(t: RecordType, p: Pair, strict: bool): Status {
    if p.key !in t.schema.fields then (if strict then UnknownField else Ok)
    else FieldStatus(t.schema.fields[p.key], p.value)
  }

  /** The entry that is blamed is the first that is refused, and it is blamed for that. */
  ghost predicate FirstRefused(t: RecordType, overrides: seq<Pair>, strict: bool, status: Status,
      failed: Option<Text>) {
    exists i :: 0 <= i < |overrides| && RefusedAt(t, overrides, strict, status, failed, i)
  }

  ghost predicate RefusedAt(t: RecordType, overrides: seq<Pair>, strict: bool, status: Status, failed: Option<Text>,
      i: nat)
    requires i < |overrides|
  {
    && EntryStatus(t, overrides[i], strict) == status != Ok && failed == Some(overrides[i].key)
    && forall j | 0 <= j < i :: EntryStatus(t, overrides[j], strict) == Ok
  }

  /** `try_apply_map`, from the defaults for a new record or from a record to merge. */
  method TryApply(t: RecordType, initial: Values, overrides: seq<Pair>, strict: bool) returns (r: Tried<Rec>)
    requires ValidType(t) && Fits(initial, t.schema)
    requires Distinct(overrides)
    ensures r.Made? ==>
      && ValidRec(r.value) && r.value.type_ == t
      && Applied(initial, overrides, |overrides|, r.value.values)
    ensures Accepted(t, overrides, |overrides|, strict) ==>
      exists values :: Applied(initial, overrides, |overrides|, values) && r == Candidate(t, values)
    ensures !Accepted(t, overrides, |overrides|, strict) ==>
      r.Refused? && exists failed :: FirstRefused(t, overrides, strict, r.status, failed)
  {
    var status, failed, values := ApplyEntries(t, initial, overrides, strict);
    if status != Ok { return Refused(status); }
    r := Candidate(t, values);
  }

  // --------------------------------------------------------------- whole runs

  datatype SchemaOp = AddField(name: Text, type_: Type, default_: Value, validator: Value -> bool)

  function Added(s: Schema, o: SchemaOp): Tried<Schema> {
    SchemaTryAdd(s, o.name, o.type_, o.default_, o.validator)
  }

  function SchemaRun(s: Schema, ops: seq<SchemaOp>): Tried<Schema>
    decreases |ops|
  {
    if ops == [] then Made(s)
    else
      match Added(s, ops[0])
      case Refused(status) => Refused(status)
      case Made(s1) => SchemaRun(s1, ops[1..])
  }

  function FieldOf(o: SchemaOp): Field { Field(o.type_, o.default_, o.validator) }

  /** What a run has to say of its operation `i`: whether its name is taken, by the
      schema it began with or by an earlier operation, and whether its default is of its
      type and let through by its validator. */
  ghost function OpStatus(s: Schema, ops: seq<SchemaOp>, i: nat): Status
    requires i < |ops|
  {
    if ops[i].name in s.fields || (exists j | 0 <= j < i :: ops[j].name == ops[i].name) then DuplicateField
    else if !InType(ops[i].type_, ops[i].default_) then TypeMismatch
    else if !ops[i].validator(ops[i].default_) then FieldInvalid
    else Ok
  }

  /** Operation `i` is the first that a run cannot carry out, and `status` says why. */
  ghost predicate FirstBad(s: Schema, ops: seq<SchemaOp>, i: nat, status: Status) {
    && i < |ops| && OpStatus(s, ops, i) == status != Ok
    && forall j | 0 <= j < i :: OpStatus(s, ops, j) == Ok
  }

  /** A field as it was declared. */
  ghost predicate Declared(s: Schema, o: SchemaOp) {
    && o.name in s.fields && s.fields[o.name] == FieldOf(o)
    && o.name in s.defaults && s.defaults[o.name] == o.default_
  }

  ghost predicate Kept(s: Schema, s': Schema) {
    forall k | k in s.fields && k in s.defaults ::
      && k in s'.fields && s'.fields[k] == s.fields[k]
      && k in s'.defaults && s'.defaults[k] == s.defaults[k]
  }

  lemma AddedDeclares(s: Schema, o: SchemaOp)
    requires ValidSchema(s) && Added(s, o).Made?
    ensures var s' := Added(s, o).value;
      ValidSchema(s') && s'.fields.Keys == s.fields.Keys + {o.name} && Declared(s', o) && Kept(s, s')
  {}

  lemma StillDeclared(s: Schema, s': Schema, o: SchemaOp)
    requires Declared(s, o) && Kept(s, s')
    ensures Declared(s', o)
  {}

  /** However a schema was built, each of its fields holds the type, the default and the
      validator of the operation that added it, or is as it was, and accepts its default. */
  lemma {:induction false} SchemaRunValid(s: Schema, ops: seq<SchemaOp>)
    requires ValidSchema(s) && SchemaRun(s, ops).Made?
    ensures var s' := SchemaRun(s, ops).value;
      && ValidSchema(s')
      && s'.fields.Keys == s.fields.Keys + (set o | o in ops :: o.name)
      && (forall i | 0 <= i < |ops| :: Declared(s', ops[i]))
      && Kept(s, s')
    decreases |ops|
  {
    hide ValidSchema, Added, Declared;
    if ops != [] {
      var s1 := Added(s, ops[0]).value;
      AddedDeclares(s, ops[0]);
      SchemaRunValid(s1, ops[1..]);
      assert (set o | o in ops :: o.name) == {ops[0].name} + (set o | o in ops[1..] :: o.name);
      forall i | 0 <= i < |ops| ensures Declared(SchemaRun(s, ops).value, ops[i]) {
        if i > 0 { assert ops[i] == ops[1..][i - 1]; } else { StillDeclared(s1, SchemaRun(s, ops).value, ops[0]); }
      }
    }
  }

  /** A run is refused exactly when some operation cannot be carried out, with the
      status of the first of them. */
  lemma {:induction false} SchemaRunRefused(s: Schema, ops: seq<SchemaOp>)
    ensures SchemaRun(s, ops).Made? <==> forall i | 0 <= i < |ops| :: OpStatus(s, ops, i) == Ok
    ensures SchemaRun(s, ops).Refused? ==> exists i: nat :: FirstBad(s, ops, i, SchemaRun(s, ops).status)
    decreases |ops|
  {
    if ops != [] {
      var status := OpStatus(s, ops, 0);
      var first := Added(s, ops[0]);
      if first.Refused? {
        assert FirstBad(s, ops, 0, first.status);
      } else {
        var s1, rest := first.value, ops[1..];
        SchemaRunRefused(s1, rest);
        forall i | 0 < i < |ops| ensures OpStatus(s, ops, i) == OpStatus(s1, rest, i - 1) {
          StatusLater(s, ops, i, s1);
        }
        if SchemaRun(s1, rest).Refused? {
          var i: nat :| FirstBad(s1, rest, i, SchemaRun(s1, rest).status);
          assert FirstBad(s, ops, i + 1, SchemaRun(s1, rest).status);
        }
      }
    }
  }

  lemma StatusLater(s: Schema, ops: seq<SchemaOp>, i: nat, s1: Schema)
    requires 0 < i < |ops| && s1.fields.Keys == s.fields.Keys + {ops[0].name}
    ensures OpStatus(s, ops, i) == OpStatus(s1, ops[1..], i - 1)
  {
    var rest := ops[1..];
    if exists j | 0 <= j < i :: ops[j].name == ops[i].name {
      var j :| 0 <= j < i && ops[j].name == ops[i].name;
      if j > 0 { assert rest[j - 1] == ops[j]; }
    }
    if exists j | 0 <= j < i - 1 :: rest[j].name == rest[i - 1].name {
      var j :| 0 <= j < i - 1 && rest[j].name == rest[i - 1].name;
      assert ops[j + 1] == rest[j];
    }
  }

  /** A definition is made exactly when the whole accepts the defaults, and is valid. */
  lemma CreatedValid(d: Definition, s: Schema, validator: Values -> bool)
    requires ValidSchema(s)
    ensures TypeTryCreate(d, s, validator).Made? <==> validator(s.defaults)
    ensures TypeTryCreate(d, s, validator).Made? ==>
      ValidType(TypeTryCreate(d, s, validator).value) && ValidRec(Default(TypeTryCreate(d, s, validator).value))
  {}

  datatype Op = SetField(field: Text, value: Value) | ResetField(field: Text) | ClearAll
      | Merge(overrides: seq<Pair>, strict: bool)
              | FromMap(overrides: seq<Pair>, strict: bool)

  /** Whatever has been done to records of a type, in whatever order, and whatever was
      refused on the way, the record there is holds exactly the fields of its schema,
      each with a value its type and its validator accept, and the validator of the
      whole accepts it. */
  method Run(t: RecordType, ops: seq<Op>) returns (r: Rec, refused: nat)
    requires ValidType(t)
    requires forall n | 0 <= n < |ops| && (ops[n].Merge? || ops[n].FromMap?) ::
      forall i, j | 0 <= i < j < |ops[n].overrides| :: ops[n].overrides[i].key != ops[n].overrides[j].key
    ensures ValidRec(r) && r.type_ == t
  {
    r, refused := Default(t), 0;
    for n := 0 to |ops|
      invariant ValidRec(r) && r.type_ == t
    {
      var next: Tried<Rec>;
      match ops[n] {
        case SetField(field, v) => next := TrySet(r, field, v);
        case ResetField(field) => next := TryReset(r, field);
        case ClearAll => next := Made(Clear(r));
        case Merge(overrides, strict) => next := TryApply(t, r.values, overrides, strict);
        case FromMap(overrides, strict) => next := TryApply(t, t.schema.defaults, overrides, strict);
      }
      if next.Made? { r := next.value; } else { refused := refused + 1; }
    }
  }

  /** `try_set` is refused exactly for an unknown field, a value of another type, a value
      the field's validator rejects, or a new value that the whole does not accept, and
      says which; else one field changes, and only if the value is not equal to its own. */
  lemma SetRefusedWhen(r: Rec, field: Text, v: Value)
    requires ValidRec(r)
    ensures var s, t := r.type_.schema, TrySet(r, field, v);
      && (t == Refused(UnknownField) <==> field !in s.fields)
      && (t == Refused(TypeMismatch) <==> field in s.fields && !InType(s.fields[field].type_, v))
      && (t == Refused(FieldInvalid) <==>
           field in s.fields && InType(s.fields[field].type_, v) && !s.fields[field].validator(v))
      && (t == Refused(ValueInvalid) <==>
           field in s.fields && Holds(s.fields[field], v) && !Equal(r.values[field], v)
             && !r.type_.validator(r.values[field := v]))
      && (t.Refused? ==> t.status in {UnknownField, TypeMismatch, FieldInvalid, ValueInvalid})
      && (t.Made? ==> ValidRec(t.value) && t.value.type_ == r.type_)
      && (t.Made? ==> t.value.values == r.values[field := Overridden(r.values[field], v)])
  {
    hide InType, Equal;
    if field in r.values { assert r.values[field := r.values[field]] == r.values; }
  }

  /** `try_reset` gives a field its default back and changes no other. It is refused only
      for an unknown field, or when the whole does not accept what that leaves. */
  lemma ResetRestores(r: Rec, field: Text)
    requires ValidRec(r)
    ensures var s, t := r.type_.schema, TryReset(r, field);
      && (t == Refused(UnknownField) <==> field !in s.fields)
      && (t == Refused(ValueInvalid) <==>
           field in s.fields && !Equal(r.values[field], s.fields[field].default_)
             && !r.type_.validator(r.values[field := s.fields[field].default_]))
      && (t.Refused? ==> t.status in {UnknownField, ValueInvalid})
      && (t.Made? ==> ValidRec(t.value) && Equal(t.value.values[field], s.defaults[field]))
      && (t.Made? ==> forall k | k in r.values && k != field :: t.value.values[k] == r.values[k])
  {
    if field in r.values {
      SetRefusedWhen(r, field, r.type_.schema.fields[field].default_);
      Reflexive(r.type_.schema.fields[field].default_);
    }
  }

  /** Clearing undoes every change. */
  lemma ClearIsDefault(r: Rec)
    requires ValidRec(r)
    ensures Clear(r) == Default(r.type_) && ValidRec(Clear(r))
  {}

  // --------------------------------------------------------------- transients

  /** A builder of records: between freezes only the fields are checked. */
  class Builder {
    const type_: RecordType
    var values: Values
    var active: bool

    ghost predicate Valid()
      reads this
    {
      ValidType(type_) && Fits(values, type_.schema)
    }

    constructor (r: Rec)
      requires ValidRec(r)
      ensures Valid() && active && values == r.values && type_ == r.type_
    {
      type_, values, active := r.type_, r.values, true;
    }

    method TrySetField(field: Text, v: Value) returns (trapped: bool, status: Status)
      requires Valid()
      modifies this
      ensures Valid() && active == old(active)
      ensures trapped <==> !active && field in type_.schema.fields && FieldStatus(type_.schema.fields[field], v) == Ok
      ensures !trapped ==> status == if field in type_.schema.fields then FieldStatus(type_.schema.fields[field], v)
        else UnknownField
      ensures values == if !trapped && status == Ok then old(values)[field := Overridden(old(values)[field], v)]
        else old(values)
    {
      if field !in type_.schema.fields { return false, UnknownField; }
      status := FieldStatus(type_.schema.fields[field], v);
      if status != Ok { return false, status; }
      if !active { return true, Ok; }
      if Equal(values[field], v) {
        assert values[field := values[field]] == values;
        return false, Ok;
      }
      values := values[field := v];
      return false, Ok;
    }

    /** The freeze uses the builder up even when the result is refused. */
    method TryPersistent() returns (trapped: bool, r: Tried<Rec>)
      requires Valid()
      modifies this
      ensures trapped <==> !old(active)
      ensures !active && values == old(values)
      ensures !trapped ==> (r.Made? <==> type_.validator(values))
      ensures !trapped && r.Made? ==> ValidRec(r.value) && r.value == Rec(type_, values)
      ensures !trapped && r.Refused? ==> r.status == ValueInvalid
    {
      r := Refused(ValueInvalid);
      if !active { return true, r; }
      active := false;
      return false, Candidate(type_, values);
    }
  }
}
