// What structural equality is about: a value without the order of its unordered
// collections, and without the boxes of payloads that can be compared.
module StructuralForms {
  import opened Unordered
  import opened StructuralValues

  datatype Form =
    | FNull
    | FBool(b: bool)
    | FStr(text: Text)
    | FI32(n: int)
    | FI64(n: int)
    | FF32(bits: nat)
    | FF64(bits: nat)
    | FVector(items: seq<Form>)
    | FMap(pairs: set<(Text, Form)>)
    | FPayload(payload: Payload)
    | FBox(box: nat)
    | FSet(members: set<Form>)
    | FOrderedMap(entries: seq<(Text, Form)>)
    | FOrderedSet(items: seq<Form>)
    | FRecord(definition: Definition, pairs: set<(Text, Form)>)

  ghost function FormOf(v: Value): Form
    decreases Height(v), 1
  {
    match v
    case Null => FNull
    case Bool(b) => FBool(b)
    case Str(s) => FStr(s)
    case I32(n) => FI32(n)
    case I64(n) => FI64(n)
    case F32(bits) => FF32(bits)
    case F64(bits) => FF64(bits)
    case Vector(xs) => FVector(FormsOf(xs))
    case Map(ps) => FMap(Items(PairFormsOf(ps)))
    case Any(box, payload) => if payload.Opaque? then FBox(box) else FPayload(payload)
    case Set(xs) => FSet(Items(FormsOf(xs)))
    case OrderedMap(ps) => FOrderedMap(PairFormsOf(ps))
    case OrderedSet(xs) => FOrderedSet(FormsOf(xs))
    case Record(d, ps) => FRecord(d, Items(PairFormsOf(ps)))
  }

  ghost function FormsOf(xs: seq<Value>): (fs: seq<Form>)
    ensures |fs| == |xs| && forall i | 0 <= i < |xs| :: fs[i] == FormOf(xs[i])
    decreases Tallest(xs) + 1, 0
  {
    seq(|xs|, i requires 0 <= i < |xs| => FormOf(xs[i]))
  }

  ghost function PairFormsOf(ps: seq<Pair>): (fs: seq<(Text, Form)>)
    ensures |fs| == |ps| && forall i | 0 <= i < |ps| :: fs[i] == (ps[i].key, FormOf(ps[i].value))
    decreases TallestPair(ps) + 1, 0
  {
    seq(|ps|, i requires 0 <= i < |ps| => (ps[i].key, FormOf(ps[i].value)))
  }

  function Higher(a: nat, b: nat): nat { if a > b then a else b }

  /** Values are equal exactly when their forms are the same. */
  lemma {:induction false} EqualIsSameForm(a: Value, b: Value)
    requires Wf(a) && Wf(b)
    ensures Equal(a, b) <==> FormOf(a) == FormOf(b)
    decreases Higher(Height(a), Height(b)), 2
  {
    hide Equal, FormOf, Wf;
    Parts(a);
    Parts(b);
    match a
    case Vector(xs) => if b.Vector? { InOrder(xs, b.items); CompareLists(a, b); } else { Unlike(a, b); }
    case OrderedSet(xs) => if b.OrderedSet? { InOrder(xs, b.items); CompareLists(a, b); } else { Unlike(a, b); }
    case OrderedMap(ps) => if b.OrderedMap? { PairsInOrder(ps, b.pairs); } else { Unlike(a, b); }
    case Set(xs) => if b.Set? { SetsSameForm(xs, b.items); } else { Unlike(a, b); }
    case Map(ps) => if b.Map? { PairsSameForm(ps, b.pairs); ComparePairs(a, b); } else { Unlike(a, b); }
    case Record(_, ps) => if b.Record? { PairsSameForm(ps, b.pairs); ComparePairs(a, b); } else { Unlike(a, b); }
    case _ => ScalarForm(a, b);
  }

  predicate Scalar(v: Value) {
    !v.Vector? && !v.OrderedSet? && !v.OrderedMap? && !v.Set? && !v.Map? && !v.Record?
  }

  lemma ScalarForm(a: Value, b: Value)
    requires Scalar(a)
    ensures Equal(a, b) <==> FormOf(a) == FormOf(b)
  {
    if !Scalar(b) { Unlike(b, a); Unlike(a, b); }
  }

  /** Values of different kinds are not equal, nor do they have the same form. */
  lemma Unlike(a: Value, b: Value)
    requires match a
      case Vector(_) => !b.Vector?
      case OrderedSet(_) => !b.OrderedSet?
      case OrderedMap(_) => !b.OrderedMap?
      case Set(_) => !b.Set?
      case Map(_) => !b.Map?
      case Record(_, _) => !b.Record?
      case _ => !Scalar(b)
    ensures !Equal(a, b) && FormOf(a) != FormOf(b)
  {}

  lemma CompareLists(a: Value, b: Value)
    requires (a.Vector? && b.Vector?) || (a.OrderedSet? && b.OrderedSet?)
    ensures Equal(a, b) <==> |a.items| == |b.items| && forall i | 0 <= i < |a.items| :: Equal(a.items[i], b.items[i])
    ensures FormOf(a) == FormOf(b) <==> FormsOf(a.items) == FormsOf(b.items)
  {}

  lemma ComparePairs(a: Value, b: Value)
    requires (a.Map? && b.Map?) || (a.Record? && b.Record?)
    ensures Equal(a, b) <==> (a.Map? || a.definition == b.definition) && EqualPairs(a.pairs, b.pairs)
    ensures FormOf(a) == FormOf(b) <==>
      (a.Map? || a.definition == b.definition) && Items(PairFormsOf(a.pairs)) == Items(PairFormsOf(b.pairs))
  {}

  lemma Parts(v: Value)
    requires Wf(v)
    ensures v.Vector? || v.OrderedSet? ==> AllWf(v.items)
    ensures v.Map? || v.Record? ==> WfPairs(v.pairs)
    ensures v.Vector? || v.OrderedSet? || v.Set? ==> Height(v) == Tallest(v.items) + 1
    ensures v.Map? || v.Record? || v.OrderedMap? ==> Height(v) == TallestPair(v.pairs) + 1
  {}

  ghost predicate AllWf(xs: seq<Value>) { forall i | 0 <= i < |xs| :: Wf(xs[i]) }

  lemma {:induction false} InOrder(xs: seq<Value>, ys: seq<Value>)
    requires AllWf(xs) && AllWf(ys)
    ensures (|xs| == |ys| && forall i | 0 <= i < |xs| :: Equal(xs[i], ys[i])) <==> FormsOf(xs) == FormsOf(ys)
    decreases Higher(Tallest(xs), Tallest(ys)) + 1, 0
  {
    if |xs| == |ys| {
      forall i | 0 <= i < |xs| ensures Equal(xs[i], ys[i]) <==> FormOf(xs[i]) == FormOf(ys[i]) {
        EqualIsSameForm(xs[i], ys[i]);
      }
    }
  }

  lemma {:induction false} PairsInOrder(ps: seq<Pair>, qs: seq<Pair>)
    requires Wf(OrderedMap(ps)) && Wf(OrderedMap(qs))
    ensures Equal(OrderedMap(ps), OrderedMap(qs)) <==> FormOf(OrderedMap(ps)) == FormOf(OrderedMap(qs))
    decreases Higher(TallestPair(ps), TallestPair(qs)) + 1, 0
  {
    var fs, gs := PairFormsOf(ps), PairFormsOf(qs);
    if |ps| == |qs| {
      forall i | 0 <= i < |ps| ensures ps[i].key == qs[i].key && Equal(ps[i].value, qs[i].value) <==> fs[i] == gs[i] {
        EqualIsSameForm(ps[i].value, qs[i].value);
      }
    }
  }

  lemma {:induction false} SetFormsApart(xs: seq<Value>)
    requires Wf(Set(xs))
    ensures NoTwice(FormsOf(xs))
    decreases Tallest(xs) + 1, 0
  {
    forall i, j | 0 <= i < j < |xs| ensures FormOf(xs[i]) != FormOf(xs[j]) {
      EqualIsSameForm(xs[i], xs[j]);
    }
  }

  lemma CompareSets(xs: seq<Value>, ys: seq<Value>)
    ensures Equal(Set(xs), Set(ys)) <==> |xs| == |ys| && forall i | 0 <= i < |xs| :: HasItem(ys, xs[i])
    ensures FormOf(Set(xs)) == FormOf(Set(ys)) <==> Items(FormsOf(xs)) == Items(FormsOf(ys))
  {}

  lemma {:induction false} SetsSameForm(xs: seq<Value>, ys: seq<Value>)
    requires Wf(Set(xs)) && Wf(Set(ys))
    ensures Equal(Set(xs), Set(ys)) <==> FormOf(Set(xs)) == FormOf(Set(ys))
    decreases Higher(Tallest(xs), Tallest(ys)) + 1, 1
  {
    hide Equal, FormOf;
    var fs, gs := FormsOf(xs), FormsOf(ys);
    SetFormsApart(xs);
    SetFormsApart(ys);
    forall i, j | 0 <= i < |xs| && 0 <= j < |ys| ensures Equal(ys[j], xs[i]) <==> gs[j] == fs[i] {
      EqualIsSameForm(ys[j], xs[i]);
    }
    forall i | 0 <= i < |xs| ensures HasItem(ys, xs[i]) <==> fs[i] in gs {
      if fs[i] in gs {
        var j :| 0 <= j < |gs| && gs[j] == fs[i];
        assert Equal(ys[j], xs[i]);
      }
    }
    CompareSets(xs, ys);
    if Equal(Set(xs), Set(ys)) { SameItems(fs, gs); }
    if Items(fs) == Items(gs) {
      NoTwiceSize(fs);
      NoTwiceSize(gs);
      forall i | 0 <= i < |fs| ensures fs[i] in gs { assert fs[i] in Items(gs); }
    }
  }

  lemma {:induction false} PairsSameForm(ps: seq<Pair>, qs: seq<Pair>)
    requires WfPairs(ps) && WfPairs(qs)
    ensures EqualPairs(ps, qs) <==> Items(PairFormsOf(ps)) == Items(PairFormsOf(qs))
    decreases Higher(TallestPair(ps), TallestPair(qs)) + 1, 1
  {
    hide Equal, Wf;
    var fs, gs := PairFormsOf(ps), PairFormsOf(qs);
    forall i | 0 <= i < |ps| ensures HasPair(qs, ps[i]) <==> fs[i] in gs {
      forall j | 0 <= j < |qs| ensures Equal(ps[i].value, qs[j].value) <==> fs[i].1 == gs[j].1 {
        EqualIsSameForm(ps[i].value, qs[j].value);
      }
      if fs[i] in gs {
        var j :| 0 <= j < |gs| && gs[j] == fs[i];
        assert qs[j].key == ps[i].key;
      }
    }
    if EqualPairs(ps, qs) { SameItems(fs, gs); }
    if Items(fs) == Items(gs) {
      NoTwiceSize(fs);
      NoTwiceSize(gs);
      forall i | 0 <= i < |fs| ensures fs[i] in gs { assert fs[i] in Items(gs); }
    }
  }
}
