// What Wisp's equality is about: a value with all that equality does not look at
// taken out of it.
module WispForms {
  import opened Unordered
  import opened WispValues

  /** There is one form for lists and vectors, one for every NaN and one for both zeros,
      and the contents of maps and sets have no order. */
  datatype Form =
    | FNil
    | FInt(n: int)
    | FNaN
    | FZero
    | FDouble(bits: nat)
    | FBool(b: bool)
    | FText(keyword: bool, bytes: Bytes)
    | FSequence(items: seq<Form>)
    | FMap(pairs: set<(Form, Form)>)
    | FSet(members: set<Form>)
    | FOpaque(id: nat)
    | FRecord(name: Bytes, data: seq<Form>)

  ghost function FormOf(v: Value): Form
    decreases Height(v), 1
  {
    match v
    case Nil => FNil
    case Int(n) => FInt(n)
    case Double(NaN(_)) => FNaN
    case Double(Zero(_)) => FZero
    case Double(Other(bits)) => FDouble(bits)
    case Bool(b) => FBool(b)
    case Text(k, bytes) => FText(k, bytes)
    case Sequence(_, xs) => FSequence(FormsOf(xs))
    case Map(ps) => FMap(Items(PairFormsOf(ps)))
    case Set(xs) => FSet(Items(FormsOf(xs)))
    case Opaque(id) => FOpaque(id)
    case Record(name, xs) => FRecord(name, FormsOf(xs))
  }

  ghost function FormsOf(xs: seq<Value>): (fs: seq<Form>)
    ensures |fs| == |xs| && forall i | 0 <= i < |xs| :: fs[i] == FormOf(xs[i])
    decreases Tallest(xs) + 1, 0
  {
    seq(|xs|, i requires 0 <= i < |xs| => FormOf(xs[i]))
  }

  ghost function PairFormsOf(ps: seq<Pair>): (fs: seq<(Form, Form)>)
    ensures |fs| == |ps| && forall i | 0 <= i < |ps| :: fs[i] == (FormOf(ps[i].key), FormOf(ps[i].item))
    decreases TallestPair(ps) + 1, 0
  {
    seq(|ps|, i requires 0 <= i < |ps| =>
      assert PairHeight(ps[i]) <= TallestPair(ps);
      (FormOf(ps[i].key), FormOf(ps[i].item)))
  }

  function Higher(a: nat, b: nat): nat { if a > b then a else b }

  /** Values are equal exactly when their forms are the same. */
  lemma {:induction false} EqualIsSameForm(a: Value, b: Value)
    requires Wf(a) && Wf(b)
    ensures Equal(a, b) <==> FormOf(a) == FormOf(b)
    decreases Higher(Height(a), Height(b)), 2
  {
    match (a, b)
    case (Sequence(_, xs), Sequence(_, ys)) => InOrder(xs, ys);
    case (Record(_, xs), Record(_, ys)) => InOrder(xs, ys);
    case (Set(xs), Set(ys)) => SetsSameForm(xs, ys);
    case (Map(ps), Map(qs)) => MapsSameForm(ps, qs);
    case _ =>
  }

  ghost predicate AllWf(xs: seq<Value>) { forall i | 0 <= i < |xs| :: Wf(xs[i]) }

  lemma {:induction false} InOrder(xs: seq<Value>, ys: seq<Value>)
    requires AllWf(xs) && AllWf(ys)
    ensures (|xs| == |ys| && forall i | 0 <= i < |xs| :: Equal(xs[i], ys[i])) <==> FormsOf(xs) == FormsOf(ys)
    decreases Higher(Tallest(xs), Tallest(ys)) + 1, 0
  {
    if |xs| == |ys| {
      forall i | 0 <= i < |xs| ensures Equal(xs[i], ys[i]) <==> FormOf(xs[i]) == FormOf(ys[i]) {
        EqualIsSameForm(xs[i], ys[i]);
      }
    }
  }

  lemma {:induction false} SetFormsApart(xs: seq<Value>)
    requires Wf(Set(xs))
    ensures NoTwice(FormsOf(xs))
    decreases Tallest(xs) + 1, 0
  {
    forall i, j | 0 <= i < j < |xs| ensures FormOf(xs[i]) != FormOf(xs[j]) {
      EqualIsSameForm(xs[i], xs[j]);
    }
  }

  lemma {:induction false} SetsSameForm(xs: seq<Value>, ys: seq<Value>)
    requires Wf(Set(xs)) && Wf(Set(ys))
    ensures Equal(Set(xs), Set(ys)) <==> FormOf(Set(xs)) == FormOf(Set(ys))
    decreases Higher(Tallest(xs), Tallest(ys)) + 1, 1
  {
    var fs, gs := FormsOf(xs), FormsOf(ys);
    SetFormsApart(xs);
    SetFormsApart(ys);
    forall i, j | 0 <= i < |xs| && 0 <= j < |ys| ensures Equal(ys[j], xs[i]) <==> gs[j] == fs[i] {
      EqualIsSameForm(ys[j], xs[i]);
    }
    forall i | 0 <= i < |xs| ensures HasItem(ys, xs[i]) <==> fs[i] in gs {
      if fs[i] in gs {
        var j :| 0 <= j < |gs| && gs[j] == fs[i];
        assert Equal(ys[j], xs[i]);
      }
    }
    if Equal(Set(xs), Set(ys)) { SameItems(fs, gs); }
    if Items(fs) == Items(gs) {
      NoTwiceSize(fs);
      NoTwiceSize(gs);
      forall i | 0 <= i < |fs| ensures fs[i] in gs { assert fs[i] in Items(gs); }
    }
  }

  lemma {:induction false} MapFormsApart(ps: seq<Pair>)
    requires Wf(Map(ps))
    ensures NoTwice(PairFormsOf(ps))
    decreases TallestPair(ps) + 1, 0
  {
    forall i, j | 0 <= i < j < |ps| ensures FormOf(ps[i].key) != FormOf(ps[j].key) {
      PairAt(ps, i);
      PairAt(ps, j);
      EqualIsSameForm(ps[i].key, ps[j].key);
    }
  }

  lemma PairAt(ps: seq<Pair>, i: nat)
    requires Wf(Map(ps)) && i < |ps|
    ensures Height(ps[i].key) <= TallestPair(ps) && Height(ps[i].item) <= TallestPair(ps)
    ensures PairHeight(ps[i]) <= TallestPair(ps) && Wf(ps[i].key) && Wf(ps[i].item)
  {}

  lemma {:induction false} MapsSameForm(ps: seq<Pair>, qs: seq<Pair>)
    requires Wf(Map(ps)) && Wf(Map(qs))
    ensures Equal(Map(ps), Map(qs)) <==> FormOf(Map(ps)) == FormOf(Map(qs))
    decreases Higher(TallestPair(ps), TallestPair(qs)) + 1, 1
  {
    hide Wf, FormOf, PairHeight, Equal;
    var fs, gs := PairFormsOf(ps), PairFormsOf(qs);
    MapFormsApart(ps);
    MapFormsApart(qs);
    forall i | 0 <= i < |ps| ensures HasPair(qs, ps[i]) <==> fs[i] in gs {
      PairSameForm(ps, i, qs);
    }
    MapsCompare(ps, qs);
    if Equal(Map(ps), Map(qs)) { SameItems(fs, gs); }
    if Items(fs) == Items(gs) {
      NoTwiceSize(fs);
      NoTwiceSize(gs);
      forall i | 0 <= i < |fs| ensures fs[i] in gs { assert fs[i] in Items(gs); }
    }
  }

  lemma MapsCompare(ps: seq<Pair>, qs: seq<Pair>)
    ensures Equal(Map(ps), Map(qs)) <==> |ps| == |qs| && forall i | 0 <= i < |ps| :: HasPair(qs, ps[i])
    ensures FormOf(Map(ps)) == FormOf(Map(qs)) <==> Items(PairFormsOf(ps)) == Items(PairFormsOf(qs))
  {}

  lemma {:induction false} PairSameForm(ps: seq<Pair>, i: nat, qs: seq<Pair>)
    requires Wf(Map(ps)) && Wf(Map(qs)) && i < |ps|
    ensures HasPair(qs, ps[i]) <==> PairFormsOf(ps)[i] in PairFormsOf(qs)
    decreases Higher(TallestPair(ps), TallestPair(qs)) + 1, 0
  {
    hide Wf, FormOf, Equal;
    var gs, p := PairFormsOf(qs), ps[i];
    PairAt(ps, i);
    forall j | 0 <= j < |qs|
      ensures Equal(qs[j].key, p.key) && Equal(p.item, qs[j].item) <==> gs[j] == (FormOf(p.key), FormOf(p.item))
    {
      PairAt(qs, j);
      EqualIsSameForm(qs[j].key, p.key);
      EqualIsSameForm(p.item, qs[j].item);
    }
    if PairFormsOf(ps)[i] in gs {
      var j :| 0 <= j < |gs| && gs[j] == PairFormsOf(ps)[i];
      PairAt(qs, j);
    }
  }
}
