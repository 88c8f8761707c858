// Structural equality and hashing of the standard library's values.
//
// A map or a set is the list of what a traversal of it meets, in whatever order its
// trie has; looking a key up is finding it in that list.
module StructuralValues {
  import opened Arithmetic
  import opened Bits
  import opened Outcomes
  import opened Unordered

  type Text = seq<nat>

  /** An opaque payload: a reference that can be compared, or one that cannot. */
  datatype Payload = NoPayload | Comparable(id: nat) | Opaque

  datatype Definition = Definition(id: nat, name: Text)

  datatype Value =
    | Null
    | Bool(b: bool)
    | Str(text: Text)
    | I32(n: int)
    | I64(n: int)
    | F32(bits: nat)
    | F64(bits: nat)
    | Vector(items: seq<Value>)
    | Map(pairs: seq<Pair>)
    | Any(box: nat, payload: Payload)
    | Set(items: seq<Value>)
    | OrderedMap(pairs: seq<Pair>)
    | OrderedSet(items: seq<Value>)
    | Record(definition: Definition, pairs: seq<Pair>)

  datatype Pair = Pair(key: Text, value: Value)

  function Height(v: Value): nat {
    match v
    case Vector(xs) => 1 + Tallest(xs)
    case Set(xs) => 1 + Tallest(xs)
    case OrderedSet(xs) => 1 + Tallest(xs)
    case Map(ps) => 1 + TallestPair(ps)
    case OrderedMap(ps) => 1 + TallestPair(ps)
    case Record(_, ps) => 1 + TallestPair(ps)
    case _ => 0
  }

  function Tallest(xs: seq<Value>): (h: nat)
    ensures forall i | 0 <= i < |xs| :: Height(xs[i]) <= h
  {
    if xs == [] then 0
    else
      var h, rest := Height(xs[0]), Tallest(xs[1..]);
      assert forall i | 1 <= i < |xs| :: xs[i] == xs[1..][i - 1];
      if h > rest then h else rest
  }

  function TallestPair(ps: seq<Pair>): (h: nat)
    ensures forall i | 0 <= i < |ps| :: Height(ps[i].value) <= h
  {
    if ps == [] then 0
    else
      var p := ps[0];
      assert p.value < p;
      var h, rest := Height(p.value), TallestPair(ps[1..]);
      assert forall i | 1 <= i < |ps| :: ps[i] == ps[1..][i - 1];
      if h > rest then h else rest
  }

  // ---------------------------------------------------------------- equality

  predicate Equal(a: Value, b: Value)
    decreases Height(a) + Height(b), 1
  {
    match (a, b)
    case (Null, Null) => true
    case (Bool(x), Bool(y)) => x == y
    case (Str(x), Str(y)) => x == y
    case (I32(x), I32(y)) => x == y
    case (I64(x), I64(y)) => x == y
    case (F32(x), F32(y)) => x == y
    case (F64(x), F64(y)) => x == y
    case (Any(_, p), Any(_, q)) => a == b || (p == q && p != Opaque)
    case (Vector(xs), Vector(ys)) => |xs| == |ys| && forall i | 0 <= i < |xs| :: Equal(xs[i], ys[i])
    case (OrderedSet(xs), OrderedSet(ys)) => |xs| == |ys| && forall i | 0 <= i < |xs| :: Equal(xs[i], ys[i])
    case (Set(xs), Set(ys)) => |xs| == |ys| && forall i | 0 <= i < |xs| :: HasItem(ys, xs[i])
    case (OrderedMap(ps), OrderedMap(qs)) => |ps| == |qs| && forall i | 0 <= i < |ps| ::
      && ps[i].key == qs[i].key
      && Equal(ps[i].value, qs[i].value)
    case (Map(ps), Map(qs)) => EqualPairs(ps, qs)
    case (Record(d, ps), Record(e, qs)) => d == e && EqualPairs(ps, qs)
    case _ => false
  }

  predicate EqualPairs(ps: seq<Pair>, qs: seq<Pair>)
    decreases TallestPair(ps) + TallestPair(qs) + 2, 0
  {
    |ps| == |qs| && forall i | 0 <= i < |ps| :: HasPair(qs, ps[i])
  }

  /** A set is asked for an item: its own come first in the comparison. */
  predicate HasItem(ys: seq<Value>, x: Value)
    decreases Tallest(ys) + Height(x) + 1, 0
  {
    exists j | 0 <= j < |ys| :: Equal(ys[j], x)
  }

  predicate HasPair(qs: seq<Pair>, p: Pair)
    decreases TallestPair(qs) + Height(p.value) + 1, 0
  {
    exists j | 0 <= j < |qs| :: qs[j].key == p.key && Equal(p.value, qs[j].value)
  }

  /** Maps have no key twice, and sets no two equal items. */
  ghost predicate Wf(v: Value)
    decreases Height(v), 1
  {
    match v
    case Vector(xs) => forall i | 0 <= i < |xs| :: Wf(xs[i])
    case OrderedSet(xs) => forall i | 0 <= i < |xs| :: Wf(xs[i])
    case Set(xs) =>
      && (forall i | 0 <= i < |xs| :: Wf(xs[i]))
      && (forall i, j | 0 <= i < |xs| && 0 <= j < |xs| && i != j :: !Equal(xs[i], xs[j]))
    case OrderedMap(ps) => forall i | 0 <= i < |ps| :: Wf(ps[i].value)
    case Map(ps) => WfPairs(ps)
    case Record(_, ps) => WfPairs(ps)
    case _ => true
  }

  ghost predicate WfPairs(ps: seq<Pair>)
    decreases TallestPair(ps) + 1, 0
  {
    && (forall i | 0 <= i < |ps| :: Wf(ps[i].value))
    && (forall i, j | 0 <= i < |ps| && 0 <= j < |ps| && i != j :: ps[i].key != ps[j].key)
  }

  // ------------------------------------------------------------- equivalence

  lemma {:induction false} Reflexive(a: Value)
    ensures Equal(a, a)
    decreases Height(a)
  {
    match a
    case Vector(xs) => forall i | 0 <= i < |xs| ensures Equal(xs[i], xs[i]) { Reflexive(xs[i]); }
    case OrderedSet(xs) => forall i | 0 <= i < |xs| ensures Equal(xs[i], xs[i]) { Reflexive(xs[i]); }
    case Set(xs) => forall i | 0 <= i < |xs| ensures HasItem(xs, xs[i]) { Reflexive(xs[i]); }
    case OrderedMap(ps) => forall i | 0 <= i < |ps| ensures Equal(ps[i].value, ps[i].value) { Reflexive(ps[i].value); }
    case Map(ps) => forall i | 0 <= i < |ps| ensures HasPair(ps, ps[i]) { Reflexive(ps[i].value); }
    case Record(_, ps) => forall i | 0 <= i < |ps| ensures HasPair(ps, ps[i]) { Reflexive(ps[i].value); }
    case _ =>
  }

  lemma {:induction false} Transitive(a: Value, b: Value, c: Value)
    requires Equal(a, b) && Equal(b, c)
    ensures Equal(a, c)
    decreases Height(a) + Height(b) + Height(c)
  {
    match a
    case Vector(xs) =>
      forall i | 0 <= i < |xs| ensures Equal(xs[i], c.items[i]) { Transitive(xs[i], b.items[i], c.items[i]); }
    case OrderedSet(xs) =>
      forall i | 0 <= i < |xs| ensures Equal(xs[i], c.items[i]) { Transitive(xs[i], b.items[i], c.items[i]); }
    case Set(xs) =>
      forall i | 0 <= i < |xs| ensures HasItem(c.items, xs[i]) {
        assert HasItem(b.items, xs[i]);
        var j :| 0 <= j < |b.items| && Equal(b.items[j], xs[i]);
        assert HasItem(c.items, b.items[j]);
        var k :| 0 <= k < |c.items| && Equal(c.items[k], b.items[j]);
        Transitive(c.items[k], b.items[j], xs[i]);
      }
    case OrderedMap(ps) =>
      forall i | 0 <= i < |ps| ensures Equal(ps[i].value, c.pairs[i].value)
        { Transitive(ps[i].value, b.pairs[i].value, c.pairs[i].value); }
    case Map(ps) => TransitivePairs(ps, b.pairs, c.pairs);
    case Record(_, ps) => TransitivePairs(ps, b.pairs, c.pairs);
    case _ =>
  }

  lemma {:induction false} TransitivePairs(ps: seq<Pair>, qs: seq<Pair>, rs: seq<Pair>)
    requires EqualPairs(ps, qs) && EqualPairs(qs, rs)
    ensures EqualPairs(ps, rs)
    decreases TallestPair(ps) + TallestPair(qs) + TallestPair(rs) + 1
  {
    forall i | 0 <= i < |ps| ensures HasPair(rs, ps[i]) {
      assert HasPair(qs, ps[i]);
      var j :| 0 <= j < |qs| && qs[j].key == ps[i].key && Equal(ps[i].value, qs[j].value);
      assert HasPair(rs, qs[j]);
      var k :| 0 <= k < |rs| && rs[k].key == qs[j].key && Equal(qs[j].value, rs[k].value);
      Transitive(ps[i].value, qs[j].value, rs[k].value);
    }
  }

  /** Equality does not depend on which side is asked, even for sets and maps, where
      only one side is searched. */
  lemma {:induction false} Symmetric(a: Value, b: Value)
    requires Wf(a) && Wf(b) && Equal(a, b)
    ensures Equal(b, a)
    decreases if Height(a) > Height(b) then Height(a) else Height(b), 1
  {
    match a
    case Vector(xs) => forall i | 0 <= i < |xs| ensures Equal(b.items[i], xs[i]) { Symmetric(xs[i], b.items[i]); }
    case OrderedSet(xs) => forall i | 0 <= i < |xs| ensures Equal(b.items[i], xs[i]) { Symmetric(xs[i], b.items[i]); }
    case OrderedMap(ps) => forall i | 0 <= i < |ps|
        ensures Equal(b.pairs[i].value, ps[i].value) { Symmetric(ps[i].value, b.pairs[i].value); }
    case Set(xs) =>
      SetMatched(xs, b.items);
      AllSought(xs, b.items, SameItem);
      forall j | 0 <= j < |b.items| ensures HasItem(xs, b.items[j]) {
        assert Sought(xs, b.items[j], SameItem);
        var i :| 0 <= i < |xs| && SameItem(b.items[j], xs[i]);
        Symmetric(b.items[j], xs[i]);
      }
    case Map(ps) => SymmetricPairs(ps, b.pairs);
    case Record(_, ps) => SymmetricPairs(ps, b.pairs);
    case _ =>
  }

  lemma {:induction false} SymmetricPairs(ps: seq<Pair>, qs: seq<Pair>)
    requires WfPairs(ps) && WfPairs(qs) && EqualPairs(ps, qs)
    ensures EqualPairs(qs, ps)
    decreases if TallestPair(ps) > TallestPair(qs) then TallestPair(ps) + 1 else TallestPair(qs) + 1, 0
  {
    hide Equal, Wf;
    PairsMatched(ps, qs);
    AllSought(ps, qs, SamePair);
    forall j | 0 <= j < |qs| ensures HasPair(ps, qs[j]) {
      assert Sought(ps, qs[j], SamePair);
      var i :| 0 <= i < |ps| && SamePair(qs[j], ps[i]);
      Symmetric(ps[i].value, qs[j].value);
    }
  }

  predicate SameItem(y: Value, x: Value) { Equal(y, x) }
  predicate SamePair(q: Pair, p: Pair) { q.key == p.key && Equal(p.value, q.value) }

  /** No two items of a set are equal to the same item. */
  lemma {:induction false} SetMatched(xs: seq<Value>, ys: seq<Value>)
    requires Wf(Set(xs)) && Wf(Set(ys)) && Equal(Set(xs), Set(ys))
    ensures Matched(xs, ys, SameItem)
    decreases if Tallest(xs) > Tallest(ys) then Tallest(xs) + 1 else Tallest(ys) + 1, 0
  {
    forall i | 0 <= i < |xs| ensures Partnered(ys, xs[i], SameItem) {
      assert HasItem(ys, xs[i]);
      var j :| 0 <= j < |ys| && Equal(ys[j], xs[i]);
      assert SameItem(ys[j], xs[i]);
    }
    forall i, k, j | 0 <= i < |xs| && 0 <= k < |xs| && i != k && 0 <= j < |ys|
      ensures !(SameItem(ys[j], xs[i]) && SameItem(ys[j], xs[k]))
    {
      assert !Equal(xs[i], xs[k]);
      if Equal(ys[j], xs[i]) {
        Symmetric(ys[j], xs[i]);
        if Equal(ys[j], xs[k]) { Transitive(xs[i], ys[j], xs[k]); }
      }
    }
  }

  lemma {:induction false} PairsMatched(ps: seq<Pair>, qs: seq<Pair>)
    requires WfPairs(ps) && EqualPairs(ps, qs)
    ensures Matched(ps, qs, SamePair)
  {
    forall i | 0 <= i < |ps| ensures Partnered(qs, ps[i], SamePair) {
      assert HasPair(qs, ps[i]);
      var j :| 0 <= j < |qs| && qs[j].key == ps[i].key && Equal(ps[i].value, qs[j].value);
      assert SamePair(qs[j], ps[i]);
    }
  }

  // ------------------------------------------------------------------ hashing

  /** The hashing module: total functions of which nothing is assumed. */
  datatype Hashing = Hashing(
    tag: nat -> nat, seeded: (int, nat) -> nat, add: (nat, int) -> nat, finalize: (nat, nat) -> nat,
    text: Text -> nat, low: int -> int, high: int -> int, spin: nat -> nat)

  type Sums = (nat, nat)

  function AddSums(s: Sums, t: Sums): Sums { ((s.0 + t.0) % WORD, Xor(s.1, t.1)) }

  /** What one hash contributes to an unordered collection. */
  function Contribution(h: nat, f: Hashing): Sums { (h * 0x9e37_79b1 % WORD, f.spin(h)) }

  function PairHash(p: Pair, h: nat, f: Hashing): Sums {
    Contribution(f.finalize(f.add(f.text(p.key), h), 8), f)
  }

  function Hash(v: Value, f: Hashing): nat
    decreases Height(v), 1
  {
    match v
    case Null => f.tag(0)
    case Bool(b) => f.seeded(if b then 1 else 0, f.tag(1))
    case Str(s) => f.seeded(f.text(s), f.tag(2))
    case I32(n) => f.seeded(n, f.tag(3))
    case I64(n) => f.finalize(f.add(f.add(f.tag(4), f.low(n)), f.high(n)), 8)
    case F32(bits) => f.seeded(bits, f.tag(5))
    case F64(bits) => f.finalize(f.add(f.add(f.tag(6), f.low(bits)), f.high(bits)), 8)
    case Vector(xs) => f.finalize(HashInOrder(xs, f.tag(7), f), |xs| * 4)
    case OrderedSet(xs) => f.finalize(HashInOrder(xs, f.tag(13), f), |xs| * 4)
    case OrderedMap(ps) => f.finalize(HashPairsInOrder(ps, f.tag(12), f), |ps| * 8)
    case Any(_, _) => f.tag(9)
    case Set(xs) =>
      var s := Fold(AddSums, (0, 0), seq(|xs|, i requires 0 <= i < |xs| => Contribution(Hash(xs[i], f), f)));
      f.finalize(f.add(f.add(f.tag(10), s.0), s.1), |xs| * 4)
    case Map(ps) => HashPairs(ps, f)
    case Record(d, ps) => f.add(f.add(f.tag(11), f.text(d.name)), HashPairs(ps, f))
  }

  function HashPairs(ps: seq<Pair>, f: Hashing): nat
    decreases TallestPair(ps) + 1, 0
  {
    var s := Fold(AddSums, (0, 0), seq(|ps|, i requires 0 <= i < |ps| => PairHash(ps[i], Hash(ps[i].value, f), f)));
    f.finalize(f.add(f.add(f.tag(8), s.0), s.1), |ps| * 8)
  }

  function HashInOrder(xs: seq<Value>, state: nat, f: Hashing): nat
    decreases Tallest(xs) + 1, 0, |xs|
  {
    if xs == [] then state
    else
      assert Tallest(xs) >= Height(xs[0]);
      HashInOrder(xs[1..], f.add(state, Hash(xs[0], f)), f)
  }

  function HashPairsInOrder(ps: seq<Pair>, state: nat, f: Hashing): nat
    decreases TallestPair(ps) + 1, 0, |ps|
  {
    if ps == [] then state
    else HashPairsInOrder(ps[1..], f.add(f.add(state, f.text(ps[0].key)), Hash(ps[0].value, f)), f)
  }

  lemma {:induction false} XorExchanges(s: nat, x: nat, y: nat)
    ensures Xor(Xor(s, x), y) == Xor(Xor(s, y), x)
    decreases s + x + y
  {
    XorHalves(s, x);
    XorHalves(s, y);
    XorHalves(Xor(s, x), y);
    XorHalves(Xor(s, y), x);
    if s + x + y > 0 { XorExchanges(s / 2, x / 2, y / 2); }
  }

  lemma XorHalves(x: nat, y: nat)
    ensures Xor(x, y) / 2 == Xor(x / 2, y / 2) && Xor(x, y) % 2 == (if x % 2 != y % 2 then 1 else 0)
  {}

  lemma SumsCommute()
    ensures Commutes(AddSums)
  {
    forall s: Sums, x: Sums, y: Sums ensures AddSums(AddSums(s, x), y) == AddSums(AddSums(s, y), x) {
      XorExchanges(s.1, x.1, y.1);
      WordsExchange(s.0, x.0, y.0);
    }
  }

  lemma WordsExchange(s: nat, x: nat, y: nat)
    ensures ((s + x) % WORD + y) % WORD == ((s + y) % WORD + x) % WORD
  {
    var t := s + x + y;
    assert (s + x) % WORD == s + x - WORD * ((s + x) / WORD);
    assert (s + y) % WORD == s + y - WORD * ((s + y) / WORD);
  }

  // ------------------------------------------------- equal values, equal hashes

  lemma {:induction false} HashSame(a: Value, b: Value, f: Hashing)
    requires Wf(a) && Wf(b) && Equal(a, b)
    ensures Hash(a, f) == Hash(b, f)
    decreases Height(a) + Height(b), 1
  {
    match a
    case Vector(xs) => OrderSame(xs, b.items, f.tag(7), f);
    case OrderedSet(xs) => OrderSame(xs, b.items, f.tag(13), f);
    case OrderedMap(ps) => PairOrderSame(ps, b.pairs, f.tag(12), f);
    case Set(xs) => SetSame(xs, b.items, f);
    case Map(ps) => PairsSame(ps, b.pairs, f);
    case Record(_, ps) => PairsSame(ps, b.pairs, f);
    case _ =>
  }

  lemma {:induction false} OrderSame(xs: seq<Value>, ys: seq<Value>, state: nat, f: Hashing)
    requires |xs| == |ys| && forall i | 0 <= i < |xs| :: Wf(xs[i]) && Wf(ys[i]) && Equal(xs[i], ys[i])
    ensures HashInOrder(xs, state, f) == HashInOrder(ys, state, f)
    decreases Tallest(xs) + Tallest(ys) + 1, 0, |xs|
  {
    if xs != [] {
      HashSame(xs[0], ys[0], f);
      OrderSame(xs[1..], ys[1..], f.add(state, Hash(xs[0], f)), f);
    }
  }

  lemma {:induction false} PairOrderSame(ps: seq<Pair>, qs: seq<Pair>, state: nat, f: Hashing)
    requires |ps| == |qs|
    requires forall i | 0 <= i < |ps| ::
      && Wf(ps[i].value) && Wf(qs[i].value) && ps[i].key == qs[i].key
      && Equal(ps[i].value, qs[i].value)
    ensures HashPairsInOrder(ps, state, f) == HashPairsInOrder(qs, state, f)
    decreases TallestPair(ps) + TallestPair(qs) + 1, 0, |ps|
  {
    if ps != [] {
      HashSame(ps[0].value, qs[0].value, f);
      PairOrderSame(ps[1..], qs[1..], f.add(f.add(state, f.text(ps[0].key)), Hash(ps[0].value, f)), f);
    }
  }

  lemma {:induction false} SetSame(xs: seq<Value>, ys: seq<Value>, f: Hashing)
    requires Wf(Set(xs)) && Wf(Set(ys)) && Equal(Set(xs), Set(ys))
    ensures Hash(Set(xs), f) == Hash(Set(ys), f)
    decreases Tallest(xs) + Tallest(ys) + 2, 0
  {
    hide Wf;
    SetItemsWf(xs);
    SetItemsWf(ys);
    var h := (x: Value) => Contribution(Hash(x, f), f);
    SetMatched(xs, ys);
    SumsCommute();
    forall i, j | 0 <= i < |xs| && 0 <= j < |ys| && SameItem(ys[j], xs[i]) ensures h(xs[i]) == h(ys[j]) {
      HashSame(ys[j], xs[i], f);
    }
    FoldMatched(xs, ys, SameItem, h, AddSums, (0, 0));
    SetHashIs(xs, f);
    SetHashIs(ys, f);
  }

  lemma SetItemsWf(xs: seq<Value>)
    requires Wf(Set(xs))
    ensures forall i | 0 <= i < |xs| :: Wf(xs[i])
  {}

  lemma SetHashIs(xs: seq<Value>, f: Hashing)
    ensures var s := Fold(AddSums, (0, 0), Mapped((x: Value) => Contribution(Hash(x, f), f), xs));
      Hash(Set(xs), f) == f.finalize(f.add(f.add(f.tag(10), s.0), s.1), |xs| * 4)
  {
    var h := (x: Value) => Contribution(Hash(x, f), f);
    assert seq(|xs|, i requires 0 <= i < |xs| => Contribution(Hash(xs[i], f), f)) == Mapped(h, xs);
  }

  lemma {:induction false} PairsSame(ps: seq<Pair>, qs: seq<Pair>, f: Hashing)
    requires WfPairs(ps) && WfPairs(qs) && EqualPairs(ps, qs)
    ensures HashPairs(ps, f) == HashPairs(qs, f)
    decreases TallestPair(ps) + TallestPair(qs) + 2, 0
  {
    var h := (p: Pair) => PairHash(p, Hash(p.value, f), f);
    PairsMatched(ps, qs);
    SumsCommute();
    forall i, j | 0 <= i < |ps| && 0 <= j < |qs| && SamePair(qs[j], ps[i]) ensures h(ps[i]) == h(qs[j]) {
      HashSame(ps[i].value, qs[j].value, f);
    }
    FoldMatched(ps, qs, SamePair, h, AddSums, (0, 0));
    assert seq(|ps|, i requires 0 <= i < |ps| => PairHash(ps[i], Hash(ps[i].value, f), f)) == Mapped(h, ps);
    assert seq(|qs|, i requires 0 <= i < |qs| => PairHash(qs[i], Hash(qs[i].value, f), f)) == Mapped(h, qs);
  }
}
