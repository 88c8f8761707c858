// Equality and hashing of Wisp's values, by what the values hold.
//
// A map or a set is the list of its live entries in order; finding a key is finding
// an entry whose key is equal to it.
module WispValues {
  import opened Arithmetic
  import opened Bits
  import opened Outcomes
  import opened Unordered
  import S = StructuralValues

  type Bytes = seq<nat>

  /** A double, as far as comparing it goes. */
  datatype Float = NaN(payload: nat) | Zero(negative: bool) | Other(bits: nat)

  datatype Value =
    | Nil
    | Int(n: int)
    | Double(x: Float)
    | Bool(b: bool)
    | Text(keyword: bool, bytes: Bytes)
    | Sequence(list: bool, items: seq<Value>)
    | Map(pairs: seq<Pair>)
    | Set(items: seq<Value>)
    | Opaque(id: nat)
    | Record(name: Bytes, data: seq<Value>)

  datatype Pair = Pair(key: Value, item: Value)

  function Height(v: Value): nat {
    match v
    case Sequence(_, xs) => 1 + Tallest(xs)
    case Set(xs) => 1 + Tallest(xs)
    case Record(_, xs) => 1 + Tallest(xs)
    case Map(ps) => 1 + TallestPair(ps)
    case _ => 0
  }

  function Tallest(xs: seq<Value>): (h: nat)
    ensures forall i | 0 <= i < |xs| :: Height(xs[i]) <= h
  {
    if xs == [] then 0
    else
      var h, rest := Height(xs[0]), Tallest(xs[1..]);
      assert forall i | 1 <= i < |xs| :: xs[i] == xs[1..][i - 1];
      if h > rest then h else rest
  }

  function PairHeight(p: Pair): nat {
    if Height(p.key) > Height(p.item) then Height(p.key) else Height(p.item)
  }

  function TallestPair(ps: seq<Pair>): (h: nat)
    ensures forall i | 0 <= i < |ps| :: PairHeight(ps[i]) <= h
  {
    if ps == [] then 0
    else
      var h, rest := PairHeight(ps[0]), TallestPair(ps[1..]);
      assert forall i | 1 <= i < |ps| :: ps[i] == ps[1..][i - 1];
      if h > rest then h else rest
  }

  // ---------------------------------------------------------------- equality

  /** A NaN is equal to every NaN, and the zeros to each other. */
  predicate SameFloat(x: Float, y: Float) {
    match (x, y)
    case (NaN(_), NaN(_)) => true
    case (Zero(_), Zero(_)) => true
    case (Other(a), Other(b)) => a == b
    case _ => false
  }

  /** Lists and vectors compare alike; records of one name have the same fields. */
  predicate Equal(a: Value, b: Value)
    decreases Height(a) + Height(b), 1
  {
    match (a, b)
    case (Nil, Nil) => true
    case (Int(x), Int(y)) => x == y
    case (Double(x), Double(y)) => SameFloat(x, y)
    case (Bool(x), Bool(y)) => x == y
    case (Text(k, x), Text(l, y)) => k == l && x == y
    case (Opaque(x), Opaque(y)) => x == y
    case (Sequence(_, xs), Sequence(_, ys)) => |xs| == |ys| && forall i | 0 <= i < |xs| :: Equal(xs[i], ys[i])
    case (Record(m, xs), Record(n, ys)) => m == n && |xs| == |ys| && forall i | 0 <= i < |xs| :: Equal(xs[i], ys[i])
    case (Set(xs), Set(ys)) => |xs| == |ys| && forall i | 0 <= i < |xs| :: HasItem(ys, xs[i])
    case (Map(ps), Map(qs)) => |ps| == |qs| && forall i | 0 <= i < |ps| :: HasPair(qs, ps[i])
    case _ => false
  }

  predicate HasItem(ys: seq<Value>, x: Value)
    decreases Tallest(ys) + Height(x) + 1, 0
  {
    exists j | 0 <= j < |ys| :: Equal(ys[j], x)
  }

  predicate HasPair(qs: seq<Pair>, p: Pair)
    decreases TallestPair(qs) + PairHeight(p) + 1, 0
  {
    exists j | 0 <= j < |qs| :: PairHeight(qs[j]) <= TallestPair(qs) && Equal(qs[j].key, p.key)
        && Equal(p.item, qs[j].item)
  }

  ghost predicate Wf(v: Value)
    decreases Height(v)
  {
    match v
    case Sequence(_, xs) => forall i | 0 <= i < |xs| :: Wf(xs[i])
    case Record(_, xs) => forall i | 0 <= i < |xs| :: Wf(xs[i])
    case Set(xs) =>
      && (forall i | 0 <= i < |xs| :: Wf(xs[i]))
      && (forall i, j | 0 <= i < |xs| && 0 <= j < |xs| && i != j :: !Equal(xs[i], xs[j]))
    case Map(ps) =>
      && (forall i | 0 <= i < |ps| :: PairHeight(ps[i]) < Height(v) && Wf(ps[i].key) && Wf(ps[i].item))
      && (forall i, j | 0 <= i < |ps| && 0 <= j < |ps| && i != j :: !Equal(ps[i].key, ps[j].key))
    case _ => true
  }

  // ------------------------------------------------------------- equivalence

  lemma {:induction false} Reflexive(a: Value)
    ensures Equal(a, a)
    decreases Height(a)
  {
    match a
    case Sequence(_, xs) => forall i | 0 <= i < |xs| ensures Equal(xs[i], xs[i]) { Reflexive(xs[i]); }
    case Record(_, xs) => forall i | 0 <= i < |xs| ensures Equal(xs[i], xs[i]) { Reflexive(xs[i]); }
    case Set(xs) => forall i | 0 <= i < |xs| ensures HasItem(xs, xs[i]) { Reflexive(xs[i]); }
    case Map(ps) =>
      forall i | 0 <= i < |ps| ensures HasPair(ps, ps[i]) {
        assert PairHeight(ps[i]) <= TallestPair(ps);
        Reflexive(ps[i].key);
        Reflexive(ps[i].item);
      }
    case _ =>
  }

  lemma {:induction false} Transitive(a: Value, b: Value, c: Value)
    requires Equal(a, b) && Equal(b, c)
    ensures Equal(a, c)
    decreases Height(a) + Height(b) + Height(c), 0
  {
    match a
    case Sequence(_, xs) =>
      forall i | 0 <= i < |xs| ensures Equal(xs[i], c.items[i]) { Transitive(xs[i], b.items[i], c.items[i]); }
    case Record(_, xs) =>
      forall i | 0 <= i < |xs| ensures Equal(xs[i], c.data[i]) { Transitive(xs[i], b.data[i], c.data[i]); }
    case Set(xs) =>
      forall i | 0 <= i < |xs| ensures HasItem(c.items, xs[i]) {
        assert HasItem(b.items, xs[i]);
        var j :| 0 <= j < |b.items| && Equal(b.items[j], xs[i]);
        assert HasItem(c.items, b.items[j]);
        var k :| 0 <= k < |c.items| && Equal(c.items[k], b.items[j]);
        Transitive(c.items[k], b.items[j], xs[i]);
      }
    case Map(ps) => TransitivePairs(ps, b.pairs, c.pairs);
    case _ =>
  }

  lemma {:induction false} TransitivePairs(ps: seq<Pair>, qs: seq<Pair>, rs: seq<Pair>)
    requires |ps| == |qs| == |rs|
    requires forall i | 0 <= i < |ps| :: HasPair(qs, ps[i]) && HasPair(rs, qs[i])
    ensures forall i | 0 <= i < |ps| :: HasPair(rs, ps[i])
    decreases TallestPair(ps) + TallestPair(qs) + TallestPair(rs) + 1, 0
  {
    hide Equal, Height, PairHeight;
    forall i | 0 <= i < |ps| ensures HasPair(rs, ps[i]) {
      assert HasPair(qs, ps[i]) && PairHeight(ps[i]) <= TallestPair(ps);
      var j :| 0 <= j < |qs| && PairHeight(qs[j]) <= TallestPair(qs) && Equal(qs[j].key, ps[i].key)
        && Equal(ps[i].item, qs[j].item);
      assert HasPair(rs, qs[j]);
      var k :| 0 <= k < |rs| && PairHeight(rs[k]) <= TallestPair(rs) && Equal(rs[k].key, qs[j].key)
        && Equal(qs[j].item, rs[k].item);
      PairTransitive(ps[i], qs[j], rs[k]);
    }
  }

  lemma {:induction false} PairTransitive(p: Pair, q: Pair, r: Pair)
    requires Equal(q.key, p.key) && Equal(p.item, q.item) && Equal(r.key, q.key) && Equal(q.item, r.item)
    ensures Equal(r.key, p.key) && Equal(p.item, r.item)
    decreases PairHeight(p) + PairHeight(q) + PairHeight(r), 1
  {
    Transitive(r.key, q.key, p.key);
    Transitive(p.item, q.item, r.item);
  }

  lemma {:induction false} Symmetric(a: Value, b: Value)
    requires Wf(a) && Wf(b) && Equal(a, b)
    ensures Equal(b, a)
    decreases if Height(a) > Height(b) then Height(a) else Height(b), 1
  {
    match a
    case Sequence(_, xs) => forall i | 0 <= i < |xs| ensures Equal(b.items[i], xs[i]) { Symmetric(xs[i], b.items[i]); }
    case Record(_, xs) => forall i | 0 <= i < |xs| ensures Equal(b.data[i], xs[i]) { Symmetric(xs[i], b.data[i]); }
    case Set(xs) =>
      SetMatched(xs, b.items);
      AllSought(xs, b.items, SameItem);
      forall j | 0 <= j < |b.items| ensures HasItem(xs, b.items[j]) {
        assert Sought(xs, b.items[j], SameItem);
        var i :| 0 <= i < |xs| && SameItem(b.items[j], xs[i]);
        Symmetric(b.items[j], xs[i]);
      }
    case Map(ps) => SymmetricPairs(ps, b.pairs);
    case _ =>
  }

  lemma {:induction false} SymmetricPairs(ps: seq<Pair>, qs: seq<Pair>)
    requires Wf(Map(ps)) && Wf(Map(qs)) && Equal(Map(ps), Map(qs))
    ensures Equal(Map(qs), Map(ps))
    decreases if TallestPair(ps) > TallestPair(qs) then TallestPair(ps) + 1 else TallestPair(qs) + 1, 0
  {
    hide Equal, Wf, Matched;
    PairsMatched(ps, qs);
    AllSought(ps, qs, SamePair);
    forall j | 0 <= j < |qs| ensures HasPair(ps, qs[j]) {
      assert Sought(ps, qs[j], SamePair);
      var i :| 0 <= i < |ps| && SamePair(qs[j], ps[i]);
      PairWf(ps, i);
      PairWf(qs, j);
      Symmetric(qs[j].key, ps[i].key);
      Symmetric(ps[i].item, qs[j].item);
    }
    SameSize(ps, qs);
    MapsEqual(qs, ps);
  }

  lemma PairWf(ps: seq<Pair>, i: nat)
    requires Wf(Map(ps)) && i < |ps|
    ensures PairHeight(ps[i]) <= TallestPair(ps) && Wf(ps[i].key) && Wf(ps[i].item)
  {}

  lemma SameSize(ps: seq<Pair>, qs: seq<Pair>)
    requires Equal(Map(ps), Map(qs))
    ensures |ps| == |qs|
  {}

  lemma MapsEqual(ps: seq<Pair>, qs: seq<Pair>)
    requires |ps| == |qs| && forall i | 0 <= i < |ps| :: HasPair(qs, ps[i])
    ensures Equal(Map(ps), Map(qs))
  {}

  predicate SameItem(y: Value, x: Value) { Equal(y, x) }
  predicate SamePair(q: Pair, p: Pair) { Equal(q.key, p.key) && Equal(p.item, q.item) }

  lemma {:induction false} SetMatched(xs: seq<Value>, ys: seq<Value>)
    requires Wf(Set(xs)) && Wf(Set(ys)) && Equal(Set(xs), Set(ys))
    ensures Matched(xs, ys, SameItem)
    decreases if Tallest(xs) > Tallest(ys) then Tallest(xs) + 1 else Tallest(ys) + 1, 0
  {
    forall i | 0 <= i < |xs| ensures Partnered(ys, xs[i], SameItem) {
      assert HasItem(ys, xs[i]);
      var j :| 0 <= j < |ys| && Equal(ys[j], xs[i]);
      assert SameItem(ys[j], xs[i]);
    }
    forall i, k, j | 0 <= i < |xs| && 0 <= k < |xs| && i != k && 0 <= j < |ys|
      ensures !(SameItem(ys[j], xs[i]) && SameItem(ys[j], xs[k]))
    {
      assert !Equal(xs[i], xs[k]);
      if Equal(ys[j], xs[i]) {
        Symmetric(ys[j], xs[i]);
        if Equal(ys[j], xs[k]) { Transitive(xs[i], ys[j], xs[k]); }
      }
    }
  }

  lemma {:induction false} PairsMatched(ps: seq<Pair>, qs: seq<Pair>)
    requires Wf(Map(ps)) && Wf(Map(qs)) && Equal(Map(ps), Map(qs))
    ensures Matched(ps, qs, SamePair)
    decreases if TallestPair(ps) > TallestPair(qs) then TallestPair(ps) + 1 else TallestPair(qs) + 1, 0, 0
  {
    forall i | 0 <= i < |ps| ensures Partnered(qs, ps[i], SamePair) {
      assert HasPair(qs, ps[i]);
      var j :| 0 <= j < |qs| && Equal(qs[j].key, ps[i].key) && Equal(ps[i].item, qs[j].item);
      assert SamePair(qs[j], ps[i]);
    }
    forall i, k, j | 0 <= i < |ps| && 0 <= k < |ps| && i != k && 0 <= j < |qs|
      ensures !(SamePair(qs[j], ps[i]) && SamePair(qs[j], ps[k]))
    {
      assert !Equal(ps[i].key, ps[k].key);
      assert PairHeight(ps[i]) <= TallestPair(ps) && PairHeight(qs[j]) <= TallestPair(qs);
      if Equal(qs[j].key, ps[i].key) {
        Symmetric(qs[j].key, ps[i].key);
        if Equal(qs[j].key, ps[k].key) { Transitive(ps[i].key, qs[j].key, ps[k].key); }
      }
    }
  }

  // ------------------------------------------------------------------ hashing

  /** 64 bits folded into 32. */
  type FoldBits = int -> nat

  function Mix(h: nat, x: nat): nat { (h * 31 + x) % WORD }

  function MixBytes(h: nat, bytes: Bytes): nat
    decreases |bytes|
  {
    if bytes == [] then h else MixBytes(Mix(h, bytes[0]), bytes[1..])
  }

  /** Sums of hashes; a part that cannot be hashed leaves nothing. */
  function AddHash(s: Option<nat>, t: Option<nat>): Option<nat> {
    if s.Some? && t.Some? then Some((s.value + t.value) % WORD) else None
  }

  function FloatHash(x: Float, f: FoldBits): nat {
    match x
    case Zero(_) => 23
    case NaN(_) => 2143289344
    case Other(bits) => (f(bits) + 23) % WORD
  }

  /** `hash`, or nothing where it dies: functions and capabilities have none. */
  function Hash(v: Value, f: FoldBits): Option<nat>
    decreases Height(v), 1
  {
    match v
    case Nil => Some(0)
    case Int(n) => Some(f(n))
    case Double(x) => Some(FloatHash(x, f))
    case Bool(b) => Some(if b then 1231 else 1237)
    case Text(k, bytes) => Some(MixBytes(if k then 5 else 4, bytes))
    case Opaque(_) => None
    case Record(name, xs) => HashInOrder(xs, MixBytes(13, name), f)
    case Sequence(_, xs) => HashInOrder(xs, 1, f)
    case Set(xs) => AddHash(Some(12), Fold(AddHash, Some(0), seq(|xs|, i requires 0 <= i < |xs| => Hash(xs[i], f))))
    case Map(ps) =>
      AddHash(Some(8), Fold(AddHash, Some(0), seq(|ps|, i requires 0 <= i < |ps| =>
        assert PairHeight(ps[i]) <= TallestPair(ps);
        PairHash(Hash(ps[i].key, f), Hash(ps[i].item, f)))))
  }

  function PairHash(k: Option<nat>, i: Option<nat>): Option<nat> {
    if k.Some? && i.Some? then Some(Xor(k.value, i.value)) else None
  }

  function HashInOrder(xs: seq<Value>, h: nat, f: FoldBits): Option<nat>
    decreases Tallest(xs) + 1, 0, |xs|
  {
    if xs == [] then Some(h)
    else
      match Hash(xs[0], f)
      case None => None
      case Some(x) => HashInOrder(xs[1..], Mix(h, x), f)
  }

  lemma AddHashCommutes()
    ensures Commutes(AddHash)
  {
    forall s: Option<nat>, x: Option<nat>, y: Option<nat>
      ensures AddHash(AddHash(s, x), y) == AddHash(AddHash(s, y), x) {
      if s.Some? && x.Some? && y.Some? { S.WordsExchange(s.value, x.value, y.value); }
    }
  }

  /** Equal values have equal hashes, or none, whatever is nested in them. */
  lemma {:induction false} HashSame(a: Value, b: Value, f: FoldBits)
    requires Wf(a) && Wf(b) && Equal(a, b)
    ensures Hash(a, f) == Hash(b, f)
    decreases Height(a) + Height(b), 1
  {
    match a
    case Sequence(_, xs) => OrderSame(xs, b.items, 1, f);
    case Record(name, xs) => OrderSame(xs, b.data, MixBytes(13, name), f);
    case Set(xs) => SetSame(xs, b.items, f);
    case Map(ps) => MapSame(ps, b.pairs, f);
    case _ =>
  }

  lemma {:induction false} OrderSame(xs: seq<Value>, ys: seq<Value>, h: nat, f: FoldBits)
    requires |xs| == |ys| && forall i | 0 <= i < |xs| :: Wf(xs[i]) && Wf(ys[i]) && Equal(xs[i], ys[i])
    ensures HashInOrder(xs, h, f) == HashInOrder(ys, h, f)
    decreases Tallest(xs) + Tallest(ys) + 1, 0, |xs|
  {
    if xs != [] {
      HashSame(xs[0], ys[0], f);
      if Hash(xs[0], f).Some? { OrderSame(xs[1..], ys[1..], Mix(h, Hash(xs[0], f).value), f); }
    }
  }

  lemma {:induction false} SetSame(xs: seq<Value>, ys: seq<Value>, f: FoldBits)
    requires Wf(Set(xs)) && Wf(Set(ys)) && Equal(Set(xs), Set(ys))
    ensures Hash(Set(xs), f) == Hash(Set(ys), f)
    decreases Tallest(xs) + Tallest(ys) + 2, 0
  {
    hide Matched;
    var h := (x: Value) => Hash(x, f);
    SetMatched(xs, ys);
    AddHashCommutes();
    forall i, j | 0 <= i < |xs| && 0 <= j < |ys| && SameItem(ys[j], xs[i]) ensures h(xs[i]) == h(ys[j]) {
      HashSame(ys[j], xs[i], f);
    }
    FoldMatched(xs, ys, SameItem, h, AddHash, Some(0));
    assert seq(|xs|, i requires 0 <= i < |xs| => Hash(xs[i], f)) == Mapped(h, xs);
    assert seq(|ys|, i requires 0 <= i < |ys| => Hash(ys[i], f)) == Mapped(h, ys);
  }

  lemma {:induction false} MapSame(ps: seq<Pair>, qs: seq<Pair>, f: FoldBits)
    requires Wf(Map(ps)) && Wf(Map(qs)) && Equal(Map(ps), Map(qs))
    ensures Hash(Map(ps), f) == Hash(Map(qs), f)
    decreases TallestPair(ps) + TallestPair(qs) + 2, 0
  {
    var h := (p: Pair) => PairHash(Hash(p.key, f), Hash(p.item, f));
    PairsMatched(ps, qs);
    AddHashCommutes();
    forall i, j | 0 <= i < |ps| && 0 <= j < |qs| && SamePair(qs[j], ps[i]) ensures h(ps[i]) == h(qs[j]) {
      assert PairHeight(ps[i]) <= TallestPair(ps) && PairHeight(qs[j]) <= TallestPair(qs);
      HashSame(qs[j].key, ps[i].key, f);
      HashSame(ps[i].item, qs[j].item, f);
    }
    FoldMatched(ps, qs, SamePair, h, AddHash, Some(0));
    MapHashIs(ps, f);
    MapHashIs(qs, f);
  }

  lemma MapHashIs(ps: seq<Pair>, f: FoldBits)
    ensures Hash(Map(ps), f) ==
      AddHash(Some(8), Fold(AddHash, Some(0), Mapped((p: Pair) => PairHash(Hash(p.key, f), Hash(p.item, f)), ps)))
  {
    var h := (p: Pair) => PairHash(Hash(p.key, f), Hash(p.item, f));
    var s := seq(|ps|, i requires 0 <= i < |ps| =>
        assert PairHeight(ps[i]) <= TallestPair(ps);
        PairHash(Hash(ps[i].key, f), Hash(ps[i].item, f)));
    assert s == Mapped(h, ps);
  }
}
