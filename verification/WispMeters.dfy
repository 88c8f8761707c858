// What the operations of the Wisp runtime may take from the meters, worked out from the
// values they are given: above these bounds no meter stops them.
module WispMeters {
  import opened Outcomes
  import opened Unordered
  import opened V = WispValues

  /** Which of the stored keys a trie compares with a probe: not to be known, but that
      it includes those that are equal to it. */
  type Probe = (seq<Value>, Value) -> seq<nat>

  /** Fuel and allocation to spend, levels to go down, and the longest array to make. */
  datatype Need = Need(fuel: nat, allocation: nat, depth: nat, size: nat)

  const NOTHING: Need := Need(0, 0, 0, 0)

  function Most(a: nat, b: nat): nat { if a > b then a else b }

  /** One thing after another. */
  function Then(a: Need, b: Need): Need {
    Need(a.fuel + b.fuel, a.allocation + b.allocation, Most(a.depth, b.depth), Most(a.size, b.size))
  }

  function InTurn(ns: seq<Need>): Need {
    if ns == [] then NOTHING else Then(InTurn(ns[..|ns| - 1]), ns[|ns| - 1])
  }

  /** No more than. */
  predicate AtMost(a: Need, b: Need) {
    a.fuel <= b.fuel && a.allocation <= b.allocation && a.depth <= b.depth && a.size <= b.size
  }

  /** `enter` and `leave` around something. */
  function Entered(n: Need): Need { Need(n.fuel + 1, n.allocation, n.depth + 1, n.size) }

  function Ticks(n: nat): Need { Need(n, 0, 0, 0) }

  function ArrayNeed(count: nat, width: nat): Need { Need(count + 1, count * width + 32, 0, count) }

  /** The first `i + 1` of some things are no more than all of them. */
  lemma {:induction false} PartOf(ns: seq<Need>, i: nat)
    requires i < |ns|
    ensures InTurn(ns[..i + 1]) == Then(InTurn(ns[..i]), ns[i])
    ensures AtMost(InTurn(ns[..i + 1]), InTurn(ns))
  {
    assert ns[..i + 1][..i] == ns[..i];
    if i < |ns| - 1 {
      PartOf(ns[..|ns| - 1], i);
      assert ns[..|ns| - 1][..i + 1] == ns[..i + 1] && ns[..|ns| - 1][..i] == ns[..i];
    } else {
      assert ns[..i + 1] == ns;
    }
  }

  lemma NoneInTurn(ns: seq<Need>)
    ensures ns[..0] == [] && InTurn(ns[..0]) == NOTHING
  {}

  // -------------------------------------------------------------- the bounds

  /** `seq_values`: a list is handed out as it is, and all else is copied. */
  function ListNeed(list: bool, n: nat): Need { if list then NOTHING else ArrayNeed(n, 8) }

  function MapNeed(n: nat, width: nat): Need { Then(ArrayNeed(n * width, 8), Ticks(8 * n)) }

  function KeyNeed(v: Value): Need
    decreases Height(v), 2
  {
    Entered(KeyInner(v))
  }

  function KeyInner(v: Value): Need
    decreases Height(v), 1
  {
    match v
    case Sequence(list, xs) => Then(ListNeed(list, |xs|), InTurn(KeyNeeds(xs)))
    case Set(xs) => Then(MapNeed(|xs|, 1), InTurn(KeyNeeds(xs)))
    case Map(ps) => Then(MapNeed(|ps|, 2), InTurn(KeyPairNeeds(ps)))
    case Record(_, xs) => InTurn(KeyNeeds(xs))
    case _ => NOTHING
  }

  function KeyNeeds(xs: seq<Value>): (ns: seq<Need>)
    ensures |ns| == |xs| && forall i | 0 <= i < |xs| :: ns[i] == KeyNeed(xs[i])
    decreases Tallest(xs) + 1, 0
  {
    seq(|xs|, i requires 0 <= i < |xs| => KeyNeed(xs[i]))
  }

  function KeyPairNeeds(ps: seq<Pair>): (ns: seq<Need>)
    ensures |ns| == |ps| && forall i | 0 <= i < |ps| :: ns[i] == Then(KeyNeed(ps[i].key), KeyNeed(ps[i].item))
    decreases TallestPair(ps) + 1, 0
  {
    seq(|ps|, i requires 0 <= i < |ps| =>
      assert PairHeight(ps[i]) <= TallestPair(ps);
      Then(KeyNeed(ps[i].key), KeyNeed(ps[i].item)))
  }

  function HashNeed(v: Value): Need
    decreases Height(v), 2
  {
    Entered(HashInner(v))
  }

  function HashInner(v: Value): Need
    decreases Height(v), 1
  {
    match v
    case Text(_, bytes) => Ticks(|bytes|)
    case Sequence(list, xs) => Then(ListNeed(list, |xs|), InTurn(HashNeeds(xs)))
    case Set(xs) => Then(MapNeed(|xs|, 1), InTurn(HashNeeds(xs)))
    case Map(ps) => Then(MapNeed(|ps|, 2), InTurn(HashPairNeeds(ps)))
    case Record(name, xs) => Then(Ticks(|name|), InTurn(HashNeeds(xs)))
    case _ => NOTHING
  }

  function HashNeeds(xs: seq<Value>): (ns: seq<Need>)
    ensures |ns| == |xs| && forall i | 0 <= i < |xs| :: ns[i] == HashNeed(xs[i])
    decreases Tallest(xs) + 1, 0
  {
    seq(|xs|, i requires 0 <= i < |xs| => HashNeed(xs[i]))
  }

  function HashPairNeeds(ps: seq<Pair>): (ns: seq<Need>)
    ensures |ns| == |ps| && forall i | 0 <= i < |ps| :: ns[i] == Then(HashNeed(ps[i].key), HashNeed(ps[i].item))
    decreases TallestPair(ps) + 1, 0
  {
    seq(|ps|, i requires 0 <= i < |ps| =>
      assert PairHeight(ps[i]) <= TallestPair(ps);
      Then(HashNeed(ps[i].key), HashNeed(ps[i].item)))
  }

  /** `equal`, if it has to look at everything. */
  ghost function EqualNeed(a: Value, b: Value, probe: Probe): Need
    decreases Height(a) + Height(b), 3
  {
    Entered(EqualInner(a, b, probe))
  }

  ghost function EqualInner(a: Value, b: Value, probe: Probe): Need
    decreases Height(a) + Height(b), 2
  {
    match (a, b)
    case (Text(k, x), Text(l, y)) => Ticks(|x|)
    case (Sequence(k, xs), Sequence(l, ys)) =>
      Then(Then(ListNeed(k, |xs|), ListNeed(l, |ys|)), InTurn(EqualNeeds(xs, ys, probe)))
    case (Record(m, xs), Record(n, ys)) => Then(Ticks(|m|), InTurn(EqualNeeds(xs, ys, probe)))
    case (Set(xs), Set(ys)) =>
      Then(Then(MapNeed(|xs|, 1), MapNeed(|ys|, 1)), InTurn(FindNeeds(xs, ys, probe)))
    case (Map(ps), Map(qs)) =>
      Then(Then(MapNeed(|ps|, 2), MapNeed(|qs|, 2)), InTurn(PairNeeds(ps, qs, probe)))
    case _ => NOTHING
  }

  /** Collections of different sizes are not compared further. */
  ghost function EqualNeeds(xs: seq<Value>, ys: seq<Value>, probe: Probe): (ns: seq<Need>)
    ensures |xs| == |ys| ==> |ns| == |xs| && forall i | 0 <= i < |xs| :: ns[i] == EqualNeed(xs[i], ys[i], probe)
    decreases Tallest(xs) + Tallest(ys) + 2, 0
  {
    if |xs| != |ys| then [] else seq(|xs|, i requires 0 <= i < |xs| => EqualNeed(xs[i], ys[i], probe))
  }

  ghost function FindNeeds(xs: seq<Value>, ys: seq<Value>, probe: Probe): (ns: seq<Need>)
    ensures |xs| == |ys| ==> |ns| == |xs| && forall i | 0 <= i < |xs| :: ns[i] == FindNeed(ys, xs[i], probe)
    decreases Tallest(xs) + Tallest(ys) + 2, 0
  {
    if |xs| != |ys| then [] else seq(|xs|, i requires 0 <= i < |xs| => FindNeed(ys, xs[i], probe))
  }

  /** Each key is looked for twice, and the items that are found are compared. */
  ghost function PairNeeds(ps: seq<Pair>, qs: seq<Pair>, probe: Probe): (ns: seq<Need>)
    ensures |ps| == |qs| ==> |ns| == |ps| && forall i | 0 <= i < |ps| :: ns[i] == PairNeed(ps[i], qs, probe)
    decreases TallestPair(ps) + TallestPair(qs) + 2, 1
  {
    if |ps| != |qs| then []
    else
      seq(|ps|, i requires 0 <= i < |ps| =>
        assert PairHeight(ps[i]) <= TallestPair(ps);
        PairNeed(ps[i], qs, probe))
  }

  ghost function PairNeed(p: Pair, qs: seq<Pair>, probe: Probe): Need
    decreases PairHeight(p) + TallestPair(qs) + 2, 0
  {
    KeysLower(qs);
    Then(Then(FindNeed(KeysOf(qs), p.key, probe), FindNeed(KeysOf(qs), p.key, probe)), ItemNeed(p, qs, probe))
  }

  /** The item of the one key that is equal. */
  ghost function ItemNeed(p: Pair, qs: seq<Pair>, probe: Probe): Need
    decreases PairHeight(p) + TallestPair(qs) + 1, 0
  {
    if exists j :: 0 <= j < |qs| && Equal(qs[j].key, p.key) then
      var j :| 0 <= j < |qs| && Equal(qs[j].key, p.key);
      assert PairHeight(qs[j]) <= TallestPair(qs);
      EqualNeed(p.item, qs[j].item, probe)
    else NOTHING
  }

  /** `find`: the key is tried, a probe is made, the key is hashed, and those of the stored
      keys that the trie leads to are compared with it. */
  ghost function FindNeed(keys: seq<Value>, k: Value, probe: Probe): Need
    decreases Tallest(keys) + Height(k) + 1, 2
  {
    Then(Then(Then(KeyNeed(k), ArrayNeed(1, 16)), Then(Ticks(8), HashNeed(k))), InTurn(ProbeNeeds(keys, k, probe)))
  }

  ghost function ProbeNeeds(keys: seq<Value>, k: Value, probe: Probe): (ns: seq<Need>)
    ensures var found := probe(keys, k);
      |ns| == |found| && forall n | 0 <= n < |found| && found[n] < |keys| ::
        ns[n] == EqualNeed(keys[found[n]], k, probe)
    decreases Tallest(keys) + Height(k) + 1, 1
  {
    var found := probe(keys, k);
    seq(|found|, n requires 0 <= n < |found| =>
      if found[n] < |keys| then EqualNeed(keys[found[n]], k, probe) else NOTHING)
  }

  function KeysOf(ps: seq<Pair>): (ks: seq<Value>)
    ensures |ks| == |ps| && forall i | 0 <= i < |ps| :: ks[i] == ps[i].key
  {
    seq(|ps|, i requires 0 <= i < |ps| => ps[i].key)
  }

  lemma {:induction false} KeysLower(ps: seq<Pair>)
    ensures Tallest(KeysOf(ps)) <= TallestPair(ps)
  {
    if ps != [] {
      KeysLower(ps[1..]);
      assert KeysOf(ps)[1..] == KeysOf(ps[1..]);
    }
  }

  // ------------------------------------------------------- what can be hashed

  ghost predicate AllHashed(xs: seq<Value>, f: FoldBits) { forall i | 0 <= i < |xs| :: Hash(xs[i], f).Some? }

  ghost predicate PairsHashed(ps: seq<Pair>, f: FoldBits) {
    forall i | 0 <= i < |ps| :: Hash(ps[i].key, f).Some? && Hash(ps[i].item, f).Some?
  }

  /** Every key of a map and every item of a set, however deep, has a hash: there are no
      other maps and sets. */
  ghost predicate Keyed(v: Value, f: FoldBits)
    decreases Height(v), 1
  {
    match v
    case Sequence(_, xs) => AllKeyed(xs, f)
    case Record(_, xs) => AllKeyed(xs, f)
    case Set(xs) => AllHashed(xs, f)
    case Map(ps) => PairsKeyed(ps, f)
    case _ => true
  }

  ghost predicate AllKeyed(xs: seq<Value>, f: FoldBits)
    decreases Tallest(xs) + 1, 0
  {
    forall i | 0 <= i < |xs| :: Keyed(xs[i], f)
  }

  ghost predicate PairsKeyed(ps: seq<Pair>, f: FoldBits)
    decreases TallestPair(ps) + 1, 0
  {
    forall i | 0 <= i < |ps| :: Hash(ps[i].key, f).Some? && PairHeight(ps[i]) <= TallestPair(ps) && Keyed(ps[i].item, f)
  }

  lemma {:induction false} OrderHashed(xs: seq<Value>, h: nat, f: FoldBits)
    ensures HashInOrder(xs, h, f).Some? <==> AllHashed(xs, f)
    decreases |xs|
  {
    if xs != [] {
      assert forall i | 1 <= i < |xs| :: xs[i] == xs[1..][i - 1];
      if Hash(xs[0], f).Some? { OrderHashed(xs[1..], Mix(h, Hash(xs[0], f).value), f); }
    }
  }

  lemma {:induction false} FoldHashed(hs: seq<Option<nat>>)
    ensures Fold(AddHash, Some(0), hs).Some? <==> forall i | 0 <= i < |hs| :: hs[i].Some?
  {
    if hs != [] { FoldHashed(hs[..|hs| - 1]); }
  }

  lemma SetHashIs(xs: seq<Value>, f: FoldBits)
    ensures Hash(Set(xs), f) == AddHash(Some(12), Fold(AddHash, Some(0), Mapped((x: Value) => Hash(x, f), xs)))
  {
    var h := (x: Value) => Hash(x, f);
    assert seq(|xs|, i requires 0 <= i < |xs| => Hash(xs[i], f)) == Mapped(h, xs);
  }

  lemma SetHashed(xs: seq<Value>, f: FoldBits)
    ensures Hash(Set(xs), f).Some? <==> AllHashed(xs, f)
  {
    SetHashIs(xs, f);
    FoldHashed(Mapped((x: Value) => Hash(x, f), xs));
  }

  lemma MapHashed(ps: seq<Pair>, f: FoldBits)
    ensures Hash(Map(ps), f).Some? <==> PairsHashed(ps, f)
  {
    var h := (p: Pair) => PairHash(Hash(p.key, f), Hash(p.item, f));
    MapHashIs(ps, f);
    FoldHashed(Mapped(h, ps));
    assert forall i | 0 <= i < |ps| :: Mapped(h, ps)[i] == h(ps[i]);
  }

  /** What has a hash has nothing in it that has none. */
  lemma {:induction false} HashedIsKeyed(v: Value, f: FoldBits)
    requires Hash(v, f).Some?
    ensures Keyed(v, f)
    decreases Height(v), 1
  {
    match v
    case Sequence(_, xs) => OrderHashed(xs, 1, f); AllHashedKeyed(xs, f);
    case Record(name, xs) => OrderHashed(xs, MixBytes(13, name), f); AllHashedKeyed(xs, f);
    case Set(xs) => SetHashed(xs, f);
    case Map(ps) =>
      MapHashed(ps, f);
      forall i | 0 <= i < |ps| ensures PairHeight(ps[i]) <= TallestPair(ps) && Keyed(ps[i].item, f) {
        assert PairHeight(ps[i]) <= TallestPair(ps);
        HashedIsKeyed(ps[i].item, f);
      }
    case _ =>
  }

  lemma {:induction false} AllHashedKeyed(xs: seq<Value>, f: FoldBits)
    requires AllHashed(xs, f)
    ensures AllKeyed(xs, f)
    decreases Tallest(xs) + 1, 0
  {
    forall i | 0 <= i < |xs| ensures Keyed(xs[i], f) { HashedIsKeyed(xs[i], f); }
  }
}
