// The persistent hash map of stdlib-wap as a value: a hash array mapped trie of
// bitmap, array and collision nodes.
module Hamt {
  import opened Sequences
  import opened Arithmetic
  import opened Bits
  import opened Outcomes

  /** The hash and equality functions a map is made with. */
  datatype Keys<!K> = Keys(hash: K -> nat, equal: (K, K) -> bool)

  /** What the map asks of them: 32-bit hashes, an equivalence, and equal hashes
      for equal keys. */
  ghost predicate Lawful<K(!new)>(f: Keys<K>) {
    && (forall k :: f.hash(k) < WORD)
    && (forall k :: f.equal(k, k))
    && (forall j, k :: f.equal(j, k) ==> f.equal(k, j) && f.hash(j) == f.hash(k))
    && (forall i, j, k :: f.equal(i, j) && f.equal(j, k) ==> f.equal(i, k))
  }

  datatype Slot<K, V> = Hole | Pair(key: K, value: V) | Sub(node: Node<K, V>)
  datatype Node<K, V> =
    | Bitmap(bits: nat, slots: seq<Slot<K, V>>)
    | Array(count: nat, slots: seq<Slot<K, V>>)
    | Collision(hash: nat, entries: seq<(K, V)>)

  // ------------------------------------------------------------- denotation

  /** The pairs below a node, in the order a traversal meets them. */
  function Entries<K, V>(n: Node<K, V>): seq<(K, V)> {
    match n
    case Bitmap(_, slots) => EntriesOf(slots)
    case Array(_, slots) => EntriesOf(slots)
    case Collision(_, entries) => entries
  }

  function EntriesOf<K, V>(slots: seq<Slot<K, V>>): seq<(K, V)> {
    if |slots| == 0 then [] else SlotEntries(slots[0]) + EntriesOf(slots[1..])
  }

  function SlotEntries<K, V>(x: Slot<K, V>): seq<(K, V)> {
    match x
    case Hole => []
    case Pair(k, v) => [(k, v)]
    case Sub(c) => Entries(c)
  }

  lemma {:induction false} EntriesConcat<K, V>(a: seq<Slot<K, V>>, b: seq<Slot<K, V>>)
    ensures EntriesOf(a + b) == EntriesOf(a) + EntriesOf(b)
  {
    if |a| == 0 {
      assert a + b == b;
    } else {
      EntriesConcat(a[1..], b);
      assert (a + b)[1..] == a[1..] + b;
      assert (a + b)[0] == a[0];
      ConcatAssociates(SlotEntries(a[0]), EntriesOf(a[1..]), EntriesOf(b));
    }
  }

  lemma {:induction false} EntriesOne<K, V>(x: Slot<K, V>)
    ensures EntriesOf([x]) == SlotEntries(x)
  {
    assert [x][1..] == [];
    assert EntriesOf<K, V>([]) == [];
  }

  lemma {:induction false} EntriesSplit<K, V>(w: seq<Slot<K, V>>, b: nat)
    requires b < |w|
    ensures EntriesOf(w) == EntriesOf(w[..b]) + SlotEntries(w[b]) + EntriesOf(w[b + 1..])
  {
    assert w == w[..b] + ([w[b]] + w[b + 1..]);
    EntriesConcat(w[..b], [w[b]] + w[b + 1..]);
    EntriesConcat([w[b]], w[b + 1..]);
    EntriesOne(w[b]);
  }

  lemma {:induction false} EntriesUpdate<K, V>(w: seq<Slot<K, V>>, b: nat, x: Slot<K, V>)
    requires b < |w|
    ensures EntriesOf(w[b := x]) == EntriesOf(w[..b]) + SlotEntries(x) + EntriesOf(w[b + 1..])
  {
    EntriesSplit(w[b := x], b);
    assert w[b := x][..b] == w[..b] && w[b := x][b + 1..] == w[b + 1..];
  }

  // ------------------------------------------------------ the 32-slot reading

  /** What a bitmap or array node has in branch `b`. */
  function SlotAt<K, V>(n: Node<K, V>, b: nat): (x: Slot<K, V>)
    ensures x.Sub? ==> x.node < n
  {
    match n
    case Bitmap(bits, slots) => if Has(bits, b) && Rank(bits, b) < |slots| then slots[Rank(bits, b)] else Hole
    case Array(_, slots) => if b < |slots| then slots[b] else Hole
    case Collision(_, _) => Hole
  }

  function Wide<K, V>(n: Node<K, V>): (w: seq<Slot<K, V>>)
    ensures |w| == 32 && forall b | 0 <= b < 32 :: w[b] == SlotAt(n, b)
  {
    seq(32, b requires 0 <= b => SlotAt(n, b))
  }

  function CountFull<K, V>(w: seq<Slot<K, V>>): (c: nat)
    ensures c <= |w|
  {
    if |w| == 0 then 0 else CountFull(w[..|w| - 1]) + if w[|w| - 1].Hole? then 0 else 1
  }

  // ------------------------------------------------- representation invariant

  ghost predicate Valid<K, V>(n: Node<K, V>, shift: nat, f: Keys<K>)
    decreases n, 1
  {
    match n
    case Bitmap(bits, slots) =>
      && bits < WORD && 1 <= |slots| <= 16 && |slots| == PopCount(bits)
      && (forall b | 0 <= b < 32 :: Has(bits, b) <==> !SlotAt(n, b).Hole?)
      && (forall b | 0 <= b < 32 :: SlotOk(n, b, shift, f))
    case Array(count, slots) =>
      && |slots| == 32 && 9 <= count <= 32 && count == CountFull(slots)
      && (forall b | 0 <= b < 32 :: !SlotAt(n, b).Pair?)
      && (forall b | 0 <= b < 32 :: SlotOk(n, b, shift, f))
    case Collision(hash, entries) =>
      |entries| >= 2 && hash < WORD && forall p | p in entries :: f.hash(p.0) == hash
  }

  ghost predicate SlotOk<K, V>(n: Node<K, V>, b: nat, shift: nat, f: Keys<K>)
    decreases n, 0
  {
    var x := SlotAt(n, b);
    && AllBranch(SlotEntries(x), b, shift, f)
    && (x.Sub? ==> Valid(x.node, shift + 5, f))
  }

  ghost predicate AllBranch<K, V>(e: seq<(K, V)>, b: nat, shift: nat, f: Keys<K>) {
    forall p | p in e :: Branch(f.hash(p.0), shift) == b
  }

  /** No pair of `e` has a key equal to `key`. */
  ghost predicate NoneEqual<K, V>(e: seq<(K, V)>, key: K, f: Keys<K>) {
    forall p | p in e :: !f.equal(p.0, key)
  }

  /** The hashes of the keys of `e` agree with `hash` on the bits already used. */
  ghost predicate AllAgree<K, V>(e: seq<(K, V)>, hash: nat, shift: nat, f: Keys<K>) {
    forall p | p in e :: Agree(f.hash(p.0), hash, shift)
  }

  // -------------------------------------------- bitmap arithmetic as 32 slots

  function BitPos(hash: nat, shift: nat): nat { Pow2(Branch(hash, shift)) }

  function BitmapIndex(bits: nat, bit: nat): nat
    requires bit > 0
  {
    PopCount(And(bits, bit - 1))
  }

  lemma {:induction false} BitFacts(bits: nat, b: nat)
    requires b < 32 && bits < WORD
    ensures And(bits, Pow2(b)) == 0 <==> !Has(bits, b)
    ensures BitmapIndex(bits, Pow2(b)) == Rank(bits, b) <= PopCount(bits)
    ensures Has(bits, b) ==> Rank(bits, b) < PopCount(bits)
  {
    MaskedTest(bits, b);
    MaskedCount(bits, b);
    RankOfAll(bits, b, 32);
  }

  lemma {:induction false} RankOfAll(bits: nat, b: nat, n: nat)
    requires b < n == 32 && bits < WORD
    ensures Rank(bits, b) <= PopCount(bits) == Rank(bits, n)
    ensures Has(bits, b) ==> Rank(bits, b) < PopCount(bits)
  {
    Pow2Values();
    PopCountIsRank(bits, n);
    RankGrows(bits, b, n);
    if Has(bits, b) { RankMonotone(bits, b, n); }
  }

  lemma {:induction false} CountAfterSet(x: nat, y: nat, b: nat, n: nat)
    requires b < n == 32 && x < WORD && y < WORD
    requires !Has(x, b) && forall i: nat :: Has(y, i) <==> Has(x, i) || i == b
    ensures PopCount(y) == PopCount(x) + 1
  {
    RankOfAll(x, b, n);
    RankOfAll(y, b, n);
    RankAfterSet(x, y, b, n);
  }

  lemma {:induction false} RankGrows(bits: nat, i: nat, j: nat)
    requires i <= j
    ensures Rank(bits, i) <= Rank(bits, j)
  {
    if i < j { RankGrows(bits, i, j - 1); }
  }

  lemma {:induction false} RankDistinct(bits: nat, i: nat, j: nat)
    requires Has(bits, i) && Has(bits, j) && i != j
    ensures Rank(bits, i) != Rank(bits, j)
  {
    if i < j { RankMonotone(bits, i, j); } else { RankMonotone(bits, j, i); }
  }

  function InsertAt<T>(s: seq<T>, at: nat, x: T): seq<T>
    requires at <= |s|
  {
    s[..at] + [x] + s[at..]
  }

  function RemoveAt<T>(s: seq<T>, at: nat): seq<T>
    requires at < |s|
  {
    s[..at] + s[at + 1..]
  }

  /** The bits and slots of a bitmap node fit each other. */
  ghost predicate Fits<K, V>(bits: nat, slots: seq<Slot<K, V>>) {
    && bits < WORD && |slots| == PopCount(bits)
    && (forall b | 0 <= b < 32 :: Has(bits, b) <==> !SlotAt(Bitmap(bits, slots), b).Hole?)
  }

  /** Switching a bit on and inserting at its rank fills one branch. */
  lemma {:induction false} InsertBranch<K, V>(bits: nat, slots: seq<Slot<K, V>>, b: nat, x: Slot<K, V>)
    requires Fits(bits, slots) && b < 32 && !Has(bits, b) && !x.Hole?
    ensures Rank(bits, b) <= |slots|
    ensures Fits(Or(bits, Pow2(b)), InsertAt(slots, Rank(bits, b), x))
    ensures Wide(Bitmap(Or(bits, Pow2(b)), InsertAt(slots, Rank(bits, b), x))) == Wide(Bitmap(bits, slots))[b := x]
  {
    hide Has, Rank, Or;
    var bits', at := Or(bits, Pow2(b)), Rank(bits, b);
    BitFacts(bits, b);
    var slots' := InsertAt(slots, at, x);
    forall i: nat ensures Has(bits', i) <==> Has(bits, i) || i == b {
      HasOr(bits, Pow2(b), i);
      HasPow2(b, i);
    }
    Pow2Values();
    Pow2Below(b, 32);
    OrBound(bits, Pow2(b), 32);
    CountAfterSet(bits, bits', b, 32);
    forall i | 0 <= i < 32 ensures SlotAt(Bitmap(bits', slots'), i) == if i == b then x
      else SlotAt(Bitmap(bits, slots), i) {
      InsertedSlot(bits, bits', slots, b, x, i);
    }
  }

  lemma InsertedSlot<K, V>(bits: nat, bits': nat, slots: seq<Slot<K, V>>, b: nat, x: Slot<K, V>, i: nat)
    requires Fits(bits, slots) && b < 32 && i < 32 && !Has(bits, b) && Rank(bits, b) <= |slots|
    requires forall j: nat :: Has(bits', j) <==> Has(bits, j) || j == b
    ensures SlotAt(Bitmap(bits', InsertAt(slots, Rank(bits, b), x)), i) == if i == b then x
      else SlotAt(Bitmap(bits, slots), i)
  {
    hide Has, Rank;
    RankAfterSet(bits, bits', b, i);
    BitFacts(bits, i);
    if i < b && Has(bits, i) { RankMonotone(bits, i, b); }
    if b < i { RankGrows(bits, b, i); }
  }

  lemma {:induction false} Pow2Below(b: nat, n: nat)
    requires b < n
    ensures Pow2(b) < Pow2(n)
  {
    Pow2Monotone(b + 1, n);
  }

  /** Writing at the rank of a bit that is on replaces one branch. */
  lemma {:induction false} UpdateBranch<K, V>(bits: nat, slots: seq<Slot<K, V>>, b: nat, x: Slot<K, V>)
    requires Fits(bits, slots) && b < 32 && Has(bits, b) && !x.Hole?
    ensures Rank(bits, b) < |slots|
    ensures Fits(bits, slots[Rank(bits, b) := x])
    ensures Wide(Bitmap(bits, slots[Rank(bits, b) := x])) == Wide(Bitmap(bits, slots))[b := x]
  {
    BitFacts(bits, b);
    var slots' := slots[Rank(bits, b) := x];
    forall i | 0 <= i < 32 ensures SlotAt(Bitmap(bits, slots'), i) == if i == b then x
      else SlotAt(Bitmap(bits, slots), i) {
      BitFacts(bits, i);
      if i != b && Has(bits, i) { RankDistinct(bits, i, b); }
    }
  }

  /** Switching a bit off and removing at its rank empties one branch. */
  lemma {:induction false} RemoveBranch<K, V>(bits: nat, slots: seq<Slot<K, V>>, b: nat)
    requires Fits(bits, slots) && b < 32 && Has(bits, b)
    ensures Rank(bits, b) < |slots|
    ensures Fits(Xor(bits, Pow2(b)), RemoveAt(slots, Rank(bits, b)))
    ensures Wide(Bitmap(Xor(bits, Pow2(b)), RemoveAt(slots, Rank(bits, b)))) == Wide(Bitmap(bits, slots))[b := Hole]
  {
    var bits', at := Xor(bits, Pow2(b)), Rank(bits, b);
    BitFacts(bits, b);
    var slots' := RemoveAt(slots, at);
    forall i: nat ensures Has(bits', i) <==> Has(bits, i) && i != b {
      HasXor(bits, Pow2(b), i);
      HasPow2(b, i);
    }
    Pow2Values();
    Pow2Below(b, 32);
    XorBound(bits, Pow2(b), 32);
    CountAfterSet(bits', bits, b, 32);
    forall i | 0 <= i < 32 ensures SlotAt(Bitmap(bits', slots'), i) == if i == b then Hole
      else SlotAt(Bitmap(bits, slots), i) {
      RemovedSlot(bits, bits', slots, b, i);
    }
  }

  lemma RemovedSlot<K, V>(bits: nat, bits': nat, slots: seq<Slot<K, V>>, b: nat, i: nat)
    requires Fits(bits, slots) && b < 32 && i < 32 && Has(bits, b) && Rank(bits, b) < |slots|
    requires forall j: nat :: Has(bits', j) <==> Has(bits, j) && j != b
    ensures SlotAt(Bitmap(bits', RemoveAt(slots, Rank(bits, b))), i) == if i == b then Hole
      else SlotAt(Bitmap(bits, slots), i)
  {
    hide Has, Rank;
    RankAfterSet(bits', bits, b, i);
    BitFacts(bits, i);
    if i < b && Has(bits, i) { RankMonotone(bits, i, b); }
    if b < i { RankMonotone(bits, b, i); }
  }

  /** A bitmap's slots, packed or spread, hold the same pairs in the same order. */
  lemma {:induction false} WidePrefix<K, V>(bits: nat, slots: seq<Slot<K, V>>, i: nat)
    requires Fits(bits, slots) && i <= 32
    ensures Rank(bits, i) <= |slots|
    ensures EntriesOf(Wide(Bitmap(bits, slots))[..i]) == EntriesOf(slots[..Rank(bits, i)])
  {
    if i > 0 {
      var w, r := Wide(Bitmap(bits, slots)), Rank(bits, i - 1);
      WidePrefix(bits, slots, i - 1);
      BitFacts(bits, i - 1);
      assert w[..i] == w[..i - 1] + [w[i - 1]];
      EntriesConcat(w[..i - 1], [w[i - 1]]);
      EntriesOne(w[i - 1]);
      if Has(bits, i - 1) {
        assert slots[..r + 1] == slots[..r] + [slots[r]];
        EntriesConcat(slots[..r], [slots[r]]);
        EntriesOne(slots[r]);
      }
    }
  }

  lemma {:induction false} WideEntries<K, V>(n: Node<K, V>)
    requires n.Bitmap? ==> Fits(n.bits, n.slots)
    requires n.Array? ==> |n.slots| == 32
    requires !n.Collision?
    ensures EntriesOf(Wide(n)) == Entries(n)
  {
    if n.Bitmap? {
      var all := 32;
      WidePrefix(n.bits, n.slots, all);
      RankOfAll(n.bits, 0, all);
      assert Wide(n)[..32] == Wide(n) && n.slots[..Rank(n.bits, all)] == n.slots;
    } else {
      assert Wide(n) == n.slots;
    }
  }

  // ------------------------------------------------------------------ lookup

  /** The value of the first pair whose key is equal to `key`. */
  function Find<K, V>(e: seq<(K, V)>, key: K, f: Keys<K>): Option<V> {
    if |e| == 0 then None
    else if f.equal(e[0].0, key) then Some(e[0].1)
    else Find(e[1..], key, f)
  }

  function NodeGet<K, V>(n: Node<K, V>, shift: nat, hash: nat, key: K, f: Keys<K>): Option<V>
    requires Valid(n, shift, f)
  {
    match n
    case Bitmap(bits, slots) =>
      var bit := BitPos(hash, shift);
      BitFacts(bits, Branch(hash, shift));
      if And(bits, bit) == 0 then None
      else
        var at := BitmapIndex(bits, bit);
        assert slots[at] == SlotAt(n, Branch(hash, shift)) && SlotOk(n, Branch(hash, shift), shift, f);
        (match slots[at]
         case Pair(k, v) => if f.equal(k, key) then Some(v) else None
         case Sub(c) => NodeGet(c, shift + 5, hash, key, f)
         case Hole => None)
    case Array(_, slots) =>
      var child := slots[Branch(hash, shift)];
      assert child == SlotAt(n, Branch(hash, shift)) && SlotOk(n, Branch(hash, shift), shift, f);
      if child.Sub? then NodeGet(child.node, shift + 5, hash, key, f) else None
    case Collision(h, entries) =>
      if h != hash then None else Find(entries, key, f)
  }

  lemma {:induction false} FindSkips<K, V>(p: seq<(K, V)>, x: seq<(K, V)>, q: seq<(K, V)>, key: K, f: Keys<K>)
    requires NoneEqual(p, key, f) && NoneEqual(q, key, f)
    ensures Find(p + x + q, key, f) == Find(x, key, f)
    decreases |p|, |x|
  {
    var e := p + x + q;
    if |p| > 0 {
      assert p[0] in p && e[0] == p[0];
      forall y | y in p[1..] ensures !f.equal(y.0, key) { assert y in p; }
      FindSkips(p[1..], x, q, key, f);
      assert e[1..] == p[1..] + x + q;
    } else if |x| > 0 {
      assert e[0] == x[0] && e[1..] == p + x[1..] + q;
      if !f.equal(x[0].0, key) { FindSkips(p, x[1..], q, key, f); }
    } else {
      assert e == q;
      FindNone(q, key, f);
    }
  }

  lemma {:induction false} FindNone<K, V>(e: seq<(K, V)>, key: K, f: Keys<K>)
    ensures NoneEqual(e, key, f) <==> Find(e, key, f) == None
  {
    if |e| > 0 {
      FindNone(e[1..], key, f);
      assert e[0] in e;
      if Find(e, key, f) == None {
        forall p | p in e ensures !f.equal(p.0, key) { if p != e[0] { assert p in e[1..]; } }
      } else if !f.equal(e[0].0, key) {
        var p :| p in e[1..] && f.equal(p.0, key);
        assert p in e;
      }
    }
  }

  /** No key of another branch is equal to `key`. */
  lemma OtherBranch<K(!new), V>(e: seq<(K, V)>, b: nat, shift: nat, key: K, f: Keys<K>)
    requires Lawful(f) && AllBranch(e, b, shift, f) && Branch(f.hash(key), shift) != b
    ensures NoneEqual(e, key, f)
  {
    hide Branch;
  }

  /** A property of the pairs in every slot of a range holds of the range. */
  lemma {:induction false} NoneEqualRange<K, V>(w: seq<Slot<K, V>>, key: K, f: Keys<K>)
    requires forall i | 0 <= i < |w| :: NoneEqual(SlotEntries(w[i]), key, f)
    ensures NoneEqual(EntriesOf(w), key, f)
  {
    if |w| > 0 {
      forall i | 0 <= i < |w[1..]| ensures NoneEqual(SlotEntries(w[1..][i]), key, f) {
        assert w[1..][i] == w[i + 1];
      }
      NoneEqualRange(w[1..], key, f);
      assert NoneEqual(SlotEntries(w[0]), key, f);
    }
  }

  /** The pairs of a node, seen from the branch that `key` would be in. */
  lemma {:induction false} AroundBranch<K(!new), V>(n: Node<K, V>, shift: nat, key: K, f: Keys<K>)
    requires Lawful(f) && Valid(n, shift, f) && !n.Collision?
    ensures var b := Branch(f.hash(key), shift);
      var p, x, q := EntriesOf(Wide(n)[..b]), SlotEntries(SlotAt(n, b)), EntriesOf(Wide(n)[b + 1..]);
      && Entries(n) == p + x + q && NoneEqual(p, key, f) && NoneEqual(q, key, f)
  {
    hide Branch;
    var b, w := Branch(f.hash(key), shift), Wide(n);
    WideEntries(n);
    EntriesSplit(w, b);
    forall i | 0 <= i < 32 && i != b ensures NoneEqual(SlotEntries(w[i]), key, f) {
      assert SlotOk(n, i, shift, f);
      OtherBranch(SlotEntries(w[i]), i, shift, key, f);
    }
    var left, right := w[..b], w[b + 1..];
    forall i | 0 <= i < |left| ensures NoneEqual(SlotEntries(left[i]), key, f) {}
    forall i | 0 <= i < |right| ensures NoneEqual(SlotEntries(right[i]), key, f) {}
    NoneEqualRange(left, key, f);
    NoneEqualRange(right, key, f);
  }

  /** Following the hash finds what a search of all pairs would find. */
  lemma {:induction false} NodeGetFinds<K(!new), V>(n: Node<K, V>, shift: nat, key: K, f: Keys<K>)
    requires Lawful(f) && Valid(n, shift, f)
    ensures NodeGet(n, shift, f.hash(key), key, f) == Find(Entries(n), key, f)
    decreases n
  {
    hide Branch;
    var hash := f.hash(key);
    if n.Collision? {
      if n.hash != hash { FindNone(n.entries, key, f); }
    } else {
      var b := Branch(hash, shift);
      AroundBranch(n, shift, key, f);
      var x := SlotAt(n, b);
      FindSkips(EntriesOf(Wide(n)[..b]), SlotEntries(x), EntriesOf(Wide(n)[b + 1..]), key, f);
      if n.Bitmap? { BitFacts(n.bits, b); }
      assert SlotOk(n, b, shift, f);
      match x
      case Sub(c) => NodeGetFinds(c, shift + 5, key, f);
      case Pair(k, v) => assert SlotEntries(x)[1..] == [];
      case Hole =>
    }
  }

  // ------------------------------------------------------------------- assoc

  function SingletonAt<K, V>(shift: nat, hash: nat, key: K, value: V): Node<K, V> {
    Bitmap(BitPos(hash, shift), [Pair(key, value)])
  }

  /** A node for two pairs, as deep as it takes for their hashes to part. */
  function MergeTwo<K, V>(shift: nat, hash1: nat, key1: K, value1: V, hash2: nat, key2: K, value2: V): Node<K, V>
    requires hash1 < WORD && hash2 < WORD && Agree(hash1, hash2, shift)
    decreases if shift < 32 then 32 - shift else 0
  {
    if hash1 == hash2 then Collision(hash1, [(key1, value1), (key2, value2)])
    else
      var bit1, bit2 := BitPos(hash1, shift), BitPos(hash2, shift);
      if Branch(hash1, shift) == Branch(hash2, shift) then
        AgreeBound(hash1, hash2, shift);
        AgreeStep(hash1, hash2, shift);
        Bitmap(bit1, [Sub(MergeTwo(shift + 5, hash1, key1, value1, hash2, key2, value2))])
      else if bit1 < bit2 then Bitmap(Or(bit1, bit2), [Pair(key1, value1), Pair(key2, value2)])
      else Bitmap(Or(bit1, bit2), [Pair(key2, value2), Pair(key1, value1)])
  }

  /** What `promote` leaves in a branch: pairs become nodes of their own. */
  function PromotedSlot<K, V>(n: Node<K, V>, b: nat, shift: nat, f: Keys<K>): Slot<K, V> {
    match SlotAt(n, b)
    case Pair(k, v) => Sub(SingletonAt(shift + 5, f.hash(k), k, v))
    case other => other
  }

  /** A bitmap node with sixteen entries becomes an array node with seventeen. */
  function Promote<K, V>(n: Node<K, V>, shift: nat, hash: nat, key: K, value: V, f: Keys<K>): Node<K, V> {
    var children := seq(32, b requires 0 <= b => PromotedSlot(n, b, shift, f));
    Array(17, children[Branch(hash, shift) := Sub(SingletonAt(shift + 5, hash, key, value))])
  }

  datatype Assoced<K, V> = Assoced(node: Node<K, V>, added: nat)

  function IndexOf<K, V>(e: seq<(K, V)>, key: K, f: Keys<K>): (at: nat)
    ensures at <= |e|
    ensures at < |e| ==> f.equal(e[at].0, key)
  {
    if |e| == 0 || f.equal(e[0].0, key) then 0 else 1 + IndexOf(e[1..], key, f)
  }

  function NodeAssoc<K(==), V(==)>(n: Node<K, V>, shift: nat, hash: nat, key: K, value: V, f: Keys<K>): Assoced<K, V>
    requires Valid(n, shift, f) && AllAgree(Entries(n), hash, shift, f)
    requires hash < WORD && forall p | p in Entries(n) :: f.hash(p.0) < WORD
    decreases n, if shift < 32 then 32 - shift else 0
  {
    var b := Branch(hash, shift);
    match n
    case Bitmap(bits, slots) =>
      var bit := BitPos(hash, shift);
      var at := BitmapIndex(bits, bit);
      BitFacts(bits, b);
      if And(bits, bit) == 0 then
        if PopCount(bits) >= 16 then Assoced(Promote(n, shift, hash, key, value, f), 1)
        else Assoced(Bitmap(Or(bits, bit), InsertAt(slots, at, Pair(key, value))), 1)
      else
        assert SlotOk(n, b, shift, f) && slots[at] == SlotAt(n, b);
        BelowAgrees(n, shift, hash, f);
        (match slots[at]
         case Sub(c) =>
           var r := NodeAssoc(c, shift + 5, hash, key, value, f);
           if r.node == c then Assoced(n, r.added) else Assoced(Bitmap(bits, slots[at := Sub(r.node)]), r.added)
         case Pair(k, v) =>
           if f.equal(k, key) then
             if v == value then Assoced(n, 0) else Assoced(Bitmap(bits, slots[at := Pair(k, value)]), 0)
           else
             assert (k, v) in SlotEntries(slots[at]);
             Assoced(Bitmap(bits, slots[at := Sub(MergeTwo(shift + 5, f.hash(k), k, v, hash, key, value))]), 1))
    case Array(count, slots) =>
      assert SlotOk(n, b, shift, f) && slots[b] == SlotAt(n, b);
      BelowAgrees(n, shift, hash, f);
      (match slots[b]
       case Sub(c) =>
         var r := NodeAssoc(c, shift + 5, hash, key, value, f);
         if r.node == c then Assoced(n, r.added) else Assoced(Array(count, slots[b := Sub(r.node)]), r.added)
       case _ => Assoced(Array(count + 1, slots[b := Sub(SingletonAt(shift + 5, hash, key, value))]), 1))
    case Collision(h, entries) =>
      if h != hash then
        var bit1, bit2 := BitPos(h, shift), BitPos(hash, shift);
        if Branch(h, shift) == b then
          CollisionAgrees(n, shift, hash, f);
          Assoced(Bitmap(bit1, [Sub(NodeAssoc(n, shift + 5, hash, key, value, f).node)]), 1)
        else if bit1 < bit2 then Assoced(Bitmap(Or(bit1, bit2), [Sub(n), Pair(key, value)]), 1)
        else Assoced(Bitmap(Or(bit1, bit2), [Pair(key, value), Sub(n)]), 1)
      else
        var at := IndexOf(entries, key, f);
        if at < |entries| then
          if entries[at].1 == value then Assoced(n, 0)
          else Assoced(Collision(h, entries[at := (entries[at].0, value)]), 0)
        else Assoced(Collision(h, entries + [(key, value)]), 1)
  }

  /** What is in the branch of a hash that agrees so far agrees further down. */
  lemma {:induction false} BelowAgrees<K, V>(n: Node<K, V>, shift: nat, hash: nat, f: Keys<K>)
    requires Valid(n, shift, f) && AllAgree(Entries(n), hash, shift, f) && !n.Collision?
    ensures forall p | p in SlotEntries(SlotAt(n, Branch(hash, shift))) :: p in Entries(n)
    ensures AllAgree(SlotEntries(SlotAt(n, Branch(hash, shift))), hash, shift + 5, f)
  {
    hide Branch, Agree;
    var b := Branch(hash, shift);
    WideEntries(n);
    EntriesSplit(Wide(n), b);
    assert SlotOk(n, b, shift, f);
    forall p | p in SlotEntries(SlotAt(n, b)) ensures p in Entries(n) && Agree(f.hash(p.0), hash, shift + 5) {
      AgreeStep(f.hash(p.0), hash, shift);
    }
  }

  lemma {:induction false} CollisionAgrees<K, V>(n: Node<K, V>, shift: nat, hash: nat, f: Keys<K>)
    requires Valid(n, shift, f) && AllAgree(Entries(n), hash, shift, f) && hash < WORD
    requires n.Collision? && n.hash != hash && Branch(n.hash, shift) == Branch(hash, shift)
    ensures AllAgree(Entries(n), hash, shift + 5, f) && shift < 32
  {
    hide Branch, Agree;
    assert n.entries[0] in n.entries;
    AgreeStep(n.hash, hash, shift);
    AgreeBound(n.hash, hash, shift);
  }

  // ------------------------------------------ nodes that differ in one branch

  ghost predicate Structured<K, V>(n: Node<K, V>) {
    match n
    case Bitmap(bits, slots) => Fits(bits, slots) && 1 <= |slots| <= 16
    case Array(count, slots) =>
      |slots| == 32 && 9 <= count <= 32 && count == CountFull(slots) && forall b | 0 <= b < 32 :: !SlotAt(n, b).Pair?
    case Collision(_, _) => false
  }

  /** Changing branch `b` to something that belongs there keeps a node valid, and
      changes its pairs only there. */
  lemma {:induction false} BranchReplaced<K, V>(n: Node<K, V>, n': Node<K, V>, b: nat, x: Slot<K, V>, shift: nat,
      f: Keys<K>)
    requires Valid(n, shift, f) && !n.Collision? && b < 32
    requires Structured(n') && Wide(n') == Wide(n)[b := x]
    requires AllBranch(SlotEntries(x), b, shift, f) && (x.Sub? ==> Valid(x.node, shift + 5, f))
    ensures Valid(n', shift, f)
    ensures Entries(n') == EntriesOf(Wide(n)[..b]) + SlotEntries(x) + EntriesOf(Wide(n)[b + 1..])
  {
    hide Branch;
    WideEntries(n');
    EntriesUpdate(Wide(n), b, x);
    forall i | 0 <= i < 32 ensures SlotOk(n', i, shift, f) {
      assert SlotAt(n', i) == Wide(n')[i];
      assert SlotAt(n, i) == Wide(n)[i];
      assert SlotOk(n, i, shift, f);
    }
  }

  function Holes<K, V>(): seq<Slot<K, V>> { seq(32, _ => Hole) }

  lemma {:induction false} RankOfZero(n: nat)
    ensures Rank(0, n) == 0
  {
    if n > 0 { RankOfZero(n - 1); HasZero(n - 1); }
  }

  lemma {:induction false} OneSlot<K, V>(b: nat, x: Slot<K, V>)
    requires b < 32 && !x.Hole?
    ensures Fits(Pow2(b), [x]) && Wide(Bitmap(Pow2(b), [x])) == Holes()[b := x]
    ensures forall i | 0 <= i < 32 :: Rank(Pow2(b), i) == if b < i then 1 else 0
  {
    Pow2Values();
    Pow2Below(b, 32);
    forall i: nat ensures (Has(Pow2(b), i) <==> Has(0, i) || i == b) && !Has(0, i) { HasPow2(b, i); HasZero(i); }
    CountAfterSet(0, Pow2(b), b, 32);
    forall i | 0 <= i <= 32 ensures Rank(Pow2(b), i) == if b < i then 1 else 0 {
      RankAfterSet(0, Pow2(b), b, i);
      RankOfZero(i);
    }
  }

  lemma {:induction false} TwoSlots<K, V>(b: nat, x: Slot<K, V>, c: nat, y: Slot<K, V>)
    requires b < 32 && c < 32 && b != c && !x.Hole? && !y.Hole?
    ensures Pow2(b) < Pow2(c) <==> b < c
    ensures Fits(Or(Pow2(b), Pow2(c)), if b < c then [x, y] else [y, x])
    ensures Wide(Bitmap(Or(Pow2(b), Pow2(c)), if b < c then [x, y] else [y, x])) == Holes()[b := x][c := y]
  {
    if b < c { Pow2Below(b, c); } else { Pow2Below(c, b); }
    OneSlot(b, x);
    HasPow2(b, c);
    InsertBranch(Pow2(b), [x], c, y);
    assert InsertAt([x], Rank(Pow2(b), c), y) == if b < c then [x, y] else [y, x];
  }

  /** A bitmap node with one slot, if what is in it belongs there. */
  lemma {:induction false} OneSlotValid<K, V>(b: nat, x: Slot<K, V>, shift: nat, f: Keys<K>)
    requires b < 32 && !x.Hole? && AllBranch(SlotEntries(x), b, shift, f)
    requires x.Sub? ==> Valid(x.node, shift + 5, f)
    ensures Valid(Bitmap(Pow2(b), [x]), shift, f) && Entries(Bitmap(Pow2(b), [x])) == SlotEntries(x)
  {
    hide Branch;
    var n := Bitmap(Pow2(b), [x]);
    OneSlot(b, x);
    EntriesOne(x);
    forall i | 0 <= i < 32 ensures SlotOk(n, i, shift, f) {
      assert SlotAt(n, i) == Wide(n)[i];
    }
  }

  lemma {:induction false} TwoSlotsValid<K, V>(b: nat, x: Slot<K, V>, c: nat, y: Slot<K, V>, shift: nat, f: Keys<K>)
    requires b < 32 && c < 32 && b != c && !x.Hole? && !y.Hole?
    requires AllBranch(SlotEntries(x), b, shift, f) && AllBranch(SlotEntries(y), c, shift, f)
    requires x.Sub? ==> Valid(x.node, shift + 5, f)
    requires y.Sub? ==> Valid(y.node, shift + 5, f)
    ensures Pow2(b) < Pow2(c) <==> b < c
    ensures var n := Bitmap(Or(Pow2(b), Pow2(c)), if b < c then [x, y] else [y, x]);
      Valid(n, shift, f) && Entries(n) == if b < c then SlotEntries(x) + SlotEntries(y)
          else SlotEntries(y) + SlotEntries(x)
  {
    hide Branch;
    var slots := if b < c then [x, y] else [y, x];
    var n := Bitmap(Or(Pow2(b), Pow2(c)), slots);
    TwoSlots(b, x, c, y);
    EntriesOne(slots[1]);
    assert slots[1..] == [slots[1]];
    forall i | 0 <= i < 32 ensures SlotOk(n, i, shift, f) {
      assert SlotAt(n, i) == Wide(n)[i];
    }
  }

  lemma {:induction false} SingletonValid<K, V>(shift: nat, key: K, value: V, f: Keys<K>)
    ensures Valid(SingletonAt(shift, f.hash(key), key, value), shift, f)
    ensures Entries(SingletonAt(shift, f.hash(key), key, value)) == [(key, value)]
  {
    hide Branch;
    OneSlotValid(Branch(f.hash(key), shift), Pair(key, value), shift, f);
  }

  /** `merge_two` keeps exactly the two pairs it is given. */
  lemma {:induction false} MergeTwoValid<K, V>(shift: nat, key1: K, value1: V, key2: K, value2: V, f: Keys<K>)
    requires f.hash(key1) < WORD && f.hash(key2) < WORD && Agree(f.hash(key1), f.hash(key2), shift)
    ensures var n := MergeTwo(shift, f.hash(key1), key1, value1, f.hash(key2), key2, value2);
      && Valid(n, shift, f)
      && (Entries(n) == [(key1, value1), (key2, value2)] || Entries(n) == [(key2, value2), (key1, value1)])
    decreases if shift < 32 then 32 - shift else 0
  {
    hide Branch, Agree;
    var hash1, hash2 := f.hash(key1), f.hash(key2);
    var b, c := Branch(hash1, shift), Branch(hash2, shift);
    if hash1 != hash2 {
      if b == c {
        AgreeBound(hash1, hash2, shift);
        AgreeStep(hash1, hash2, shift);
        MergeTwoValid(shift + 5, key1, value1, key2, value2, f);
        OneSlotValid(b, Sub(MergeTwo(shift + 5, hash1, key1, value1, hash2, key2, value2)), shift, f);
      } else {
        TwoSlotsValid(b, Pair(key1, value1), c, Pair(key2, value2), shift, f);
      }
    }
  }

  // -------------------------------------------------- counting filled branches

  lemma {:induction false} CountFullUpdate<K, V>(w: seq<Slot<K, V>>, b: nat, x: Slot<K, V>)
    requires b < |w|
    ensures CountFull(w[b := x]) + (if w[b].Hole? then 0 else 1) == CountFull(w) + (if x.Hole? then 0 else 1)
  {
    var last := |w| - 1;
    if b < last {
      CountFullUpdate(w[..last], b, x);
      assert w[b := x][..last] == w[..last][b := x];
    } else {
      assert w[b := x][..last] == w[..last];
    }
  }

  lemma {:induction false} CountFullBitmap<K, V>(bits: nat, slots: seq<Slot<K, V>>, i: nat)
    requires Fits(bits, slots) && i <= 32
    ensures CountFull(Wide(Bitmap(bits, slots))[..i]) == Rank(bits, i)
  {
    if i > 0 {
      CountFullBitmap(bits, slots, i - 1);
      var w := Wide(Bitmap(bits, slots));
      assert w[..i][..i - 1] == w[..i - 1];
      assert w[i - 1] == SlotAt(Bitmap(bits, slots), i - 1);
    }
  }

  lemma {:induction false} CountFullSame<K, V>(w: seq<Slot<K, V>>, w': seq<Slot<K, V>>)
    requires |w| == |w'| && forall i | 0 <= i < |w| :: w[i].Hole? == w'[i].Hole?
    ensures CountFull(w) == CountFull(w')
  {
    if |w| > 0 { CountFullSame(w[..|w| - 1], w'[..|w'| - 1]); }
  }

  lemma {:induction false} EntriesSame<K, V>(w: seq<Slot<K, V>>, w': seq<Slot<K, V>>)
    requires |w| == |w'| && forall i | 0 <= i < |w| :: SlotEntries(w[i]) == SlotEntries(w'[i])
    ensures EntriesOf(w) == EntriesOf(w')
  {
    if |w| > 0 { EntriesSame(w[1..], w'[1..]); }
  }

  /** What promotion leaves in a branch holds the same pairs, and is never a pair. */
  lemma {:induction false} PromotedBranch<K, V>(n: Node<K, V>, i: nat, shift: nat, f: Keys<K>)
    requires Valid(n, shift, f) && n.Bitmap? && i < 32
    ensures var c, x := PromotedSlot(n, i, shift, f), SlotAt(n, i);
      && SlotEntries(c) == SlotEntries(x) && c.Hole? == x.Hole? && !c.Pair?
      && (c.Sub? ==> Valid(c.node, shift + 5, f)) && AllBranch(SlotEntries(c), i, shift, f)
  {
    hide Branch, SingletonAt;
    assert SlotOk(n, i, shift, f);
    if SlotAt(n, i).Pair? { SingletonValid(shift + 5, SlotAt(n, i).key, SlotAt(n, i).value, f); }
  }

  /** Promotion keeps every pair in its place and adds the new one in its branch. */
  lemma {:induction false} PromoteValid<K, V>(n: Node<K, V>, shift: nat, key: K, value: V, f: Keys<K>)
    requires Valid(n, shift, f) && n.Bitmap? && |n.slots| == 16 && !Has(n.bits, Branch(f.hash(key), shift))
    ensures var b, n' := Branch(f.hash(key), shift), Promote(n, shift, f.hash(key), key, value, f);
      Valid(n', shift, f) && Entries(n') == EntriesOf(Wide(n)[..b]) + [(key, value)] + EntriesOf(Wide(n)[b + 1..])
  {
    hide Branch, SingletonAt, PromotedSlot;
    var b, w := Branch(f.hash(key), shift), Wide(n);
    var children := seq(32, i requires 0 <= i => PromotedSlot(n, i, shift, f));
    var x := Sub(SingletonAt(shift + 5, f.hash(key), key, value));
    var n' := Promote(n, shift, f.hash(key), key, value, f);
    SingletonValid(shift + 5, key, value, f);
    forall i | 0 <= i < 32
      ensures SlotEntries(children[i]) == SlotEntries(w[i]) && children[i].Hole? == w[i].Hole?
      ensures children[i].Sub? ==> Valid(children[i].node, shift + 5, f)
      ensures AllBranch(SlotEntries(children[i]), i, shift, f) && !children[i].Pair?
    {
      PromotedBranch(n, i, shift, f);
    }
    EntriesSame(children[..b], w[..b]);
    EntriesSame(children[b + 1..], w[b + 1..]);
    EntriesUpdate(children, b, x);
    var all := 32;
    CountFullBitmap(n.bits, n.slots, all);
    RankOfAll(n.bits, 0, all);
    assert w[..all] == w;
    CountFullSame(children, w);
    CountFullUpdate(children, b, x);
    forall i | 0 <= i < 32 ensures SlotOk(n', i, shift, f) && !SlotAt(n', i).Pair? {
      assert SlotAt(n', i) == if i == b then x else children[i];
    }
  }

  // --------------------------------------------------- what an insertion does

  /** `e'` is `e` with `(key, value)` inserted at `at`, or, when something is there
      with an equal key, with that pair's value replaced. */
  ghost predicate Put<K, V>(e: seq<(K, V)>, e': seq<(K, V)>, at: nat, key: K, value: V, added: nat, f: Keys<K>) {
    if added == 0
    then at < |e| && f.equal(e[at].0, key) && e' == e[at := (e[at].0, value)]
    else added == 1 && at <= |e| && NoneEqual(e, key, f) && e' == e[..at] + [(key, value)] + e[at..]
  }

  lemma {:induction false} PutInside<K, V>(p: seq<(K, V)>, x: seq<(K, V)>, x': seq<(K, V)>, q: seq<(K, V)>, at: nat,
      key: K, value: V, added: nat, f: Keys<K>)
    requires Put(x, x', at, key, value, added, f) && NoneEqual(p, key, f) && NoneEqual(q, key, f)
    ensures Put(p + x + q, p + x' + q, |p| + at, key, value, added, f)
  {
    var e, e' := p + x + q, p + x' + q;
    if added == 0 {
      assert e' == e[|p| + at := (e[|p| + at].0, value)];
    } else {
      assert e' == e[..|p| + at] + [(key, value)] + e[|p| + at..];
    }
  }

  lemma {:induction false} PutBranch<K, V>(x: seq<(K, V)>, x': seq<(K, V)>, at: nat, key: K, value: V, added: nat,
      b: nat, shift: nat, f: Keys<K>)
    requires Put(x, x', at, key, value, added, f) && AllBranch(x, b, shift, f) && Branch(f.hash(key), shift) == b
    ensures AllBranch(x', b, shift, f)
  {
    hide Branch;
  }

  /** A branch after an insertion into the node that was there. */
  lemma {:induction false} AssocBelow<K(!new), V>(n: Node<K, V>, n': Node<K, V>, c': Slot<K, V>, shift: nat, at: nat,
      key: K, value: V, added: nat, f: Keys<K>)
    requires Lawful(f) && Valid(n, shift, f) && !n.Collision?
    requires var b := Branch(f.hash(key), shift);
      && Put(SlotEntries(SlotAt(n, b)), SlotEntries(c'), at, key, value, added, f)
      && (c'.Sub? ==> Valid(c'.node, shift + 5, f))
      && Structured(n') && Wide(n') == Wide(n)[b := c']
    ensures Valid(n', shift, f)
    ensures Put(Entries(n), Entries(n'), |EntriesOf(Wide(n)[..Branch(f.hash(key), shift)])| + at, key, value, added, f)
  {
    hide Branch, Valid;
    var b := Branch(f.hash(key), shift);
    assert SlotOk(n, b, shift, f) by { SlotsOk(n, b, shift, f); }
    PutBranch(SlotEntries(SlotAt(n, b)), SlotEntries(c'), at, key, value, added, b, shift, f);
    BranchReplaced(n, n', b, c', shift, f);
    AroundBranch(n, shift, key, f);
    PutInside(EntriesOf(Wide(n)[..b]), SlotEntries(SlotAt(n, b)), SlotEntries(c'), EntriesOf(Wide(n)[b + 1..]), at,
        key, value, added, f);
  }

  lemma {:induction false} SlotsOk<K, V>(n: Node<K, V>, b: nat, shift: nat, f: Keys<K>)
    requires Valid(n, shift, f) && !n.Collision? && b < 32
    ensures SlotOk(n, b, shift, f) && Structured(n)
  {}

  /** `node_assoc` keeps a node valid, and does to its pairs what `Put` says. */
  lemma {:induction false} NodeAssocPuts<K(!new), V>(n: Node<K, V>, shift: nat, key: K, value: V, f: Keys<K>)
    returns (at: nat)
    requires Lawful(f) && Valid(n, shift, f) && AllAgree(Entries(n), f.hash(key), shift, f)
    ensures var r := NodeAssoc(n, shift, f.hash(key), key, value, f);
      Valid(r.node, shift, f) && Put(Entries(n), Entries(r.node), at, key, value, r.added, f)
    decreases n, if shift < 32 then 32 - shift else 0
  {
    match n
    case Bitmap(_, _) => at := BitmapAssocPuts(n, shift, key, value, f);
    case Array(_, _) => at := ArrayAssocPuts(n, shift, key, value, f);
    case Collision(_, _) => at := CollisionAssocPuts(n, shift, key, value, f);
  }

  lemma {:induction false} BitmapAssocPuts<K(!new), V>(n: Node<K, V>, shift: nat, key: K, value: V, f: Keys<K>)
    returns (at: nat)
    requires Lawful(f) && Valid(n, shift, f) && AllAgree(Entries(n), f.hash(key), shift, f) && n.Bitmap?
    ensures var r := NodeAssoc(n, shift, f.hash(key), key, value, f);
      Valid(r.node, shift, f) && Put(Entries(n), Entries(r.node), at, key, value, r.added, f)
    decreases n, 0, 1
  {
    hide Branch, Agree, Valid, Entries;
    var hash := f.hash(key);
    var b := Branch(hash, shift);
    match SlotAt(n, b)
    case Hole => at := BitmapHolePuts(n, shift, key, value, f);
    case Pair(_, _) => at := BitmapPairPuts(n, shift, key, value, f);
    case Sub(_) => at := BitmapSubPuts(n, shift, key, value, f);
  }

  lemma {:induction false} BitmapSubPuts<K(!new), V>(n: Node<K, V>, shift: nat, key: K, value: V, f: Keys<K>)
    returns (at: nat)
    requires Lawful(f) && Valid(n, shift, f) && AllAgree(Entries(n), f.hash(key), shift, f) && n.Bitmap?
    requires SlotAt(n, Branch(f.hash(key), shift)).Sub?
    ensures var r := NodeAssoc(n, shift, f.hash(key), key, value, f);
      Valid(r.node, shift, f) && Put(Entries(n), Entries(r.node), at, key, value, r.added, f)
    decreases n, 0, 0
  {
    hide Branch, Agree, Valid, Entries, MergeTwo, Promote, SingletonAt;
    var hash := f.hash(key);
    var b := Branch(hash, shift);
    var c := SlotAt(n, b).node;
    SlotsOk(n, b, shift, f);
    BitFacts(n.bits, b);
    BelowAgrees(n, shift, hash, f);
    var i := NodeAssocPuts(c, shift + 5, key, value, f);
    var rc := NodeAssoc(c, shift + 5, hash, key, value, f);
    at := |EntriesOf(Wide(n)[..b])| + i;
    UpdateBranch(n.bits, n.slots, b, Sub(rc.node));
    AssocBelow(n, Bitmap(n.bits, n.slots[Rank(n.bits, b) := Sub(rc.node)]), Sub(rc.node), shift, i, key, value,
        rc.added, f);
    if rc.node == c { assert n.slots[Rank(n.bits, b) := Sub(rc.node)] == n.slots; }
  }

  lemma {:induction false} BitmapHolePuts<K(!new), V>(n: Node<K, V>, shift: nat, key: K, value: V, f: Keys<K>)
    returns (at: nat)
    requires Lawful(f) && Valid(n, shift, f) && AllAgree(Entries(n), f.hash(key), shift, f) && n.Bitmap?
    requires SlotAt(n, Branch(f.hash(key), shift)).Hole?
    ensures var r := NodeAssoc(n, shift, f.hash(key), key, value, f);
      Valid(r.node, shift, f) && Put(Entries(n), Entries(r.node), at, key, value, r.added, f)
  {
    hide Branch;
    var b := Branch(f.hash(key), shift);
    var p, q := EntriesOf(Wide(n)[..b]), EntriesOf(Wide(n)[b + 1..]);
    BitFacts(n.bits, b);
    SlotsOk(n, b, shift, f);
    at := |p|;
    assert Put([], [(key, value)], 0, key, value, 1, f);
    if PopCount(n.bits) >= 16 {
      AroundBranch(n, shift, key, f);
      PromoteValid(n, shift, key, value, f);
      PutInside(p, [], [(key, value)], q, 0, key, value, 1, f);
    } else {
      InsertBranch(n.bits, n.slots, b, Pair(key, value));
      var n' := Bitmap(Or(n.bits, Pow2(b)), InsertAt(n.slots, Rank(n.bits, b), Pair(key, value)));
      AssocBelow(n, n', Pair(key, value), shift, 0, key, value, 1, f);
    }
  }

  lemma {:induction false} BitmapPairPuts<K(!new), V>(n: Node<K, V>, shift: nat, key: K, value: V, f: Keys<K>)
    returns (at: nat)
    requires Lawful(f) && Valid(n, shift, f) && AllAgree(Entries(n), f.hash(key), shift, f) && n.Bitmap?
    requires SlotAt(n, Branch(f.hash(key), shift)).Pair?
    ensures var r := NodeAssoc(n, shift, f.hash(key), key, value, f);
      Valid(r.node, shift, f) && Put(Entries(n), Entries(r.node), at, key, value, r.added, f)
  {
    hide Branch, Agree, MergeTwo, Valid, Entries;
    if f.equal(SlotAt(n, Branch(f.hash(key), shift)).key, key) {
      at := BitmapReplacePuts(n, shift, key, value, f);
    } else {
      at := BitmapMergePuts(n, shift, key, value, f);
    }
  }

  lemma {:induction false} BitmapReplacePuts<K(!new), V>(n: Node<K, V>, shift: nat, key: K, value: V, f: Keys<K>)
    returns (at: nat)
    requires Lawful(f) && Valid(n, shift, f) && AllAgree(Entries(n), f.hash(key), shift, f) && n.Bitmap?
    requires SlotAt(n, Branch(f.hash(key), shift)).Pair? && f.equal(SlotAt(n, Branch(f.hash(key), shift)).key, key)
    ensures var r := NodeAssoc(n, shift, f.hash(key), key, value, f);
      Valid(r.node, shift, f) && Put(Entries(n), Entries(r.node), at, key, value, r.added, f)
  {
    hide Branch, Agree, MergeTwo, Valid, Entries;
    var hash := f.hash(key);
    var b := Branch(hash, shift);
    var Pair(k, v) := SlotAt(n, b);
    SlotsOk(n, b, shift, f);
    BitFacts(n.bits, b);
    BelowAgrees(n, shift, hash, f);
    assert SlotEntries(SlotAt(n, b)) == [(k, v)];
    at := |EntriesOf(Wide(n)[..b])|;
    var x := Pair(k, value);
    UpdateBranch(n.bits, n.slots, b, x);
    AssocBelow(n, Bitmap(n.bits, n.slots[Rank(n.bits, b) := x]), x, shift, 0, key, value, 0, f);
    if v == value { assert n.slots[Rank(n.bits, b) := x] == n.slots; }
  }

  lemma {:induction false} BitmapMergePuts<K(!new), V>(n: Node<K, V>, shift: nat, key: K, value: V, f: Keys<K>)
    returns (at: nat)
    requires Lawful(f) && Valid(n, shift, f) && AllAgree(Entries(n), f.hash(key), shift, f) && n.Bitmap?
    requires SlotAt(n, Branch(f.hash(key), shift)).Pair? && !f.equal(SlotAt(n, Branch(f.hash(key), shift)).key, key)
    ensures var r := NodeAssoc(n, shift, f.hash(key), key, value, f);
      Valid(r.node, shift, f) && Put(Entries(n), Entries(r.node), at, key, value, r.added, f)
  {
    hide Branch, Agree, MergeTwo, Valid, Entries, Promote, SingletonAt;
    var hash := f.hash(key);
    var b := Branch(hash, shift);
    var Pair(k, v) := SlotAt(n, b);
    SlotsOk(n, b, shift, f);
    BitFacts(n.bits, b);
    BelowAgrees(n, shift, hash, f);
    assert SlotEntries(SlotAt(n, b)) == [(k, v)];
    assert (k, v) in SlotEntries(SlotAt(n, b));
    var c := MergeTwo(shift + 5, f.hash(k), k, v, hash, key, value);
    var i := MergePuts(shift + 5, k, v, key, value, f);
    at := |EntriesOf(Wide(n)[..b])| + i;
    UpdateBranch(n.bits, n.slots, b, Sub(c));
    AssocBelow(n, Bitmap(n.bits, n.slots[Rank(n.bits, b) := Sub(c)]), Sub(c), shift, i, key, value, 1, f);
  }

  lemma {:induction false} MergePuts<K(!new), V>(shift: nat, k: K, v: V, key: K, value: V, f: Keys<K>) returns (at: nat)
    requires Lawful(f) && Agree(f.hash(k), f.hash(key), shift) && !f.equal(k, key)
    ensures var c := MergeTwo(shift, f.hash(k), k, v, f.hash(key), key, value);
      Valid(c, shift, f) && Put([(k, v)], Entries(c), at, key, value, 1, f)
  {
    hide Branch, Agree, MergeTwo;
    MergeTwoValid(shift, k, v, key, value, f);
    var c := MergeTwo(shift, f.hash(k), k, v, f.hash(key), key, value);
    at := if Entries(c) == [(k, v), (key, value)] then 1 else 0;
  }

  lemma {:induction false} ArrayAssocPuts<K(!new), V>(n: Node<K, V>, shift: nat, key: K, value: V, f: Keys<K>)
    returns (at: nat)
    requires Lawful(f) && Valid(n, shift, f) && AllAgree(Entries(n), f.hash(key), shift, f) && n.Array?
    ensures var r := NodeAssoc(n, shift, f.hash(key), key, value, f);
      Valid(r.node, shift, f) && Put(Entries(n), Entries(r.node), at, key, value, r.added, f)
    decreases n, 0, 1
  {
    hide Branch, Agree, Valid, Entries;
    var b := Branch(f.hash(key), shift);
    SlotsOk(n, b, shift, f);
    ArrayNoPair(n, b, shift, f);
    if SlotAt(n, b).Sub? {
      at := ArraySubPuts(n, shift, key, value, f);
    } else {
      at := ArrayHolePuts(n, shift, key, value, f);
    }
  }

  lemma ArrayNoPair<K, V>(n: Node<K, V>, b: nat, shift: nat, f: Keys<K>)
    requires Valid(n, shift, f) && n.Array? && b < 32
    ensures !SlotAt(n, b).Pair?
  {}

  lemma {:induction false} ArraySubPuts<K(!new), V>(n: Node<K, V>, shift: nat, key: K, value: V, f: Keys<K>)
    returns (at: nat)
    requires Lawful(f) && Valid(n, shift, f) && AllAgree(Entries(n), f.hash(key), shift, f) && n.Array?
    requires SlotAt(n, Branch(f.hash(key), shift)).Sub?
    ensures var r := NodeAssoc(n, shift, f.hash(key), key, value, f);
      Valid(r.node, shift, f) && Put(Entries(n), Entries(r.node), at, key, value, r.added, f)
    decreases n, 0, 0
  {
    hide Branch, Agree, Valid, Entries;
    var hash := f.hash(key);
    var b := Branch(hash, shift);
    var c := SlotAt(n, b).node;
    AroundBranch(n, shift, key, f);
    SlotsOk(n, b, shift, f);
    BelowAgrees(n, shift, hash, f);
    var i := NodeAssocPuts(c, shift + 5, key, value, f);
    var rc := NodeAssoc(c, shift + 5, hash, key, value, f);
    at := |EntriesOf(Wide(n)[..b])| + i;
    ArraySet(n, b, Sub(rc.node), n.count);
    AssocBelow(n, Array(n.count, n.slots[b := Sub(rc.node)]), Sub(rc.node), shift, i, key, value, rc.added, f);
    if rc.node == c { assert n.slots[b := Sub(rc.node)] == n.slots; }
  }

  lemma {:induction false} ArrayHolePuts<K(!new), V>(n: Node<K, V>, shift: nat, key: K, value: V, f: Keys<K>)
    returns (at: nat)
    requires Lawful(f) && Valid(n, shift, f) && AllAgree(Entries(n), f.hash(key), shift, f) && n.Array?
    requires SlotAt(n, Branch(f.hash(key), shift)).Hole?
    ensures var r := NodeAssoc(n, shift, f.hash(key), key, value, f);
      Valid(r.node, shift, f) && Put(Entries(n), Entries(r.node), at, key, value, r.added, f)
  {
    hide Branch, Agree, Valid, Entries, SingletonAt;
    var hash := f.hash(key);
    var b := Branch(hash, shift);
    AroundBranch(n, shift, key, f);
    SlotsOk(n, b, shift, f);
    BelowAgrees(n, shift, hash, f);
    at := |EntriesOf(Wide(n)[..b])|;
    var x := Sub(SingletonAt(shift + 5, hash, key, value));
    SingletonValid(shift + 5, key, value, f);
    assert Put([], [(key, value)], 0, key, value, 1, f);
    ArraySet(n, b, x, n.count + 1);
    AssocBelow(n, NodeAssoc(n, shift, hash, key, value, f).node, x, shift, 0, key, value, 1, f);
  }

  lemma {:induction false} ArraySet<K, V>(n: Node<K, V>, b: nat, x: Slot<K, V>, count: nat)
    requires n.Array? && Structured(n) && b < 32 && x.Sub?
    requires count == n.count + if n.slots[b].Hole? then 1 else 0
    ensures Structured(Array(count, n.slots[b := x])) && Wide(Array(count, n.slots[b := x])) == Wide(n)[b := x]
  {
    CountFullUpdate(n.slots, b, x);
    var n' := Array(count, n.slots[b := x]);
    forall i | 0 <= i < 32 ensures SlotAt(n', i) == (if i == b then x else SlotAt(n, i)) && !SlotAt(n', i).Pair? {}
  }

  lemma {:induction false} CollisionAssocPuts<K(!new), V>(n: Node<K, V>, shift: nat, key: K, value: V, f: Keys<K>)
    returns (at: nat)
    requires Lawful(f) && Valid(n, shift, f) && AllAgree(Entries(n), f.hash(key), shift, f) && n.Collision?
    ensures var r := NodeAssoc(n, shift, f.hash(key), key, value, f);
      Valid(r.node, shift, f) && Put(Entries(n), Entries(r.node), at, key, value, r.added, f)
    decreases n, if shift < 32 then 32 - shift else 0, 0
  {
    hide Branch, Agree;
    var hash, e := f.hash(key), n.entries;
    var b, c := Branch(n.hash, shift), Branch(hash, shift);
    if n.hash != hash {
      assert NoneEqual(e, key, f);
      if b == c {
        CollisionAgrees(n, shift, hash, f);
        at := NodeAssocPuts(n, shift + 5, key, value, f);
        var rc := NodeAssoc(n, shift + 5, hash, key, value, f);
        assert at < |e| ==> e[at] in e;
        PutBranch(e, Entries(rc.node), at, key, value, 1, b, shift, f);
        OneSlotValid(b, Sub(rc.node), shift, f);
      } else {
        TwoSlotsValid(b, Sub(n), c, Pair(key, value), shift, f);
        at := if b < c then |e| else 0;
      }
    } else {
      at := IndexOf(e, key, f);
      if at < |e| {
        var e' := e[at := (e[at].0, value)];
        assert e[at] in e;
        if e[at].1 == value { assert e' == e; }
      } else {
        IndexOfNone(e, key, f);
      }
    }
  }

  lemma {:induction false} IndexOfNone<K, V>(e: seq<(K, V)>, key: K, f: Keys<K>)
    requires IndexOf(e, key, f) == |e|
    ensures NoneEqual(e, key, f)
  {
    if |e| > 0 {
      IndexOfNone(e[1..], key, f);
      forall p | p in e ensures !f.equal(p.0, key) { if p != e[0] { assert p in e[1..]; } }
    }
  }

  // ------------------------------------------------------------------ dissoc

  /** The bits and the packed slots of the branches below `i`, but for `removed`. */
  function PackedBits<K, V>(w: seq<Slot<K, V>>, removed: nat, i: nat): nat
    requires i <= |w|
  {
    if i == 0 then 0
    else if i - 1 != removed && !w[i - 1].Hole? then Or(PackedBits(w, removed, i - 1), Pow2(i - 1))
    else PackedBits(w, removed, i - 1)
  }

  function PackedSlots<K, V>(w: seq<Slot<K, V>>, removed: nat, i: nat): seq<Slot<K, V>>
    requires i <= |w|
  {
    if i == 0 then []
    else if i - 1 != removed && !w[i - 1].Hole? then PackedSlots(w, removed, i - 1) + [w[i - 1]]
    else PackedSlots(w, removed, i - 1)
  }

  /** An array node that would shrink below nine children becomes a bitmap node. */
  function PackArray<K, V>(n: Node<K, V>, removed: nat): Option<Node<K, V>>
    requires n.Array? && |n.slots| == 32
  {
    var bits := PackedBits(n.slots, removed, 32);
    if bits == 0 then None else Some(Bitmap(bits, PackedSlots(n.slots, removed, 32)))
  }

  datatype Dissoced<K, V> = Dissoced(node: Option<Node<K, V>>, removed: bool)

  function NodeDissoc<K, V>(n: Node<K, V>, shift: nat, hash: nat, key: K, f: Keys<K>): Dissoced<K, V>
    requires Valid(n, shift, f)
  {
    var b := Branch(hash, shift);
    match n
    case Bitmap(bits, slots) =>
      var bit := BitPos(hash, shift);
      BitFacts(bits, b);
      if And(bits, bit) == 0 then Dissoced(Some(n), false)
      else
        var at := BitmapIndex(bits, bit);
        assert slots[at] == SlotAt(n, b) && SlotOk(n, b, shift, f);
        (match slots[at]
         case Sub(c) =>
           var r := NodeDissoc(c, shift + 5, hash, key, f);
           if !r.removed then Dissoced(Some(n), false)
           else if r.node.None? then
             if bits == bit then Dissoced(None, true)
             else Dissoced(Some(Bitmap(Xor(bits, bit), RemoveAt(slots, at))), true)
           else Dissoced(Some(Bitmap(bits, slots[at := Sub(r.node.value)])), true)
         case Pair(k, _) =>
           if !f.equal(k, key) then Dissoced(Some(n), false)
           else if bits == bit then Dissoced(None, true)
           else Dissoced(Some(Bitmap(Xor(bits, bit), RemoveAt(slots, at))), true)
         case Hole => Dissoced(Some(n), false))
    case Array(count, slots) =>
      assert slots[b] == SlotAt(n, b) && SlotOk(n, b, shift, f);
      if !slots[b].Sub? then Dissoced(Some(n), false)
      else
        var r := NodeDissoc(slots[b].node, shift + 5, hash, key, f);
        if !r.removed then Dissoced(Some(n), false)
        else if r.node.None? then
          if count <= 9 then Dissoced(PackArray(n, b), true)
          else Dissoced(Some(Array(count - 1, slots[b := Hole])), true)
        else Dissoced(Some(Array(count, slots[b := Sub(r.node.value)])), true)
    case Collision(h, entries) =>
      if h != hash then Dissoced(Some(n), false)
      else
        var at := IndexOf(entries, key, f);
        if at == |entries| then Dissoced(Some(n), false)
        else if |entries| == 1 then Dissoced(None, true)
        else if |entries| == 2 then
          var keep := entries[if at == 0 then 1 else 0];
          Dissoced(Some(SingletonAt(shift, hash, keep.0, keep.1)), true)
        else Dissoced(Some(Collision(hash, RemoveAt(entries, at))), true)
  }

  function RestEntries<K, V>(r: Option<Node<K, V>>): seq<(K, V)> {
    match r
    case None => []
    case Some(n) => Entries(n)
  }

  /** `e'` is `e` without its pair at `at`, whose key is equal to `key`; or `e`
      itself when it has no such pair. */
  ghost predicate Cut<K, V>(e: seq<(K, V)>, e': seq<(K, V)>, at: nat, key: K, removed: bool, f: Keys<K>) {
    if removed then at < |e| && f.equal(e[at].0, key) && e' == RemoveAt(e, at)
    else e' == e && NoneEqual(e, key, f)
  }

  lemma {:induction false} CutInside<K, V>(p: seq<(K, V)>, x: seq<(K, V)>, x': seq<(K, V)>, q: seq<(K, V)>, at: nat,
      key: K, removed: bool, f: Keys<K>)
    requires Cut(x, x', at, key, removed, f) && NoneEqual(p, key, f) && NoneEqual(q, key, f)
    ensures Cut(p + x + q, p + x' + q, |p| + at, key, removed, f)
  {
    if removed {
      assert p + x' + q == RemoveAt(p + x + q, |p| + at);
    }
  }

  lemma {:induction false} CutBranch<K, V>(x: seq<(K, V)>, x': seq<(K, V)>, at: nat, key: K, removed: bool, b: nat,
      shift: nat, f: Keys<K>)
    requires Cut(x, x', at, key, removed, f) && AllBranch(x, b, shift, f)
    ensures AllBranch(x', b, shift, f)
  {
    hide Branch;
  }

  /** A branch after a removal from what was there. */
  lemma {:induction false} DissocBelow<K(!new), V>(n: Node<K, V>, n': Node<K, V>, c': Slot<K, V>, shift: nat, at: nat,
      key: K, f: Keys<K>)
    requires Lawful(f) && Valid(n, shift, f) && !n.Collision?
    requires var b := Branch(f.hash(key), shift);
      && Cut(SlotEntries(SlotAt(n, b)), SlotEntries(c'), at, key, true, f)
      && (c'.Sub? ==> Valid(c'.node, shift + 5, f))
      && Structured(n') && Wide(n') == Wide(n)[b := c']
    ensures Valid(n', shift, f)
    ensures Cut(Entries(n), Entries(n'), |EntriesOf(Wide(n)[..Branch(f.hash(key), shift)])| + at, key, true, f)
  {
    hide Branch, Valid;
    var b := Branch(f.hash(key), shift);
    SlotsOk(n, b, shift, f);
    CutBranch(SlotEntries(SlotAt(n, b)), SlotEntries(c'), at, key, true, b, shift, f);
    BranchReplaced(n, n', b, c', shift, f);
    AroundBranch(n, shift, key, f);
    CutInside(EntriesOf(Wide(n)[..b]), SlotEntries(SlotAt(n, b)), SlotEntries(c'), EntriesOf(Wide(n)[b + 1..]), at,
        key, true, f);
  }

  /** Nothing to remove in the one branch it could be in. */
  lemma {:induction false} NothingBelow<K(!new), V>(n: Node<K, V>, shift: nat, key: K, f: Keys<K>)
    requires Lawful(f) && Valid(n, shift, f) && !n.Collision?
    requires NoneEqual(SlotEntries(SlotAt(n, Branch(f.hash(key), shift))), key, f)
    ensures NoneEqual(Entries(n), key, f)
  {
    hide Branch, Valid;
    AroundBranch(n, shift, key, f);
  }

  /** A bitmap node whose only bit goes had nothing else. */
  lemma {:induction false} LastBranch<K, V>(n: Node<K, V>, b: nat)
    requires n.Bitmap? && Fits(n.bits, n.slots) && b < 32 && n.bits == Pow2(b)
    ensures Entries(n) == SlotEntries(SlotAt(n, b))
  {
    HasPow2(b, b);
    BitFacts(n.bits, b);
    forall i: nat ensures (Has(Pow2(b), i) <==> Has(0, i) || i == b) && !Has(0, i) { HasPow2(b, i); HasZero(i); }
    CountAfterSet(0, Pow2(b), b, 32);
    assert n.slots == [SlotAt(n, b)];
    EntriesOne(SlotAt(n, b));
  }

  /** A bitmap node with more than one bit keeps a slot when one goes. */
  lemma {:induction false} NotLastBranch(bits: nat, b: nat)
    requires bits < WORD && b < 32 && Has(bits, b) && bits != Pow2(b)
    ensures PopCount(bits) >= 2
  {
    Pow2Values();
    Pow2Below(b, 32);
    RankOfAll(bits, b, 32);
    if forall i: nat | i < 32 :: Has(bits, i) ==> i == b {
      forall i: nat | i < 32 ensures Has(bits, i) == Has(Pow2(b), i) { HasPow2(b, i); }
      BitsDetermine(bits, Pow2(b), 32);
    } else {
      var i: nat :| i < 32 && Has(bits, i) && i != b;
      RankOfAll(bits, i, 32);
      RankDistinct(bits, i, b);
    }
  }

  /** `node_dissoc` keeps what is left valid, and does to its pairs what `Cut` says. */
  lemma {:induction false} NodeDissocCuts<K(!new), V>(n: Node<K, V>, shift: nat, key: K, f: Keys<K>) returns (at: nat)
    requires Lawful(f) && Valid(n, shift, f)
    ensures var r := NodeDissoc(n, shift, f.hash(key), key, f);
      && Cut(Entries(n), RestEntries(r.node), at, key, r.removed, f)
      && (r.node.Some? ==> Valid(r.node.value, shift, f))
      && (!r.removed ==> r.node == Some(n))
    decreases n, 1
  {
    match n
    case Bitmap(_, _) => at := BitmapDissocCuts(n, shift, key, f);
    case Array(_, _) => at := ArrayDissocCuts(n, shift, key, f);
    case Collision(_, _) => at := CollisionDissocCuts(n, shift, key, f);
  }

  /** What is left of a bitmap node when branch `b` goes. */
  function WithoutBranch<K, V>(n: Node<K, V>, b: nat): Dissoced<K, V>
    requires n.Bitmap? && Rank(n.bits, b) < |n.slots|
  {
    if n.bits == Pow2(b) then Dissoced(None, true)
    else Dissoced(Some(Bitmap(Xor(n.bits, Pow2(b)), RemoveAt(n.slots, Rank(n.bits, b)))), true)
  }

  /** `node_dissoc` of a bitmap node, by what is in the branch of the key. */
  lemma {:induction false} BitmapDissocIs<K, V>(n: Node<K, V>, shift: nat, hash: nat, key: K, f: Keys<K>)
    requires Valid(n, shift, f) && n.Bitmap?
    ensures var b := Branch(hash, shift);
      var x := SlotAt(n, b);
      && (x.Hole? <==> And(n.bits, Pow2(b)) == 0) && BitmapIndex(n.bits, Pow2(b)) == Rank(n.bits, b)
      && (!x.Hole? ==> Has(n.bits, b) && Rank(n.bits, b) < |n.slots| && n.slots[Rank(n.bits, b)] == x)
      && (x.Sub? ==> Valid(x.node, shift + 5, f))
      && NodeDissoc(n, shift, hash, key, f) ==
           match x
           case Hole => Dissoced(Some(n), false)
           case Pair(k, _) => if f.equal(k, key) then WithoutBranch(n, b) else Dissoced(Some(n), false)
           case Sub(c) =>
             var r := NodeDissoc(c, shift + 5, hash, key, f);
             if !r.removed then Dissoced(Some(n), false)
             else if r.node.None? then WithoutBranch(n, b)
             else Dissoced(Some(Bitmap(n.bits, n.slots[Rank(n.bits, b) := Sub(r.node.value)])), true)
  {
    hide Branch;
    var b := Branch(hash, shift);
    SlotsOk(n, b, shift, f);
    BitFacts(n.bits, b);
  }

  /** `node_dissoc` of a bitmap node with a child in the branch of the key. */
  lemma {:induction false} BitmapDissocBelow<K(!new), V>(n: Node<K, V>, shift: nat, key: K, f: Keys<K>)
    returns (at: nat)
    requires Lawful(f) && Valid(n, shift, f) && n.Bitmap? && SlotAt(n, Branch(f.hash(key), shift)).Sub?
    ensures var r := NodeDissoc(n, shift, f.hash(key), key, f);
      && Cut(Entries(n), RestEntries(r.node), at, key, r.removed, f)
      && (r.node.Some? ==> Valid(r.node.value, shift, f))
      && (!r.removed ==> r.node == Some(n))
    decreases n, 0, 0
  {
    hide Branch, NodeDissoc, Valid, Entries, And, Has, Xor, Rank, Fits, SlotAt, SlotOk, Lawful, EntriesOf;
    var hash := f.hash(key);
    var b := Branch(hash, shift);
    SlotsOk(n, b, shift, f);
    BitmapDissocIs(n, shift, hash, key, f);
    var c := SlotAt(n, b).node;
    var i := NodeDissocCuts(c, shift + 5, key, f);
    var r := NodeDissoc(c, shift + 5, hash, key, f);
    at := 0;
    if !r.removed {
      NothingBelow(n, shift, key, f);
    } else if r.node.None? {
      at := BitmapDropBranch(n, shift, key, i, f);
    } else {
      at := |EntriesOf(Wide(n)[..b])| + i;
      var x := Sub(r.node.value);
      UpdateBranch(n.bits, n.slots, b, x);
      DissocBelow(n, Bitmap(n.bits, n.slots[Rank(n.bits, b) := x]), x, shift, i, key, f);
    }
  }

  lemma {:induction false} BitmapDissocCuts<K(!new), V>(n: Node<K, V>, shift: nat, key: K, f: Keys<K>) returns (at: nat)
    requires Lawful(f) && Valid(n, shift, f) && n.Bitmap?
    ensures var r := NodeDissoc(n, shift, f.hash(key), key, f);
      && Cut(Entries(n), RestEntries(r.node), at, key, r.removed, f)
      && (r.node.Some? ==> Valid(r.node.value, shift, f))
      && (!r.removed ==> r.node == Some(n))
    decreases n, 0, 1
  {
    hide Branch, NodeDissoc, Valid, Entries, And, Has, PopCount, Xor;
    var hash := f.hash(key);
    var b := Branch(hash, shift);
    SlotsOk(n, b, shift, f);
    BitmapDissocIs(n, shift, hash, key, f);
    at := 0;
    match SlotAt(n, b)
    case Hole => NothingBelow(n, shift, key, f);
    case Pair(k, v) =>
      if f.equal(k, key) {
        at := BitmapDropBranch(n, shift, key, 0, f);
      } else {
        NothingBelow(n, shift, key, f);
      }
    case Sub(_) => at := BitmapDissocBelow(n, shift, key, f);
  }

  /** A whole branch goes, and with it the node when it has no other. */
  lemma {:induction false} BitmapDropBranch<K(!new), V>(n: Node<K, V>, shift: nat, key: K, i: nat, f: Keys<K>)
    returns (at: nat)
    requires Lawful(f) && Valid(n, shift, f) && n.Bitmap?
    requires var x := SlotAt(n, Branch(f.hash(key), shift)); !x.Hole? && Cut(SlotEntries(x), [], i, key, true, f)
    ensures var b := Branch(f.hash(key), shift);
      && Rank(n.bits, b) < |n.slots|
      && if n.bits == Pow2(b) then Cut(Entries(n), [], at, key, true, f)
         else var n' := Bitmap(Xor(n.bits, Pow2(b)), RemoveAt(n.slots, Rank(n.bits, b)));
              Valid(n', shift, f) && Cut(Entries(n), Entries(n'), at, key, true, f)
  {
    hide Branch;
    var b := Branch(f.hash(key), shift);
    SlotsOk(n, b, shift, f);
    BitFacts(n.bits, b);
    if n.bits == Pow2(b) {
      LastBranch(n, b);
      at := i;
    } else {
      NotLastBranch(n.bits, b);
      RemoveBranch(n.bits, n.slots, b);
      at := |EntriesOf(Wide(n)[..b])| + i;
      DissocBelow(n, Bitmap(Xor(n.bits, Pow2(b)), RemoveAt(n.slots, Rank(n.bits, b))), Hole, shift, i, key, f);
    }
  }

  /** `node_dissoc` of an array node, by what is in the branch of the key. */
  lemma {:induction false} ArrayDissocIs<K, V>(n: Node<K, V>, shift: nat, hash: nat, key: K, f: Keys<K>)
    requires Valid(n, shift, f) && n.Array?
    ensures var b := Branch(hash, shift);
      var x := SlotAt(n, b);
      && |n.slots| == 32 && !x.Pair? && n.slots[b] == x
      && (x.Sub? ==> Valid(x.node, shift + 5, f))
      && NodeDissoc(n, shift, hash, key, f) ==
           if x.Hole? then Dissoced(Some(n), false)
           else
             var r := NodeDissoc(x.node, shift + 5, hash, key, f);
             if !r.removed then Dissoced(Some(n), false)
             else if r.node.Some? then Dissoced(Some(Array(n.count, n.slots[b := Sub(r.node.value)])), true)
             else if n.count <= 9 then Dissoced(PackArray(n, b), true)
             else Dissoced(Some(Array(n.count - 1, n.slots[b := Hole])), true)
  {
    hide Branch;
    SlotsOk(n, Branch(hash, shift), shift, f);
  }

  lemma {:induction false} ArrayDissocCuts<K(!new), V>(n: Node<K, V>, shift: nat, key: K, f: Keys<K>) returns (at: nat)
    requires Lawful(f) && Valid(n, shift, f) && n.Array?
    ensures var r := NodeDissoc(n, shift, f.hash(key), key, f);
      && Cut(Entries(n), RestEntries(r.node), at, key, r.removed, f)
      && (r.node.Some? ==> Valid(r.node.value, shift, f))
      && (!r.removed ==> r.node == Some(n))
    decreases n, 0
  {
    hide Branch, NodeDissoc, Valid, Entries, PackArray;
    var hash := f.hash(key);
    var b := Branch(hash, shift);
    SlotsOk(n, b, shift, f);
    ArrayDissocIs(n, shift, hash, key, f);
    at := 0;
    match SlotAt(n, b)
    case Hole => NothingBelow(n, shift, key, f);
    case Sub(c) =>
      var i := NodeDissocCuts(c, shift + 5, key, f);
      var r := NodeDissoc(c, shift + 5, hash, key, f);
      if !r.removed {
        NothingBelow(n, shift, key, f);
      } else {
        at := |EntriesOf(Wide(n)[..b])| + i;
        if r.node.Some? {
          var x := Sub(r.node.value);
          ArraySet(n, b, x, n.count);
          DissocBelow(n, Array(n.count, n.slots[b := x]), x, shift, i, key, f);
        } else if n.count > 9 {
          ArrayClear(n, b);
          DissocBelow(n, Array(n.count - 1, n.slots[b := Hole]), Hole, shift, i, key, f);
        } else {
          PackedFits(n, b);
          DissocBelow(n, PackArray(n, b).value, Hole, shift, i, key, f);
        }
      }
  }

  lemma {:induction false} ArrayClear<K, V>(n: Node<K, V>, b: nat)
    requires n.Array? && Structured(n) && b < 32 && n.slots[b].Sub? && n.count > 9
    ensures Structured(Array(n.count - 1, n.slots[b := Hole]))
      && Wide(Array(n.count - 1, n.slots[b := Hole])) == Wide(n)[b := Hole]
  {
    CountFullUpdate(n.slots, b, Hole);
    var n' := Array(n.count - 1, n.slots[b := Hole]);
    forall i | 0 <= i < 32 ensures SlotAt(n', i) == (if i == b then Hole else SlotAt(n, i)) && !SlotAt(n', i).Pair? {}
  }

  /** What packing has built after `i` branches. */
  lemma {:induction false} PackedUpTo<K, V>(w: seq<Slot<K, V>>, removed: nat, i: nat)
    requires |w| == 32 && removed < 32 && i <= 32
    ensures var bits, slots := PackedBits(w, removed, i), PackedSlots(w, removed, i);
      && Fits(bits, slots)
      && |slots| == CountFull(w[removed := Hole][..i])
      && forall b | 0 <= b < 32 :: SlotAt(Bitmap(bits, slots), b) == if b < i then w[removed := Hole][b] else Hole
  {
    hide Rank;
    var v := w[removed := Hole];
    if i == 0 {
      forall b: nat ensures !Has(0, b) { HasZero(b); }
    } else {
      PackedUpTo(w, removed, i - 1);
      assert v[..i][..i - 1] == v[..i - 1];
      var bits, slots := PackedBits(w, removed, i - 1), PackedSlots(w, removed, i - 1);
      if !v[i - 1].Hole? { PackedOne(bits, slots, v, i - 1); }
    }
  }

  /** One more branch at the end. */
  lemma PackedOne<K, V>(bits: nat, slots: seq<Slot<K, V>>, v: seq<Slot<K, V>>, i: nat)
    requires |v| == 32 && i < 32 && !v[i].Hole? && Fits(bits, slots)
    requires forall b | 0 <= b < 32 :: SlotAt(Bitmap(bits, slots), b) == if b < i then v[b] else Hole
    ensures var n := Bitmap(Or(bits, Pow2(i)), slots + [v[i]]);
      Fits(n.bits, n.slots) && forall b | 0 <= b < 32 :: SlotAt(n, b) == if b <= i then v[b] else Hole
  {
    hide Rank;
    assert SlotAt(Bitmap(bits, slots), i) == Hole;
    AllBelow(bits, slots, i);
    InsertBranch(bits, slots, i, v[i]);
    assert InsertAt(slots, Rank(bits, i), v[i]) == slots + [v[i]];
    var n := Bitmap(Or(bits, Pow2(i)), slots + [v[i]]);
    forall b | 0 <= b < 32 ensures SlotAt(n, b) == if b <= i then v[b] else Hole {
      assert SlotAt(n, b) == Wide(n)[b];
      assert Wide(Bitmap(bits, slots))[b] == SlotAt(Bitmap(bits, slots), b);
    }
  }

  /** When no bit from `i` on is set, all slots rank below `i`. */
  lemma {:induction false} AllBelow<K, V>(bits: nat, slots: seq<Slot<K, V>>, i: nat)
    requires Fits(bits, slots) && i < 32
    requires forall b | i <= b < 32 :: SlotAt(Bitmap(bits, slots), b).Hole?
    ensures Rank(bits, i) == |slots|
  {
    RankOfAll(bits, i, 32);
    RankFlat(bits, i, 32);
  }

  lemma {:induction false} RankFlat(bits: nat, i: nat, j: nat)
    requires i <= j && forall b | i <= b < j :: !Has(bits, b)
    ensures Rank(bits, j) == Rank(bits, i)
  {
    if i < j { RankFlat(bits, i, j - 1); }
  }

  /** Packing nine children but one gives a bitmap node for the other eight. */
  lemma {:induction false} PackedFits<K, V>(n: Node<K, V>, b: nat)
    requires n.Array? && Structured(n) && n.count == 9 && b < 32 && n.slots[b].Sub?
    ensures PackArray(n, b).Some? && Structured(PackArray(n, b).value)
    ensures Wide(PackArray(n, b).value) == Wide(n)[b := Hole]
  {
    var all := 32;
    PackedUpTo(n.slots, b, all);
    CountFullUpdate(n.slots, b, Hole);
    var bits, slots := PackedBits(n.slots, b, all), PackedSlots(n.slots, b, all);
    assert n.slots[b := Hole][..all] == n.slots[b := Hole];
    assert |slots| == 8;
    assert PackArray(n, b) == Some(Bitmap(bits, slots));
    var n' := Bitmap(bits, slots);
    forall i | 0 <= i < 32 ensures Wide(n')[i] == Wide(n)[b := Hole][i] {
      assert Wide(n')[i] == SlotAt(n', i);
    }
  }

  lemma {:induction false} CollisionDissocCuts<K(!new), V>(n: Node<K, V>, shift: nat, key: K, f: Keys<K>)
    returns (at: nat)
    requires Lawful(f) && Valid(n, shift, f) && n.Collision?
    ensures var r := NodeDissoc(n, shift, f.hash(key), key, f);
      && Cut(Entries(n), RestEntries(r.node), at, key, r.removed, f)
      && (r.node.Some? ==> Valid(r.node.value, shift, f))
      && (!r.removed ==> r.node == Some(n))
  {
    hide Branch;
    var e := n.entries;
    at := IndexOf(e, key, f);
    if n.hash == f.hash(key) {
      if at == |e| {
        IndexOfNone(e, key, f);
      } else if |e| == 2 {
        var keep := e[if at == 0 then 1 else 0];
        assert keep in e;
        SingletonValid(shift, keep.0, keep.1, f);
        assert RemoveAt(e, at) == [keep];
      } else {
        forall p | p in RemoveAt(e, at) ensures f.hash(p.0) == n.hash { assert p in e; }
      }
    }
  }

  // ---------------------------------------------- the operations, branch by branch

  /** What an operation on `key` may assume of a node it has come to. */
  ghost predicate OnPath<K(!new), V>(n: Node<K, V>, shift: nat, key: K, f: Keys<K>) {
    Lawful(f) && Valid(n, shift, f) && AllAgree(Entries(n), f.hash(key), shift, f)
  }

  ghost function AssocOf<K(!new), V>(n: Node<K, V>, shift: nat, key: K, value: V, f: Keys<K>): Assoced<K, V>
    requires OnPath(n, shift, key, f)
  {
    NodeAssoc(n, shift, f.hash(key), key, value, f)
  }

  /** `node_assoc` of a bitmap node, by what is in the branch of the key. */
  lemma {:induction false} BitmapAssocIs<K(!new), V>(n: Node<K, V>, shift: nat, key: K, value: V, f: Keys<K>)
    requires OnPath(n, shift, key, f) && n.Bitmap?
    ensures var hash := f.hash(key);
      var b := Branch(hash, shift);
      var x := SlotAt(n, b);
      var at := Rank(n.bits, b);
      && at <= |n.slots| && (x.Hole? <==> And(n.bits, Pow2(b)) == 0) && BitmapIndex(n.bits, Pow2(b)) == at
      && (!x.Hole? ==> at < |n.slots| && n.slots[at] == x)
      && (x.Sub? ==> OnPath(x.node, shift + 5, key, f))
      && (x.Pair? ==> f.hash(x.key) < WORD && hash < WORD && Agree(f.hash(x.key), hash, shift + 5))
      && AssocOf(n, shift, key, value, f) ==
           match x
           case Hole =>
             if PopCount(n.bits) >= 16 then Assoced(Promote(n, shift, hash, key, value, f), 1)
             else Assoced(Bitmap(Or(n.bits, Pow2(b)), InsertAt(n.slots, at, Pair(key, value))), 1)
           case Pair(k, v) =>
             if f.equal(k, key) then Assoced(Bitmap(n.bits, n.slots[at := Pair(k, value)]), 0)
             else Assoced(Bitmap(n.bits, n.slots[at := Sub(MergeTwo(shift + 5, f.hash(k), k, v, hash, key, value))]), 1)
           case Sub(c) =>
             var r := AssocOf(c, shift + 5, key, value, f);
             Assoced(Bitmap(n.bits, n.slots[at := Sub(r.node)]), r.added)
  {
    hide Branch, Agree, MergeTwo, Promote;
    var hash := f.hash(key);
    var b := Branch(hash, shift);
    var x, at := SlotAt(n, b), Rank(n.bits, b);
    SlotsOk(n, b, shift, f);
    BitFacts(n.bits, b);
    BelowAgrees(n, shift, hash, f);
    match x
    case Hole =>
    case Pair(k, v) =>
      assert (k, v) in SlotEntries(x);
      if v == value { assert n.slots[at := Pair(k, value)] == n.slots; }
    case Sub(c) =>
      assert n.slots[at := Sub(c)] == n.slots;
  }

  /** `node_assoc` of an array node, by what is in the branch of the key. */
  lemma {:induction false} ArrayAssocIs<K(!new), V>(n: Node<K, V>, shift: nat, key: K, value: V, f: Keys<K>)
    requires OnPath(n, shift, key, f) && n.Array?
    ensures var hash := f.hash(key);
      var b := Branch(hash, shift);
      var x := SlotAt(n, b);
      && |n.slots| == 32 && !x.Pair? && n.slots[b] == x
      && (x.Sub? ==> OnPath(x.node, shift + 5, key, f))
      && AssocOf(n, shift, key, value, f) ==
           if x.Hole? then Assoced(Array(n.count + 1, n.slots[b := Sub(SingletonAt(shift + 5, hash, key, value))]), 1)
           else
             var r := AssocOf(x.node, shift + 5, key, value, f);
             Assoced(Array(n.count, n.slots[b := Sub(r.node)]), r.added)
  {
    hide Branch, Agree, SingletonAt;
    var hash := f.hash(key);
    var b := Branch(hash, shift);
    var x := SlotAt(n, b);
    SlotsOk(n, b, shift, f);
    BelowAgrees(n, shift, hash, f);
    if x.Sub? { assert n.slots[b := Sub(x.node)] == n.slots; }
  }

  /** `node_assoc` of a collision node, by where the key is. */
  lemma {:induction false} CollisionAssocIs<K(!new), V>(n: Node<K, V>, shift: nat, key: K, value: V, f: Keys<K>)
    requires OnPath(n, shift, key, f) && n.Collision? && n.hash == f.hash(key)
    ensures var at := IndexOf(n.entries, key, f);
      AssocOf(n, shift, key, value, f) ==
        if at < |n.entries| then Assoced(Collision(n.hash, n.entries[at := (n.entries[at].0, value)]), 0)
        else Assoced(Collision(n.hash, n.entries + [(key, value)]), 1)
  {
    var at := IndexOf(n.entries, key, f);
    if at < |n.entries| && n.entries[at].1 == value {
      assert n.entries[at := (n.entries[at].0, value)] == n.entries;
    }
  }

  /** `node_assoc` of a collision node, for a key with another hash. */
  lemma {:induction false} CollisionSpreadIs<K(!new), V>(n: Node<K, V>, shift: nat, key: K, value: V, f: Keys<K>)
    requires OnPath(n, shift, key, f) && n.Collision? && n.hash != f.hash(key)
    ensures var hash := f.hash(key);
      var b, c := Branch(n.hash, shift), Branch(hash, shift);
      && (b == c ==> shift < 32 && OnPath(n, shift + 5, key, f))
      && AssocOf(n, shift, key, value, f) ==
           if b == c then Assoced(Bitmap(Pow2(b), [Sub(AssocOf(n, shift + 5, key, value, f).node)]), 1)
           else if Pow2(b) < Pow2(c) then Assoced(Bitmap(Or(Pow2(b), Pow2(c)), [Sub(n), Pair(key, value)]), 1)
           else Assoced(Bitmap(Or(Pow2(b), Pow2(c)), [Pair(key, value), Sub(n)]), 1)
  {
    hide Branch, Agree;
    if Branch(n.hash, shift) == Branch(f.hash(key), shift) { CollisionAgrees(n, shift, f.hash(key), f); }
  }
}
