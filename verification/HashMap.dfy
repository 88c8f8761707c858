// The map around the trie: the null key, the count, and what the operations mean
// to a caller.
module HashMap {
  import opened Arithmetic
  import opened Bits
  import opened Outcomes
  import opened Hamt

  /** `nullValue` is the value of the null key, if the map has one. */
  datatype Map<!K, V> = Map(count: int, root: Option<Node<K, V>>, nullValue: Option<V>, keys: Keys<K>)

  /** Addition as the count field does it, in 32 bits. */
  function AddI32(x: int, y: int): int {
    if x + y > MAX_I32 then x + y - WORD else x + y
  }

  // -------------------------------------------------------------- operations

  function Empty<K, V>(keys: Keys<K>): Map<K, V> { Map(0, None, None, keys) }

  function Get<K, V>(m: Map<K, V>, key: Option<K>): Option<V>
    requires m.root.Some? ==> Valid(m.root.value, 0, m.keys)
  {
    match key
    case None => m.nullValue
    case Some(k) => if m.root.None? then None else NodeGet(m.root.value, 0, m.keys.hash(k), k, m.keys)
  }

  function Assoc<K(!new, ==), V(==)>(m: Map<K, V>, key: Option<K>, value: V): Outcome<Map<K, V>>
    requires Sound(m)
  {
    match key
    case None =>
      if m.nullValue == Some(value) then Done(m)
      else Done(m.(count := if m.nullValue.Some? then m.count else AddI32(m.count, 1), nullValue := Some(value)))
    case Some(k) =>
      if m.count == MAX_I32 then Trap
      else
        var r := RootAssoc(m, k, value);
        if Some(r.node) == m.root then Done(m)
        else Done(m.(count := m.count + r.added, root := Some(r.node)))
  }

  function RootAssoc<K(!new, ==), V(==)>(m: Map<K, V>, k: K, value: V): Assoced<K, V>
    requires Sound(m)
  {
    if m.root.None? then Assoced(SingletonAt(0, m.keys.hash(k), k, value), 1)
    else NodeAssoc(m.root.value, 0, m.keys.hash(k), k, value, m.keys)
  }

  function Dissoc<K, V>(m: Map<K, V>, key: Option<K>): Map<K, V>
    requires m.root.Some? ==> Valid(m.root.value, 0, m.keys)
  {
    match key
    case None => if m.nullValue.None? then m else m.(count := m.count - 1, nullValue := None)
    case Some(k) =>
      if m.root.None? then m
      else
        var r := NodeDissoc(m.root.value, 0, m.keys.hash(k), k, m.keys);
        if !r.removed then m else m.(count := m.count - 1, root := r.node)
  }

  // ------------------------------------------------------ what a map contains

  /** The trie of a map is well-formed, whatever its count field says. */
  ghost predicate Sound<K(!new), V>(m: Map<K, V>) {
    && Lawful(m.keys)
    && (m.root.Some? ==> Valid(m.root.value, 0, m.keys))
    && Distinct(RestEntries(m.root), m.keys)
  }

  ghost predicate ValidMap<K(!new), V>(m: Map<K, V>) {
    Sound(m) && m.count == Size(m) <= MAX_I32
  }

  lemma ValidIsSound<K(!new), V>(m: Map<K, V>)
    requires ValidMap(m)
    ensures Sound(m)
  {}

  /** The root of a sound map is a valid node for every key's hash. */
  lemma {:induction false} SoundRoot<K(!new), V>(m: Map<K, V>)
    requires Sound(m)
    ensures m.root.Some? ==> Valid(m.root.value, 0, m.keys)
  {}

  function Size<K, V>(m: Map<K, V>): nat { |RestEntries(m.root)| + if m.nullValue.Some? then 1 else 0 }

  /** No two pairs have equal keys. */
  ghost predicate Distinct<K, V>(e: seq<(K, V)>, f: Keys<K>) {
    forall i, j | 0 <= i < |e| && 0 <= j < |e| && i != j :: !f.equal(e[i].0, e[j].0)
  }

  predicate SameKey<K>(a: Option<K>, b: Option<K>, f: Keys<K>) {
    match (a, b)
    case (None, None) => true
    case (Some(j), Some(k)) => f.equal(j, k)
    case _ => false
  }

  // --------------------------------------------------------- pairs and search

  lemma {:induction false} PutDistinct<K(!new), V>(e: seq<(K, V)>, e': seq<(K, V)>, at: nat, key: K, value: V,
      added: nat, f: Keys<K>)
    requires Lawful(f) && Distinct(e, f) && Put(e, e', at, key, value, added, f)
    ensures Distinct(e', f) && |e'| == |e| + added
  {
    if added == 1 {
      forall i, j | 0 <= i < |e'| && 0 <= j < |e'| && i != j ensures !f.equal(e'[i].0, e'[j].0) {
        var i', j' := if i < at then i else i - 1, if j < at then j else j - 1;
        if i == at {
          assert e'[j] == e[j'] && e[j'] in e;
        } else if j == at {
          assert e'[i] == e[i'] && e[i'] in e;
        } else {
          assert e'[i] == e[i'] && e'[j] == e[j'];
        }
      }
    }
  }

  lemma {:induction false} CutDistinct<K(!new), V>(e: seq<(K, V)>, e': seq<(K, V)>, at: nat, key: K, f: Keys<K>)
    requires Lawful(f) && Distinct(e, f) && Cut(e, e', at, key, true, f)
    ensures Distinct(e', f) && |e'| == |e| - 1
  {
    forall i, j | 0 <= i < |e'| && 0 <= j < |e'| && i != j ensures !f.equal(e'[i].0, e'[j].0) {
      assert e'[i] == e[if i < at then i else i + 1] && e'[j] == e[if j < at then j else j + 1];
    }
  }

  /** A search finds the value of the one pair with an equal key. */
  lemma {:induction false} FindAt<K(!new), V>(e: seq<(K, V)>, i: nat, key: K, f: Keys<K>)
    requires Lawful(f) && Distinct(e, f) && i < |e| && f.equal(e[i].0, key)
    ensures Find(e, key, f) == Some(e[i].1)
  {
    if i > 0 {
      assert !f.equal(e[0].0, e[i].0);
      assert !f.equal(e[0].0, key);
      forall j, k | 0 <= j < |e[1..]| && 0 <= k < |e[1..]| && j != k ensures !f.equal(e[1..][j].0, e[1..][k].0) {
        assert e[1..][j] == e[j + 1] && e[1..][k] == e[k + 1];
      }
      FindAt(e[1..], i - 1, key, f);
    }
  }

  lemma {:induction false} FindWhere<K, V>(e: seq<(K, V)>, key: K, f: Keys<K>) returns (i: nat)
    requires Find(e, key, f).Some?
    ensures i < |e| && f.equal(e[i].0, key) && Find(e, key, f) == Some(e[i].1)
  {
    if f.equal(e[0].0, key) {
      i := 0;
    } else {
      i := FindWhere(e[1..], key, f);
      i := i + 1;
    }
  }

  /** After `Put`, a search for an equal key finds the new value, and any other
      search finds what it found before. */
  lemma {:induction false} FindPut<K(!new), V>(e: seq<(K, V)>, e': seq<(K, V)>, at: nat, key: K, value: V, added: nat,
      k: K, f: Keys<K>)
    requires Lawful(f) && Distinct(e, f) && Put(e, e', at, key, value, added, f)
    ensures Find(e', k, f) == if f.equal(key, k) then Some(value) else Find(e, k, f)
  {
    PutDistinct(e, e', at, key, value, added, f);
    assert added == 0 && f.equal(e[at].0, k) ==> f.equal(key, k);
    if f.equal(key, k) {
      FindAt(e', at, k, f);
    } else if Find(e, k, f).Some? {
      var i := FindWhere(e, k, f);
      var j := if added == 1 && i >= at then i + 1 else i;
      assert e'[j] == e[i];
      FindAt(e', j, k, f);
    } else {
      FindNone(e, k, f);
      forall p | p in e' ensures !f.equal(p.0, k) {
        if added == 0 && p == e'[at] { assert e[at] in e; } else if p != (key, value) { assert p in e; }
      }
      FindNone(e', k, f);
    }
  }

  lemma {:induction false} FindCut<K(!new), V>(e: seq<(K, V)>, e': seq<(K, V)>, at: nat, key: K, k: K, f: Keys<K>)
    requires Lawful(f) && Distinct(e, f) && Cut(e, e', at, key, true, f)
    ensures Find(e', k, f) == if f.equal(key, k) then None else Find(e, k, f)
  {
    CutDistinct(e, e', at, key, f);
    if f.equal(key, k) {
      forall p | p in e' ensures !f.equal(p.0, k) {
        var j :| 0 <= j < |e'| && e'[j] == p;
        var i := if j < at then j else j + 1;
        assert e[i] == p && i != at && !f.equal(e[i].0, e[at].0);
      }
      FindNone(e', k, f);
    } else if Find(e, k, f).Some? {
      var i := FindWhere(e, k, f);
      assert i != at;
      var j := if i < at then i else i - 1;
      assert e'[j] == e[i];
      FindAt(e', j, k, f);
    } else {
      FindNone(e, k, f);
      forall p | p in e' ensures !f.equal(p.0, k) { assert p in e; }
      FindNone(e', k, f);
    }
  }

  // --------------------------------------------------------- the map's laws

  lemma GetFinds<K(!new), V>(m: Map<K, V>, key: K)
    requires Sound(m)
    ensures Get(m, Some(key)) == Find(RestEntries(m.root), key, m.keys)
  {
    if m.root.Some? { NodeGetFinds(m.root.value, 0, key, m.keys); }
  }

  lemma {:induction false} RootAssocPuts<K(!new), V>(m: Map<K, V>, key: K, value: V) returns (at: nat)
    requires Sound(m)
    ensures var r := RootAssoc(m, key, value);
      && Valid(r.node, 0, m.keys)
      && Put(RestEntries(m.root), Entries(r.node), at, key, value, r.added, m.keys)
  {
    if m.root.None? {
      at := 0;
      SingletonValid(0, key, value, m.keys);
    } else {
      at := NodeAssocPuts(m.root.value, 0, key, value, m.keys);
    }
  }

  /** Where the count of `assoc` goes wrong: a full map that gains the null key. */
  predicate CountOverflows<K, V>(m: Map<K, V>, key: Option<K>) {
    key.None? && m.nullValue.None? && m.count == MAX_I32
  }

  /** `assoc` of a valid map traps exactly when a non-null key meets a full map.
      Otherwise the result looks like the map it was made from but for one key; and
      it is valid, with its count right, if and only if the null key was not the
      one key too many. */
  lemma {:induction false} AssocLaw<K(!new), V>(m: Map<K, V>, key: Option<K>, value: V)
    requires ValidMap(m)
    ensures Assoc(m, key, value).Trap? <==> key.Some? && m.count == MAX_I32
    ensures Assoc(m, key, value).Done? ==>
      var m' := Assoc(m, key, value).value;
      && Sound(m') && m'.keys == m.keys
      && (forall k :: Get(m', k) == if SameKey(key, k, m.keys) then Some(value) else Get(m, k))
      && Size(m') == Size(m) + (if Get(m, key).Some? then 0 else 1)
      && (ValidMap(m') <==> !CountOverflows(m, key))
  {
    if key.Some? && m.count < MAX_I32 {
      var m' := Assoc(m, key, value).value;
      var r := RootAssoc(m, key.value, value);
      var e, e' := RestEntries(m.root), Entries(r.node);
      var at := RootAssocPuts(m, key.value, value);
      PutDistinct(e, e', at, key.value, value, r.added, m.keys);
      if Some(r.node) == m.root { assert r.added == 0; }
      forall k ensures Get(m', k) == if SameKey(key, k, m.keys) then Some(value) else Get(m, k) {
        if k.Some? {
          FindPut(e, e', at, key.value, value, r.added, k.value, m.keys);
          GetFinds(m, k.value);
          GetFinds(m', k.value);
        }
      }
      FindNone(e, key.value, m.keys);
      GetFinds(m, key.value);
      if r.added == 0 { FindAt(e, at, key.value, m.keys); }
    } else if key.None? {
      var m' := Assoc(m, key, value).value;
      forall k ensures Get(m', k) == if SameKey(key, k, m.keys) then Some(value) else Get(m, k) {}
    }
  }

  /** `dissoc` of a valid map is a valid map without that key, and with every other
      binding as it was. */
  lemma {:induction false} DissocLaw<K(!new), V>(m: Map<K, V>, key: Option<K>)
    requires ValidMap(m)
    ensures var m' := Dissoc(m, key);
      && ValidMap(m') && m'.keys == m.keys
      && (forall k :: Get(m', k) == if SameKey(key, k, m.keys) then None else Get(m, k))
      && m'.count == m.count - (if Get(m, key).Some? then 1 else 0)
  {
    var m' := Dissoc(m, key);
    if key.Some? && m.root.Some? {
      var e := Entries(m.root.value);
      var at := NodeDissocCuts(m.root.value, 0, key.value, m.keys);
      var r := NodeDissoc(m.root.value, 0, m.keys.hash(key.value), key.value, m.keys);
      var e' := RestEntries(r.node);
      GetFinds(m, key.value);
      FindNone(e, key.value, m.keys);
      if r.removed {
        CutDistinct(e, e', at, key.value, m.keys);
        FindAt(e, at, key.value, m.keys);
      }
      forall k ensures Get(m', k) == if SameKey(key, k, m.keys) then None else Get(m, k) {
        if k.Some? {
          GetFinds(m, k.value);
          GetFinds(m', k.value);
          if r.removed {
            FindCut(e, e', at, key.value, k.value, m.keys);
          } else if m.keys.equal(key.value, k.value) {
            forall p | p in e ensures !m.keys.equal(p.0, k.value) {}
            FindNone(e, k.value, m.keys);
          }
        }
      }
    }
  }

  /** `assoc` as the builder does it, with no test for a node that came back the
      same; it needs the trie sound, and keeps it so whatever the count. */
  lemma {:induction false} AssocStep<K(!new), V>(m: Map<K, V>, key: Option<K>, value: V)
    requires Sound(m)
    ensures key.None? ==>
      Assoc(m, key, value) == Done(m.(count := if m.nullValue.Some? then m.count else AddI32(m.count, 1),
          nullValue := Some(value)))
    ensures key.Some? && m.count != MAX_I32 ==>
      var r := RootAssoc(m, key.value, value);
      Assoc(m, key, value) == Done(m.(count := m.count + r.added, root := Some(r.node)))
    ensures m.root.Some? && key.Some? ==>
      OnPath(m.root.value, 0, key.value, m.keys)
          && RootAssoc(m, key.value, value) == AssocOf(m.root.value, 0, key.value, value, m.keys)
    ensures Assoc(m, key, value).Done? ==>
      && Sound(Assoc(m, key, value).value)
      && Assoc(m, key, value).value.keys == m.keys
  {
    if key.Some? {
      var r := RootAssoc(m, key.value, value);
      var at := RootAssocPuts(m, key.value, value);
      PutDistinct(RestEntries(m.root), Entries(r.node), at, key.value, value, r.added, m.keys);
      if Some(r.node) == m.root { assert r.added == 0; }
    }
  }

  lemma {:induction false} DissocStep<K(!new), V>(m: Map<K, V>, key: Option<K>)
    requires Sound(m)
    ensures Sound(Dissoc(m, key)) && Dissoc(m, key).keys == m.keys
    ensures m.root.Some? && key.Some? ==>
      var r := NodeDissoc(m.root.value, 0, m.keys.hash(key.value), key.value, m.keys);
      Dissoc(m, key) == m.(count := m.count - (if r.removed then 1 else 0), root := r.node)
  {
    if key.Some? && m.root.Some? {
      var at := NodeDissocCuts(m.root.value, 0, key.value, m.keys);
      var r := NodeDissoc(m.root.value, 0, m.keys.hash(key.value), key.value, m.keys);
      if r.removed { CutDistinct(Entries(m.root.value), RestEntries(r.node), at, key.value, m.keys); }
    }
  }

  // -------------------------------------------------------------- traversal

  /** `node_each` calls back once for every pair, in the order of `Entries`. */
  method NodeEach<K, V>(n: Node<K, V>, ghost shift: nat, ghost f: Keys<K>) returns (seen: seq<(K, V)>)
    requires Valid(n, shift, f)
    ensures seen == Entries(n)
    decreases n
  {
    seen := [];
    match n
    case Bitmap(_, slots) =>
      var i := 0;
      while i < |slots|
        invariant i <= |slots| && seen == EntriesOf(slots[..i])
      {
        BitmapSlotOk(n, i, shift, f);
        match slots[i] {
          case Sub(c) =>
            var below := NodeEach(c, shift + 5, f);
            seen := seen + below;
          case Pair(k, v) => seen := seen + [(k, v)];
        }
        EntriesGrow(slots, i);
        i := i + 1;
      }
      assert slots[..|slots|] == slots;
    case Array(_, slots) =>
      for i := 0 to 32
        invariant seen == EntriesOf(slots[..i])
      {
        SlotsOk(n, i, shift, f);
        assert slots[i] == SlotAt(n, i);
        if slots[i].Sub? {
          var below := NodeEach(slots[i].node, shift + 5, f);
          seen := seen + below;
        }
        EntriesGrow(slots, i);
      }
      assert slots[..32] == slots;
    case Collision(_, entries) =>
      for i := 0 to |entries|
        invariant seen == entries[..i]
      {
        seen := seen + [entries[i]];
      }
  }

  lemma EntriesGrow<K, V>(slots: seq<Slot<K, V>>, i: nat)
    requires i < |slots|
    ensures EntriesOf(slots[..i + 1]) == EntriesOf(slots[..i]) + SlotEntries(slots[i])
  {
    assert slots[..i + 1] == slots[..i] + [slots[i]];
    EntriesConcat(slots[..i], [slots[i]]);
    EntriesOne(slots[i]);
  }

  /** Every packed slot of a bitmap node is the slot of some branch. */
  lemma {:induction false} BitmapSlotOk<K, V>(n: Node<K, V>, i: nat, shift: nat, f: Keys<K>)
    requires Valid(n, shift, f) && n.Bitmap? && i < |n.slots|
    ensures !n.slots[i].Hole? && (n.slots[i].Sub? ==> Valid(n.slots[i].node, shift + 5, f))
  {
    var all := 32;
    RankOfAll(n.bits, 0, all);
    var b := BranchOf(n.bits, i, all);
    SlotsOk(n, b, shift, f);
    assert n.slots[i] == SlotAt(n, b);
  }

  /** The set bit of a given rank. */
  lemma {:induction false} BranchOf(bits: nat, i: nat, n: nat) returns (b: nat)
    requires i < Rank(bits, n)
    ensures b < n && Has(bits, b) && Rank(bits, b) == i
  {
    if i == Rank(bits, n - 1) {
      b := n - 1;
    } else {
      b := BranchOf(bits, i, n - 1);
    }
  }

  function Lift<K, V>(e: seq<(K, V)>): (r: seq<(Option<K>, V)>)
    ensures |r| == |e| && forall i | 0 <= i < |e| :: r[i] == (Some(e[i].0), e[i].1)
  {
    if |e| == 0 then [] else [(Some(e[0].0), e[0].1)] + Lift(e[1..])
  }

  /** `each` meets the null key first, then every other binding once: what it
      meets is exactly what `get` finds, and there are `count` of them. */
  method Each<K(!new), V>(m: Map<K, V>) returns (seen: seq<(Option<K>, V)>)
    requires ValidMap(m)
    ensures |seen| == m.count
    ensures forall i | 0 <= i < |seen| :: Get(m, seen[i].0) == Some(seen[i].1)
    ensures forall k | Get(m, k).Some? :: exists i :: 0 <= i < |seen| && SameKey(seen[i].0, k, m.keys)
    ensures forall i, j | 0 <= i < j < |seen| :: !SameKey(seen[i].0, seen[j].0, m.keys)
  {
    var below := [];
    if m.root.Some? { below := NodeEach(m.root.value, 0, m.keys); }
    seen := (if m.nullValue.Some? then [(None, m.nullValue.value)] else []) + Lift(below);
    ghost var z := if m.nullValue.Some? then 1 else 0;
    forall i | 0 <= i < |seen| ensures Get(m, seen[i].0) == Some(seen[i].1) {
      if i >= z {
        FindAt(below, i - z, below[i - z].0, m.keys);
        GetFinds(m, below[i - z].0);
      }
    }
    forall k | Get(m, k).Some? ensures exists i :: 0 <= i < |seen| && SameKey(seen[i].0, k, m.keys) {
      if k.None? {
        assert SameKey(seen[0].0, k, m.keys);
      } else {
        GetFinds(m, k.value);
        var i := FindWhere(below, k.value, m.keys);
        assert SameKey(seen[i + z].0, k, m.keys);
      }
    }
  }

  // -------------------------------------------------------------- whole runs

  datatype Op<K, V> = OpAssoc(key: Option<K>, value: V) | OpDissoc(key: Option<K>)

  datatype Ran<!K, V> = Trapped | Overflowed | Reached(m: Map<K, V>)

  /** What an operation does to what is bound to one key. */
  function Effect<K, V>(op: Op<K, V>, key: Option<K>, bound: Option<V>, f: Keys<K>): Option<V> {
    if !SameKey(op.key, key, f) then bound
    else match op
      case OpAssoc(_, value) => Some(value)
      case OpDissoc(_) => None
  }

  function After<K, V>(ops: seq<Op<K, V>>, key: Option<K>, bound: Option<V>, f: Keys<K>): Option<V>
    decreases |ops|
  {
    if ops == [] then bound else After(ops[1..], key, Effect(ops[0], key, bound, f), f)
  }

  /** A run stops where an operation traps, and where the count overflows. */
  ghost function Run<K(!new), V>(m: Map<K, V>, ops: seq<Op<K, V>>): Ran<K, V>
    requires ValidMap(m)
    decreases |ops|
  {
    if ops == [] then Reached(m)
    else
      match ops[0]
      case OpAssoc(key, value) =>
        AssocLaw(m, key, value);
        if Assoc(m, key, value).Trap? then Trapped
        else if CountOverflows(m, key) then Overflowed
        else Run(Assoc(m, key, value).value, ops[1..])
      case OpDissoc(key) =>
        DissocLaw(m, key);
        Run(Dissoc(m, key), ops[1..])
  }

  /** Whatever the run, the map it reaches is valid, and binds every key as the
      operations on that key alone would leave it. */
  lemma {:induction false} RunLaw<K(!new), V>(m: Map<K, V>, ops: seq<Op<K, V>>)
    requires ValidMap(m)
    ensures Run(m, ops).Reached? ==>
      var m' := Run(m, ops).m;
      ValidMap(m') && m'.keys == m.keys && forall k :: Get(m', k) == After(ops, k, Get(m, k), m.keys)
    decreases |ops|
  {
    if ops != [] {
      match ops[0]
      case OpAssoc(key, value) =>
        AssocLaw(m, key, value);
        if Assoc(m, key, value).Done? && !CountOverflows(m, key) {
          RunLaw(Assoc(m, key, value).value, ops[1..]);
        }
      case OpDissoc(key) =>
        DissocLaw(m, key);
        RunLaw(Dissoc(m, key), ops[1..]);
    }
  }

  /** The first step of a run. */
  lemma {:induction false} RunStep<K(!new), V>(m: Map<K, V>, op: Op<K, V>, ops: seq<Op<K, V>>)
    requires ValidMap(m)
    ensures match op
      case OpAssoc(key, value) =>
        var r := Assoc(m, key, value);
        Run(m, [op] + ops) ==
          if r.Trap? then Trapped
          else if CountOverflows(m, key) then Overflowed
          else if ValidMap(r.value) then Run(r.value, ops) else Trapped
      case OpDissoc(key) => ValidMap(Dissoc(m, key)) && Run(m, [op] + ops) == Run(Dissoc(m, key), ops)
    ensures op.OpAssoc? && Assoc(m, op.key, op.value).Done? && !CountOverflows(m, op.key) ==>
      ValidMap(Assoc(m, op.key, op.value).value)
  {
    assert ([op] + ops)[1..] == ops;
    match op
    case OpAssoc(key, value) => AssocLaw(m, key, value);
    case OpDissoc(key) => DissocLaw(m, key);
  }

  // ----------------------------------------- the overflow is within reach

  /** Numbers as keys; those a map has room for have hashes of their own. */
  function IntKeys(): Keys<int> { Keys(k => k % WORD, (j, k) => j == k) }

  /** Maps of every size up to the largest can be built without the null key. */
  lemma {:induction false} FullMap(n: nat) returns (m: Map<int, int>)
    requires n <= MAX_I32
    ensures ValidMap(m) && m.count == n && m.keys == IntKeys() && m.nullValue.None?
    ensures forall k :: Get(m, Some(k)).Some? <==> 0 <= k < n
  {
    if n == 0 {
      m := Empty(IntKeys());
    } else {
      var m0 := FullMap(n - 1);
      AssocLaw(m0, Some(n - 1), 0);
      m := Assoc(m0, Some(n - 1), 0).value;
      forall k ensures Get(m, Some(k)).Some? <==> 0 <= k < n {
        assert SameKey(Some(n - 1), Some(k), m.keys) <==> k == n - 1;
      }
    }
  }

  /** The largest map takes the null key without a trap, and its count becomes
      negative. */
  lemma NullKeyOverflows() returns (m: Map<int, int>)
    ensures ValidMap(m) && CountOverflows(m, None)
    ensures Assoc(m, None, 0).Done? && Assoc(m, None, 0).value.count == -0x8000_0000
    ensures Size(Assoc(m, None, 0).value) == 0x8000_0000
  {
    m := FullMap(MAX_I32);
    AssocLaw(m, None, 0);
  }
}
