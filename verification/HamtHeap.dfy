// The transient half of the hash map, in the heap: nodes that persistent maps
// share, and a builder that writes in place the nodes carrying its token.
//
// `F` names the frozen nodes, the ones persistent maps may reach. What a builder
// has made itself is in the `repr` of its root: nodes with its token, and nodes
// made without one, which it will copy before it writes.
module HamtHeap {
  import opened Arithmetic
  import opened Bits
  import opened Outcomes
  import opened Ownership
  import opened Hamt
  import M = HashMap

  datatype HSlot<K, V> = HHole | HPair(key: K, value: V) | HSub(node: HNode<K, V>)

  datatype Shape<K, V> =
    | BitmapShape(bits: nat, slots: array<HSlot<K, V>>)
    | ArrayShape(count: nat, slots: array<HSlot<K, V>>)
    | CollisionShape(hash: nat, entries: array<(K, V)>)

  /** The array of a node. */
  function Held<K, V>(shape: Shape<K, V>): object {
    if shape.CollisionShape? then shape.entries else shape.slots
  }

  class HNode<K, V> {
    var edit: Edit?
    var shape: Shape<K, V>
    /** This node, its array, and what its builder alone can reach from it. */
    ghost var repr: set<object>

    constructor (edit: Edit?, shape: Shape<K, V>, ghost below: set<object>)
      ensures this.edit == edit && this.shape == shape && repr == {this, Held(shape)} + below
    {
      this.edit := edit;
      this.shape := shape;
      repr := {this, Held(shape)} + below;
    }
  }

  /** A node's shape and the node it stands for, but for what is in its array. */
  ghost predicate SameHead<K, V>(shape: Shape<K, V>, t: Node<K, V>) {
    match t
    case Bitmap(bits, slots) => shape.BitmapShape? && shape.bits == bits && shape.slots.Length == |slots|
    case Array(count, slots) => shape.ArrayShape? && shape.count == count && shape.slots.Length == |slots|
    case Collision(hash, entries) => shape.CollisionShape? && shape.hash == hash && shape.entries.Length == |entries|
  }

  // --------------------------------------------------------- frozen subtrees

  ghost predicate Frozen<K, V>(n: HNode<K, V>, t: Node<K, V>, F: set<object>)
    reads F
    decreases t, 1
  {
    && n in F && Held(n.shape) in F && (n.edit != null ==> n.edit in F && !n.edit.active)
    && SameHead(n.shape, t)
    && (t.Collision? ==> n.shape.entries[..] == t.entries)
    && (!t.Collision? ==> forall i | 0 <= i < |t.slots| :: FrozenSlot(n.shape.slots[i], t.slots[i], F))
  }

  ghost predicate FrozenSlot<K, V>(x: HSlot<K, V>, xt: Slot<K, V>, F: set<object>)
    reads F
    decreases xt, 0
  {
    match xt
    case Hole => x.HHole?
    case Pair(k, v) => x == HPair(k, v)
    case Sub(ct) => x.HSub? && Frozen(x.node, ct, F)
  }

  // -------------------------------------------------------- a builder's trees

  ghost function Foot<K, V>(n: HNode<K, V>, F: set<object>): set<object>
    reads if n in F then {} else {n}
  {
    if n in F then {} else {n} + n.repr
  }

  /** What a node of the builder's has below it. */
  ghost function Below<K, V>(n: HNode<K, V>): set<object>
    reads n
  {
    n.repr - {n, Held(n.shape)}
  }

  /** `n` stands for `t`, as a tree of the builder's own nodes over frozen ones. */
  ghost predicate Live<K, V>(n: HNode<K, V>, t: Node<K, V>, e: Edit, F: set<object>)
    reads if n in F then {} else {n}, if n in F then {} else n.repr, F
    decreases t, 1
  {
    if n in F then Frozen(n, t, F)
    else
      && n in n.repr && Held(n.shape) in n.repr && n.repr !! F && e !in n.repr && (n.edit == e || n.edit == null)
      && SameHead(n.shape, t)
      && Filled(n.shape, t, e, F, Below(n))
  }

  /** The array of a node holds what it should, out of the nodes of `R` and frozen ones. */
  ghost predicate Filled<K, V>(shape: Shape<K, V>, t: Node<K, V>, e: Edit, F: set<object>, R: set<object>)
    requires SameHead(shape, t)
    reads Held(shape), R, F
    decreases t, 0
  {
    if t.Collision? then shape.entries[..] == t.entries else LiveBut(shape.slots[..], t.slots, |t.slots|, e, F, R)
  }

  /** All slots but `s` hold what they stand for, out of the nodes of `R` and frozen
      ones, and no two of them share a node of the builder's. */
  ghost predicate LiveBut<K, V>(slots: seq<HSlot<K, V>>, ts: seq<Slot<K, V>>, s: nat, e: Edit, F: set<object>,
      R: set<object>)
    reads R, F
    decreases ts, 0
  {
    && |slots| == |ts|
    && (forall i | 0 <= i < |ts| && i != s :: LiveSlot(slots[i], ts[i], e, F, R))
    && (forall i, j | 0 <= i < j < |ts| && i != s && j != s :: Apart(slots[i], slots[j], F, R))
  }

  ghost predicate LiveSlot<K, V>(x: HSlot<K, V>, xt: Slot<K, V>, e: Edit, F: set<object>, R: set<object>)
    reads R, F
    decreases xt, 0
  {
    match xt
    case Hole => x.HHole?
    case Pair(k, v) => x == HPair(k, v)
    case Sub(ct) => x.HSub? && (x.node in F || (x.node in R && x.node.repr <= R)) && Live(x.node, ct, e, F)
  }

  ghost predicate Apart<K, V>(x: HSlot<K, V>, y: HSlot<K, V>, F: set<object>, R: set<object>)
    reads R
  {
    x.HSub? && y.HSub? && x.node !in F && y.node !in F && x.node in R && y.node in R ==> x.node.repr !! y.node.repr
  }

  ghost function SlotFoot<K, V>(x: HSlot<K, V>, F: set<object>): set<object>
    reads if x.HSub? && x.node !in F then {x.node} else {}
  {
    if x.HSub? then Foot(x.node, F) else {}
  }

  /** A slot's content that shares nothing with `R` can be put beside it. */
  ghost predicate Ready<K, V>(x: HSlot<K, V>, xt: Slot<K, V>, e: Edit, F: set<object>, R: set<object>)
    reads SlotFoot(x, F), F
  {
    && SlotFoot(x, F) !! R
    && LiveSlot(x, xt, e, F, SlotFoot(x, F))
  }

  /** The subtree in slot `s` can be told apart from the others. */
  lemma {:induction false} Split<K, V>(n: HNode<K, V>, t: Node<K, V>, s: nat, e: Edit, F: set<object>)
    requires !t.Collision? && s < |t.slots| && n !in F && Live(n, t, e, F)
    ensures n in n.repr && Held(n.shape) in n.repr && n.repr !! F && e !in n.repr && SameHead(n.shape, t)
    ensures var x := n.shape.slots[s];
      && SlotFoot(x, F) <= Below(n)
      && LiveSlot(x, t.slots[s], e, F, SlotFoot(x, F))
      && (t.slots[s].Sub? ==> Live(x.node, t.slots[s].node, e, F))
      && LiveBut(n.shape.slots[..], t.slots, s, e, F, Below(n) - SlotFoot(x, F))
  {
    var slots := n.shape.slots[..];
    SplitSlots(slots, t.slots, s, e, F, Below(n));
    assert slots[s] == n.shape.slots[s];
  }

  lemma {:induction false} SplitSlots<K, V>(slots: seq<HSlot<K, V>>, ts: seq<Slot<K, V>>, s: nat, e: Edit,
      F: set<object>, R0: set<object>)
    requires s < |ts| && LiveBut(slots, ts, |ts|, e, F, R0)
    ensures var x := slots[s];
      && SlotFoot(x, F) <= R0
      && LiveSlot(x, ts[s], e, F, SlotFoot(x, F))
      && (ts[s].Sub? ==> Live(x.node, ts[s].node, e, F))
      && LiveBut(slots, ts, s, e, F, R0 - SlotFoot(x, F))
  {
    var x := slots[s];
    var R := R0 - SlotFoot(x, F);
    assert LiveSlot(x, ts[s], e, F, R0);
    forall i | 0 <= i < |ts| && i != s ensures LiveSlot(slots[i], ts[i], e, F, R) {
      assert LiveSlot(slots[i], ts[i], e, F, R0);
      assert Apart(slots[i], x, F, R0);
      assert Apart(x, slots[i], F, R0);
      if ts[i].Sub? { assert Live(slots[i].node, ts[i].node, e, F); }
      if ts[s].Sub? { assert Live(x.node, ts[s].node, e, F); }
    }
    forall i, j | 0 <= i < j < |ts| && i != s && j != s ensures Apart(slots[i], slots[j], F, R) {
      assert Apart(slots[i], slots[j], F, R0);
    }
  }

  lemma {:induction false} SlotsUpdated<K, V>(slots: seq<HSlot<K, V>>, ts: seq<Slot<K, V>>, s: nat, x: HSlot<K, V>,
      xt: Slot<K, V>, e: Edit, F: set<object>, R: set<object>)
    requires s < |ts| && LiveBut(slots, ts, s, e, F, R) && Ready(x, xt, e, F, R)
    ensures LiveBut(slots[s := x], ts[s := xt], |ts|, e, F, R + SlotFoot(x, F))
  {
    var slots', ts', R' := slots[s := x], ts[s := xt], R + SlotFoot(x, F);
    forall i | 0 <= i < |ts'| ensures LiveSlot(slots'[i], ts'[i], e, F, R') {
      if i != s { assert LiveSlot(slots[i], ts[i], e, F, R); }
    }
    forall i, j | 0 <= i < j < |ts'| ensures Apart(slots'[i], slots'[j], F, R') {
      if i != s { assert LiveSlot(slots[i], ts[i], e, F, R); }
      if j != s { assert LiveSlot(slots[j], ts[j], e, F, R); }
      if i != s && j != s { assert Apart(slots[i], slots[j], F, R); }
    }
  }

  lemma {:induction false} SlotsInserted<K, V>(slots: seq<HSlot<K, V>>, ts: seq<Slot<K, V>>, at: nat, x: HSlot<K, V>,
      xt: Slot<K, V>, e: Edit, F: set<object>, R: set<object>)
    requires at <= |ts| && LiveBut(slots, ts, |ts|, e, F, R) && Ready(x, xt, e, F, R)
    ensures LiveBut(InsertAt(slots, at, x), InsertAt(ts, at, xt), |ts| + 1, e, F, R + SlotFoot(x, F))
  {
    var slots', ts', R' := InsertAt(slots, at, x), InsertAt(ts, at, xt), R + SlotFoot(x, F);
    forall i | 0 <= i < |ts'| ensures LiveSlot(slots'[i], ts'[i], e, F, R') {
      var i' := if i < at then i else i - 1;
      if i != at { assert LiveSlot(slots[i'], ts[i'], e, F, R); }
    }
    forall i, j | 0 <= i < j < |ts'| ensures Apart(slots'[i], slots'[j], F, R') {
      var i', j' := if i < at then i else i - 1, if j < at then j else j - 1;
      if i != at { assert LiveSlot(slots[i'], ts[i'], e, F, R); }
      if j != at { assert LiveSlot(slots[j'], ts[j'], e, F, R); }
      if i != at && j != at { assert Apart(slots[i'], slots[j'], F, R); }
    }
  }

  lemma {:induction false} SlotsRemoved<K, V>(slots: seq<HSlot<K, V>>, ts: seq<Slot<K, V>>, at: nat, e: Edit,
      F: set<object>, R: set<object>)
    requires at < |ts| && LiveBut(slots, ts, at, e, F, R)
    ensures LiveBut(RemoveAt(slots, at), RemoveAt(ts, at), |ts| - 1, e, F, R)
  {
    var slots', ts' := RemoveAt(slots, at), RemoveAt(ts, at);
    forall i | 0 <= i < |ts'| ensures LiveSlot(slots'[i], ts'[i], e, F, R) {
      var i' := if i < at then i else i + 1;
      assert LiveSlot(slots[i'], ts[i'], e, F, R);
    }
    forall i, j | 0 <= i < j < |ts'| ensures Apart(slots'[i], slots'[j], F, R) {
      var i', j' := if i < at then i else i + 1, if j < at then j else j + 1;
      assert Apart(slots[i'], slots[j'], F, R);
    }
  }

  /** Slots picked out of others, each once, are as well separated. */
  lemma {:induction false} SlotsPicked<K, V>(slots: seq<HSlot<K, V>>, ts: seq<Slot<K, V>>, s: nat, pick: seq<nat>,
                           slots': seq<HSlot<K, V>>, ts': seq<Slot<K, V>>, e: Edit, F: set<object>, R: set<object>)
    requires LiveBut(slots, ts, s, e, F, R) && |slots'| == |ts'| == |pick|
    requires forall k | 0 <= k < |pick| ::
      && pick[k] < |ts| && pick[k] != s && slots'[k] == slots[pick[k]]
      && ts'[k] == ts[pick[k]]
    requires forall k, l | 0 <= k < l < |pick| :: pick[k] < pick[l]
    ensures LiveBut(slots', ts', |ts'|, e, F, R)
  {
    forall k | 0 <= k < |ts'| ensures LiveSlot(slots'[k], ts'[k], e, F, R) {
      assert LiveSlot(slots[pick[k]], ts[pick[k]], e, F, R);
    }
    forall k, l | 0 <= k < l < |ts'| ensures Apart(slots'[k], slots'[l], F, R) {
      assert Apart(slots[pick[k]], slots[pick[l]], F, R);
    }
  }

  // ----------------------------------------------------------- making nodes

  method NewNode<K, V>(edit: Edit?, shape: Shape<K, V>, ghost t: Node<K, V>, ghost R: set<object>, ghost e: Edit,
      ghost F: set<object>)
    returns (out: HNode<K, V>)
    requires edit == e || edit == null
    requires SameHead(shape, t) && Filled(shape, t, e, F, R)
    requires R !! F && e !in R && Held(shape) !in R && Held(shape) !in F && Held(shape) != e
    ensures fresh(out) && out.edit == edit && out.shape == shape && out.repr == {out, Held(shape)} + R && out !in F
    ensures Live(out, t, e, F)
  {
    out := new HNode(edit, shape, R);
    assert Below(out) == R;
  }

  method CopySlots<T>(a: array<T>) returns (b: array<T>)
    ensures fresh(b) && b[..] == a[..]
  {
    b := new T[a.Length](i requires 0 <= i < a.Length reads a => a[i]);
  }

  /** A copy of an array with room made for one more. */
  method InsertSlot<T>(a: array<T>, at: nat, x: T) returns (b: array<T>)
    requires at <= a.Length
    ensures fresh(b) && b[..] == InsertAt(a[..], at, x)
  {
    b := new T[a.Length + 1](i requires 0 <= i <= a.Length reads a =>
      if i < at then a[i] else if i == at then x else a[i - 1]);
  }

  /** A copy of an array without one of its elements. */
  method RemoveSlot<T>(a: array<T>, at: nat) returns (b: array<T>)
    requires at < a.Length
    ensures fresh(b) && b[..] == RemoveAt(a[..], at)
  {
    b := new T[a.Length - 1](i requires 0 <= i < a.Length - 1 reads a => if i < at then a[i] else a[i + 1]);
  }

  /** The node a builder may write: this one when it is the builder's own, or a copy
      with an array of its own that carries the builder's token. */
  method EnsureNode<K, V>(n: HNode<K, V>, ghost t: Node<K, V>, e: Edit, ghost F: set<object>) returns (out: HNode<K, V>)
    requires e.active && Live(n, t, e, F)
    ensures out.edit == e && out !in F && Live(out, t, e, F)
    ensures n.edit == e ==> out == n && n !in F
    ensures n.edit != e ==> fresh(out) && fresh(Held(out.shape))
    ensures fresh(out.repr - Foot(n, F))
  {
    if n.edit == e {
      out := n;
    } else {
      ghost var R := if n in F then {} else Below(n);
      CopiedLive(n, t, e, F);
      var shape := CopyShape(n.shape, t);
      assert Filled(shape, t, e, F, R);
      out := NewNode(e, shape, t, R, e, F);
    }
  }

  method CopyShape<K, V>(shape: Shape<K, V>, ghost t: Node<K, V>) returns (copy: Shape<K, V>)
    requires SameHead(shape, t)
    ensures SameHead(copy, t) && fresh(Held(copy))
    ensures if t.Collision? then copy.entries[..] == shape.entries[..] else copy.slots[..] == shape.slots[..]
  {
    match shape
    case BitmapShape(bits, slots) =>
      var b := CopySlots(slots);
      copy := BitmapShape(bits, b);
    case ArrayShape(count, slots) =>
      var b := CopySlots(slots);
      copy := ArrayShape(count, b);
    case CollisionShape(hash, entries) =>
      var b := CopySlots(entries);
      copy := CollisionShape(hash, b);
  }

  /** What a frozen node's array holds can be held by a builder's. */
  lemma {:induction false} CopiedLive<K, V>(n: HNode<K, V>, t: Node<K, V>, e: Edit, F: set<object>)
    requires Live(n, t, e, F)
    ensures SameHead(n.shape, t) && Filled(n.shape, t, e, F, if n in F then {} else Below(n))
  {
    if n in F && !t.Collision? {
      forall i | 0 <= i < |t.slots| ensures LiveSlot(n.shape.slots[i], t.slots[i], e, F, {}) {
        assert FrozenSlot(n.shape.slots[i], t.slots[i], F);
        if t.slots[i].Sub? { assert Frozen(n.shape.slots[i].node, t.slots[i].node, F); }
      }
    }
  }

  /** Gives a node of the builder's another shape. */
  method Rewrite<K, V>(n: HNode<K, V>, shape: Shape<K, V>, ghost t: Node<K, V>, ghost R: set<object>, ghost e: Edit,
      ghost F: set<object>)
    requires n !in F && n.edit == e
    requires SameHead(shape, t) && Filled(shape, t, e, F, R)
    requires n !in R && R !! F && e !in R && Held(shape) !in R && Held(shape) !in F && Held(shape) != e
    modifies n
    ensures n.edit == e && n.repr == {n, Held(shape)} + R && Live(n, t, e, F)
  {
    n.shape := shape;
    n.repr := {n, Held(shape)} + R;
    assert Below(n) == R;
    assert Filled(shape, t, e, F, R);
  }

  method SetSlot<K, V>(slots: array<HSlot<K, V>>, s: nat, x: HSlot<K, V>, ghost ts: seq<Slot<K, V>>,
      ghost R: set<object>, ghost e: Edit, ghost F: set<object>)
    requires s < slots.Length && LiveBut(slots[..][s := x], ts, |ts|, e, F, R) && slots !in R && slots !in F
    modifies slots
    ensures slots[..] == old(slots[..])[s := x] && LiveBut(slots[..], ts, |ts|, e, F, R)
  {
    ghost var want := slots[..][s := x];
    slots[s] := x;
    assert slots[..] == want;
  }

  /** Writes one slot of a node of the builder's, in place. */
  method WriteSlot<K, V>(n: HNode<K, V>, slots: array<HSlot<K, V>>, s: nat, x: HSlot<K, V>, shape: Shape<K, V>,
                         ghost t: Node<K, V>, ghost R: set<object>, ghost e: Edit, ghost F: set<object>)
    requires n !in F && n.edit == e && !t.Collision? && SameHead(shape, t) && shape.slots == slots && s < slots.Length
    requires LiveBut(slots[..][s := x], t.slots, |t.slots|, e, F, R)
    requires n !in R && R !! F && e !in R && slots !in R && slots !in F && slots as object != e
    modifies n, slots
    ensures n.edit == e && n.repr == {n, slots} + R && Live(n, t, e, F)
  {
    SetSlot(slots, s, x, t.slots, R, e, F);
    Rewrite(n, shape, t, R, e, F);
  }

  /** Puts the builder's token on a node that is the builder's alone. */
  method Own<K, V>(n: HNode<K, V>, ghost t: Node<K, V>, e: Edit, ghost F: set<object>)
    requires n !in F && Live(n, t, e, F)
    modifies n
    ensures n.edit == e && n.repr == old(n.repr) && Live(n, t, e, F)
  {
    ghost var R := Below(n);
    n.edit := e;
    assert Below(n) == R && Filled(n.shape, t, e, F, R);
  }

  method NewSingleton<K, V>(shift: nat, hash: nat, key: K, value: V, ghost e: Edit, ghost F: set<object>)
    returns (out: HNode<K, V>)
    ensures fresh(out) && fresh(out.repr) && out in out.repr && out !in F
      && Live(out, SingletonAt(shift, hash, key, value), e, F)
  {
    var slots := new HSlot<K, V>[1](_ => HPair(key, value));
    assert slots[..] == [HPair(key, value)];
    out := NewNode(null, BitmapShape(BitPos(hash, shift), slots), SingletonAt(shift, hash, key, value), {}, e, F);
  }

  /** `merge_two`: the nodes it makes carry no token. */
  method NewMerge<K, V>(shift: nat, hash1: nat, key1: K, value1: V, hash2: nat, key2: K, value2: V, ghost e: Edit,
      ghost F: set<object>)
    returns (out: HNode<K, V>)
    requires hash1 < WORD && hash2 < WORD && Agree(hash1, hash2, shift)
    ensures fresh(out) && fresh(out.repr) && out !in F
    ensures Live(out, MergeTwo(shift, hash1, key1, value1, hash2, key2, value2), e, F)
    decreases if shift < 32 then 32 - shift else 0
  {
    hide Branch, Agree;
    ghost var t := MergeTwo(shift, hash1, key1, value1, hash2, key2, value2);
    if hash1 == hash2 {
      var entries := new (K, V)[2](i => if i == 0 then (key1, value1) else (key2, value2));
      assert entries[..] == [(key1, value1), (key2, value2)];
      out := NewNode(null, CollisionShape(hash1, entries), t, {}, e, F);
      return;
    }
    var bit1, bit2 := BitPos(hash1, shift), BitPos(hash2, shift);
    SameBranch(hash1, hash2, shift);
    if bit1 == bit2 {
      AgreeBound(hash1, hash2, shift);
      AgreeStep(hash1, hash2, shift);
      var child := NewMerge(shift + 5, hash1, key1, value1, hash2, key2, value2, e, F);
      out := NewOne(bit1, child, MergeTwo(shift + 5, hash1, key1, value1, hash2, key2, value2), e, F);
    } else if bit1 < bit2 {
      out := NewPair(Or(bit1, bit2), HPair(key1, value1), HPair(key2, value2), t, {}, e, F);
    } else {
      out := NewPair(Or(bit1, bit2), HPair(key2, value2), HPair(key1, value1), t, {}, e, F);
    }
  }

  /** A bitmap node over one child. */
  method NewOne<K, V>(bit: nat, child: HNode<K, V>, ghost ct: Node<K, V>, ghost e: Edit, ghost F: set<object>)
    returns (out: HNode<K, V>)
    requires child !in F && Live(child, ct, e, F)
    ensures fresh(out) && out !in F && fresh(out.repr - child.repr) && Live(out, Bitmap(bit, [Sub(ct)]), e, F)
  {
    var slots := new HSlot<K, V>[1](_ => HSub(child));
    assert slots[..] == [HSub(child)];
    out := NewNode(null, BitmapShape(bit, slots), Bitmap(bit, [Sub(ct)]), child.repr, e, F);
  }

  /** A bitmap node of two slots. */
  method NewPair<K, V>(bits: nat, x: HSlot<K, V>, y: HSlot<K, V>, ghost t: Node<K, V>, ghost R: set<object>,
      ghost e: Edit, ghost F: set<object>)
    returns (out: HNode<K, V>)
    requires t.Bitmap? && t.bits == bits && LiveBut([x, y], t.slots, |t.slots|, e, F, R) && R !! F && e !in R
    ensures fresh(out) && out !in F && fresh(out.repr - R) && Live(out, t, e, F)
  {
    var slots := new HSlot<K, V>[2](i => if i == 0 then x else y);
    assert slots[..] == [x, y];
    out := NewNode(null, BitmapShape(bits, slots), t, R, e, F);
  }

  lemma {:induction false} SameBranch(hash1: nat, hash2: nat, shift: nat)
    ensures BitPos(hash1, shift) == BitPos(hash2, shift) <==> Branch(hash1, shift) == Branch(hash2, shift)
  {
    hide Branch;
    var b, c := Branch(hash1, shift), Branch(hash2, shift);
    if b < c { Pow2Below(b, c); } else if c < b { Pow2Below(c, b); }
  }

  /** `node_assoc` of a collision node for a key with another hash: nodes without a
      token down to where the hashes part, over the collision node itself. */
  method Spread<K(!new), V>(c: HNode<K, V>, ghost t: Node<K, V>, shift: nat, key: K, value: V, f: Keys<K>,
      ghost e: Edit, ghost F: set<object>)
    returns (out: HNode<K, V>)
    requires Live(c, t, e, F) && c !in F && OnPath(t, shift, key, f) && t.Collision? && t.hash != f.hash(key)
    ensures fresh(out) && out !in F && fresh(out.repr - c.repr)
    ensures AssocOf(t, shift, key, value, f).added == 1
    ensures Live(out, AssocOf(t, shift, key, value, f).node, e, F)
    decreases if shift < 32 then 32 - shift else 0
  {
    hide Branch, OnPath, AssocOf;
    CollisionSpreadIs(t, shift, key, value, f);
    SameBranch(t.hash, f.hash(key), shift);
    ghost var t' := AssocOf(t, shift, key, value, f).node;
    var bit1, bit2 := BitPos(c.shape.hash, shift), BitPos(f.hash(key), shift);
    if bit1 == bit2 {
      var child := Spread(c, t, shift + 5, key, value, f, e, F);
      out := NewOne(bit1, child, AssocOf(t, shift + 5, key, value, f).node, e, F);
    } else if bit1 < bit2 {
      out := NewPair(Or(bit1, bit2), HSub(c), HPair(key, value), t', c.repr, e, F);
    } else {
      out := NewPair(Or(bit1, bit2), HPair(key, value), HSub(c), t', c.repr, e, F);
    }
  }

  // ------------------------------------------------------- promote and pack

  /** Branch `b` of a node being promoted: what was there, or a new node for a pair. */
  ghost predicate Moved<K, V>(child: HSlot<K, V>, b: nat, slots: seq<HSlot<K, V>>, t: Node<K, V>, shift: nat,
      f: Keys<K>, made: set<object>, e: Edit, F: set<object>)
    requires t.Bitmap?
    reads made, F
  {
    match SlotAt(t, b)
    case Hole => child.HHole?
    case Sub(_) => Rank(t.bits, b) < |slots| && child == slots[Rank(t.bits, b)]
    case Pair(k, v) =>
      && child.HSub? && child.node in made && child.node !in F && child.node.repr <= made
      && Live(child.node, SingletonAt(shift + 5, f.hash(k), k, v), e, F)
  }

  /** New nodes share nothing with one another. */
  ghost predicate NewApart<K, V>(children: seq<HSlot<K, V>>, t: Node<K, V>, made: set<object>, n: nat)
    requires t.Bitmap? && n <= |children|
    reads made
  {
    forall b, c | 0 <= b < c < n && SlotAt(t, b).Pair? && SlotAt(t, c).Pair? ::
      && children[b].HSub? && children[c].HSub? && children[b].node in made && children[c].node in made
      && children[b].node.repr !! children[c].node.repr
  }

  lemma {:induction false} MovedLive<K, V>(children: seq<HSlot<K, V>>, slots: seq<HSlot<K, V>>, t: Node<K, V>,
      shift: nat, f: Keys<K>, made: set<object>, e: Edit, F: set<object>, R: set<object>)
    requires t.Bitmap? && Structured(t) && LiveBut(slots, t.slots, |t.slots|, e, F, R) && made !! R && |children| == 32
    requires MovedTo(children, 32, slots, t, shift, f, made, e, F)
    ensures LiveBut(children, seq(32, b requires 0 <= b => PromotedSlot(t, b, shift, f)), 32, e, F, R + made)
  {
    hide SingletonAt;
    var ts := seq(32, b requires 0 <= b => PromotedSlot(t, b, shift, f));
    forall b | 0 <= b < 32 ensures LiveSlot(children[b], ts[b], e, F, R + made) {
      assert Moved(children[b], b, slots, t, shift, f, made, e, F);
      if SlotAt(t, b).Sub? { assert LiveSlot(slots[Rank(t.bits, b)], t.slots[Rank(t.bits, b)], e, F, R); }
    }
    forall b, c | 0 <= b < c < 32 ensures Apart(children[b], children[c], F, R + made) {
      assert Moved(children[b], b, slots, t, shift, f, made, e, F)
        && Moved(children[c], c, slots, t, shift, f, made, e, F);
      var x, y := SlotAt(t, b), SlotAt(t, c);
      if x.Sub? { assert LiveSlot(slots[Rank(t.bits, b)], t.slots[Rank(t.bits, b)], e, F, R); }
      if y.Sub? { assert LiveSlot(slots[Rank(t.bits, c)], t.slots[Rank(t.bits, c)], e, F, R); }
      if x.Sub? && y.Sub? {
        RankMonotone(t.bits, b, c);
        assert Apart(slots[Rank(t.bits, b)], slots[Rank(t.bits, c)], F, R);
      }
    }
  }

  /** The first `n` branches have been moved, and the others are still empty. */
  ghost predicate MovedTo<K, V>(children: seq<HSlot<K, V>>, n: nat, slots: seq<HSlot<K, V>>, t: Node<K, V>, shift: nat,
      f: Keys<K>, made: set<object>, e: Edit, F: set<object>)
    requires t.Bitmap? && n <= |children|
    reads made, F
  {
    && (forall b | 0 <= b < n :: Moved(children[b], b, slots, t, shift, f, made, e, F))
    && (forall b | n <= b < |children| :: children[b].HHole?)
    && NewApart(children, t, made, n)
  }

  lemma {:induction false} MovedMore<K, V>(children: seq<HSlot<K, V>>, n: nat, x: HSlot<K, V>, slots: seq<HSlot<K, V>>,
      t: Node<K, V>, shift: nat, f: Keys<K>, made: set<object>, more: set<object>, e: Edit, F: set<object>)
    requires t.Bitmap? && n < |children| && MovedTo(children, n, slots, t, shift, f, made, e, F)
    requires made !! more && Moved(x, n, slots, t, shift, f, more, e, F)
    ensures MovedTo(children[n := x], n + 1, slots, t, shift, f, made + more, e, F)
  {
    hide SingletonAt, Live;
    var children' := children[n := x];
    forall b | 0 <= b < n + 1 ensures Moved(children'[b], b, slots, t, shift, f, made + more, e, F) {
      if b < n { assert Moved(children[b], b, slots, t, shift, f, made, e, F); }
    }
    forall b, c | 0 <= b < c < n + 1 && SlotAt(t, b).Pair? && SlotAt(t, c).Pair?
      ensures children'[b].HSub? && children'[c].HSub? && children'[b].node in made + more
        && children'[c].node in made + more
      ensures children'[b].node.repr !! children'[c].node.repr
    {
      assert Moved(children[b], b, slots, t, shift, f, made, e, F);
      if c < n { assert Moved(children[c], c, slots, t, shift, f, made, e, F); }
    }
  }

  /** The loop of `promote`. */
  method MoveBranches<K, V>(n: HNode<K, V>, ghost t: Node<K, V>, shift: nat, f: Keys<K>, ghost e: Edit,
      ghost F: set<object>)
    returns (children: array<HSlot<K, V>>, ghost made: set<object>)
    requires n !in F && Live(n, t, e, F) && t.Bitmap? && Structured(t)
    ensures fresh(made) && fresh(children) && children !in made && children.Length == 32
    ensures MovedTo(children[..], 32, n.shape.slots[..], t, shift, f, made, e, F)
  {
    hide SingletonAt, MovedTo, Live, LiveBut;
    CopiedLive(n, t, e, F);
    var BitmapShape(bits, slots) := n.shape;
    children := new HSlot<K, V>[32](_ => HHole);
    made := {};
    var slot := 0;
    ghost var all := slots[..];
    NothingMoved(children[..], all, t, shift, f, e, F);
    for branch := 0 to 32
      invariant fresh(made) && fresh(children) && children !in made && slot == Rank(bits, branch) && all == slots[..]
      invariant LiveBut(all, t.slots, |t.slots|, e, F, Below(n))
      invariant MovedTo(children[..], branch, all, t, shift, f, made, e, F)
    {
      BitFacts(bits, branch);
      ghost var before, more := children[..], {};
      if And(bits, Pow2(branch)) != 0 {
        HoldsAt(all, t.slots, slot, |t.slots|, e, F, Below(n));
        assert SlotAt(t, branch) == t.slots[slot];
        match slots[slot] {
          case HSub(_) => children[branch] := slots[slot];
          case HPair(k, v) =>
            var single := NewSingleton(shift + 5, f.hash(k), k, v, e, F);
            children[branch] := HSub(single);
            more := single.repr;
        }
        slot := slot + 1;
      } else {
        assert before[branch].HHole? by { StillEmpty(before, branch, all, t, shift, f, made, e, F); }
      }
      assert children[..] == before[branch := children[branch]];
      MovedMore(before, branch, children[branch], all, t, shift, f, made, more, e, F);
      made := made + more;
    }
  }

  lemma NothingMoved<K, V>(children: seq<HSlot<K, V>>, slots: seq<HSlot<K, V>>, t: Node<K, V>, shift: nat, f: Keys<K>,
      e: Edit, F: set<object>)
    requires t.Bitmap? && forall b | 0 <= b < |children| :: children[b].HHole?
    ensures MovedTo(children, 0, slots, t, shift, f, {}, e, F)
  {}

  lemma StillEmpty<K, V>(children: seq<HSlot<K, V>>, n: nat, slots: seq<HSlot<K, V>>, t: Node<K, V>, shift: nat,
      f: Keys<K>, made: set<object>, e: Edit, F: set<object>)
    requires t.Bitmap? && n < |children| && MovedTo(children, n, slots, t, shift, f, made, e, F)
    ensures children[n].HHole?
  {}

  lemma HoldsAt<K, V>(slots: seq<HSlot<K, V>>, ts: seq<Slot<K, V>>, s: nat, but: nat, e: Edit, F: set<object>,
      R: set<object>)
    requires s < |ts| && s != but && LiveBut(slots, ts, but, e, F, R)
    ensures |slots| == |ts| && LiveSlot(slots[s], ts[s], e, F, R)
  {}

  lemma HoldsLess<K, V>(slots: seq<HSlot<K, V>>, ts: seq<Slot<K, V>>, s: nat, e: Edit, F: set<object>, R: set<object>)
    requires LiveBut(slots, ts, |ts|, e, F, R)
    ensures LiveBut(slots, ts, s, e, F, R)
  {}

  method NewPromoted<K, V>(n: HNode<K, V>, ghost t: Node<K, V>, shift: nat, hash: nat, key: K, value: V, f: Keys<K>,
                           ghost e: Edit, ghost F: set<object>) returns (out: HNode<K, V>)
    requires n !in F && Live(n, t, e, F) && t.Bitmap? && Structured(t)
    ensures fresh(out) && out !in F && fresh(out.repr - n.repr)
    ensures Live(out, Promote(t, shift, hash, key, value, f), e, F)
  {
    hide Branch, SingletonAt, Live, LiveBut, MovedTo, PromotedSlot;
    ghost var R := Below(n);
    CopiedLive(n, t, e, F);
    LiveHead(n, t, e, F);
    var children, made := MoveBranches(n, t, shift, f, e, F);
    MovedLive(children[..], n.shape.slots[..], t, shift, f, made, e, F, R);
    var index := Branch(hash, shift);
    var single := NewSingleton(shift + 5, hash, key, value, e, F);
    ghost var ts := seq(32, b requires 0 <= b => PromotedSlot(t, b, shift, f));
    ghost var x := Sub(SingletonAt(shift + 5, hash, key, value));
    SubReady(single, x.node, e, F, R + made);
    HoldsLess(children[..], ts, index, e, F, R + made);
    SlotsUpdated(children[..], ts, index, HSub(single), x, e, F, R + made);
    SetSlot(children, index, HSub(single), ts[index := x], R + made + single.repr, e, F);
    out := NewNode(null, ArrayShape(17, children), Promote(t, shift, hash, key, value, f), R + made + single.repr, e,
        F);
  }

  /** `pack_array`: the children but for one that has gone, packed into an array that
      they fill. */
  method NewPacked<K, V>(n: HNode<K, V>, ghost t: Node<K, V>, removed: nat, ghost R: set<object>, ghost e: Edit,
      ghost F: set<object>)
    returns (out: HNode?<K, V>)
    requires t.Array? && SameHead(n.shape, t) && |t.slots| == 32 && removed < 32
    requires t.count == CountFull(t.slots) && !t.slots[removed].Hole?
    requires LiveBut(n.shape.slots[..], t.slots, removed, e, F, R) && R !! F && e !in R
    requires forall b | 0 <= b < 32 :: !t.slots[b].Pair?
    ensures out == null <==> PackArray(t, removed).None?
    ensures out != null ==>
      && fresh(out) && out !in F && fresh(out.repr - R)
      && Live(out, PackArray(t, removed).value, e, F)
  {
    hide LiveBut, Live, Picked;
    ghost var slots := n.shape.slots[..];
    var bits, entries, pick := PackBranches(n, t, removed, R, e, F);
    if bits == 0 { return null; }
    ghost var packed := PackedSlots(t.slots, removed, 32);
    AllPicked(pick, entries[..], slots, t.slots, removed);
    SlotsPicked(slots, t.slots, removed, pick, entries[..], packed, e, F, R);
    out := NewNode(null, BitmapShape(bits, entries), Bitmap(bits, packed), R, e, F);
  }

  /** The loop of `pack_array`. */
  method PackBranches<K, V>(n: HNode<K, V>, ghost t: Node<K, V>, removed: nat, ghost R: set<object>, ghost e: Edit,
      ghost F: set<object>)
    returns (bits: nat, entries: array<HSlot<K, V>>, ghost pick: seq<nat>)
    requires t.Array? && SameHead(n.shape, t) && |t.slots| == 32 && removed < 32
    requires t.count == CountFull(t.slots) && !t.slots[removed].Hole?
    requires LiveBut(n.shape.slots[..], t.slots, removed, e, F, R)
    requires forall b | 0 <= b < 32 :: !t.slots[b].Pair?
    ensures fresh(entries) && bits == PackedBits(t.slots, removed, 32) && |pick| == entries.Length
    ensures Picked(pick, entries[..], n.shape.slots[..], t.slots, removed, 32)
  {
    hide LiveBut, Picked;
    var slots := n.shape.slots;
    var put := 0;
    bits, pick := 0, [];
    PackedCount(t, removed, 32);
    entries := new HSlot<K, V>[n.shape.count - 1](_ => HHole);
    NothingPicked(entries[..], slots[..], t.slots, removed);
    for i := 0 to 32
      invariant bits == PackedBits(t.slots, removed, i) && put == |pick| == |PackedSlots(t.slots, removed, i)|
      invariant Picked(pick, entries[..], slots[..], t.slots, removed, i)
    {
      PackedCount(t, removed, i + 1);
      ghost var was := entries[..];
      PickedMore(pick, was, slots[..], t.slots, removed, i);
      if i != removed {
        HoldsAt(slots[..], t.slots, i, removed, e, F, R);
        if slots[i].HSub? {
          bits := Or(bits, Pow2(i));
          entries[put] := slots[i];
          assert entries[..] == was[put := slots[i]];
          put := put + 1;
          pick := pick + [i];
        }
      }
    }
  }

  /** Where the packed slots come from. */
  ghost predicate Picked<K, V>(pick: seq<nat>, entries: seq<HSlot<K, V>>, slots: seq<HSlot<K, V>>, ts: seq<Slot<K, V>>,
      removed: nat, i: nat)
    requires i <= |ts| == |slots|
  {
    var packed := PackedSlots(ts, removed, i);
    && |pick| == |packed| <= |entries|
    && (forall k | 0 <= k < |pick| ::
         && pick[k] < i && pick[k] != removed && entries[k] == slots[pick[k]]
         && packed[k] == ts[pick[k]])
    && forall k, l | 0 <= k < l < |pick| :: pick[k] < pick[l]
  }

  lemma NothingPicked<K, V>(entries: seq<HSlot<K, V>>, slots: seq<HSlot<K, V>>, ts: seq<Slot<K, V>>, removed: nat)
    requires |ts| == |slots|
    ensures Picked([], entries, slots, ts, removed, 0)
  {}

  lemma PickedMore<K, V>(pick: seq<nat>, entries: seq<HSlot<K, V>>, slots: seq<HSlot<K, V>>, ts: seq<Slot<K, V>>,
      removed: nat, i: nat)
    requires i < |ts| == |slots| && Picked(pick, entries, slots, ts, removed, i)
    ensures i == removed || ts[i].Hole? ==> Picked(pick, entries, slots, ts, removed, i + 1)
    ensures i != removed && !ts[i].Hole? && |pick| < |entries| ==>
      Picked(pick + [i], entries[|pick| := slots[i]], slots, ts, removed, i + 1)
  {
    if i != removed && !ts[i].Hole? && |pick| < |entries| {
      var pick', entries', packed' := pick + [i], entries[|pick| := slots[i]], PackedSlots(ts, removed, i + 1);
      assert packed' == PackedSlots(ts, removed, i) + [ts[i]];
      forall k | 0 <= k < |pick'|
        ensures pick'[k] < i + 1 && pick'[k] != removed && entries'[k] == slots[pick'[k]] && packed'[k] == ts[pick'[k]]
      {
        if k < |pick| { assert pick'[k] == pick[k] && entries'[k] == entries[k]; }
      }
    }
  }

  lemma AllPicked<K, V>(pick: seq<nat>, entries: seq<HSlot<K, V>>, slots: seq<HSlot<K, V>>, ts: seq<Slot<K, V>>,
      removed: nat)
    requires |ts| == |slots| == 32 && Picked(pick, entries, slots, ts, removed, 32)
    ensures |pick| == |PackedSlots(ts, removed, 32)| <= |entries|
    ensures forall k | 0 <= k < |pick| ::
      pick[k] < |ts| && pick[k] != removed && entries[k] == slots[pick[k]]
          && PackedSlots(ts, removed, 32)[k] == ts[pick[k]]
    ensures forall k, l | 0 <= k < l < |pick| :: pick[k] < pick[l]
  {}

  /** There is room for what is packed, and no more. */
  lemma {:induction false} PackedCount<K, V>(t: Node<K, V>, removed: nat, i: nat)
    requires t.Array? && |t.slots| == 32 && removed < 32 && i <= 32
    requires t.count == CountFull(t.slots) && !t.slots[removed].Hole?
    ensures |PackedSlots(t.slots, removed, i)| <= t.count - 1
    ensures i == 32 ==> |PackedSlots(t.slots, removed, i)| == t.count - 1
  {
    PackedUpTo(t.slots, removed, 32);
    CountFullUpdate(t.slots, removed, Hole);
    assert t.slots[removed := Hole][..32] == t.slots[removed := Hole];
    PackedGrows(t.slots, removed, i, 32);
  }

  lemma {:induction false} PackedGrows<K, V>(w: seq<Slot<K, V>>, removed: nat, i: nat, j: nat)
    requires i <= j <= |w|
    ensures |PackedSlots(w, removed, i)| <= |PackedSlots(w, removed, j)|
  {
    if i < j { PackedGrows(w, removed, i, j - 1); }
  }

  // ------------------------------------------------------------------ lookup

  /** `node_get`, on a builder's nodes. */
  method NodeGetAt<K, V>(n: HNode<K, V>, ghost t: Node<K, V>, shift: nat, hash: nat, key: K, f: Keys<K>, ghost e: Edit,
      ghost F: set<object>)
    returns (r: Option<V>)
    requires Live(n, t, e, F) && Valid(t, shift, f)
    ensures r == NodeGet(t, shift, hash, key, f)
    decreases t
  {
    hide Branch;
    ghost var b := Branch(hash, shift);
    if !t.Collision? { SlotsOk(t, b, shift, f); }
    match n.shape
    case BitmapShape(bits, slots) =>
      BitFacts(bits, b);
      var bit := BitPos(hash, shift);
      if And(bits, bit) == 0 { return None; }
      var at := BitmapIndex(bits, bit);
      LiveAt(n, t, at, e, F);
      assert t.slots[at] == SlotAt(t, b);
      match slots[at] {
        case HSub(child) => r := NodeGetAt(child, t.slots[at].node, shift + 5, hash, key, f, e, F);
        case HPair(k, v) => r := if f.equal(k, key) then Some(v) else None;
      }
    case ArrayShape(_, slots) =>
      var index := Branch(hash, shift);
      LiveAt(n, t, index, e, F);
      assert t.slots[index] == SlotAt(t, b);
      if slots[index].HHole? { return None; }
      r := NodeGetAt(slots[index].node, t.slots[index].node, shift + 5, hash, key, f, e, F);
    case CollisionShape(h, entries) =>
      if h != hash { return None; }
      var at := FindEntry(entries, key, f);
      FindIsIndexOf(t.entries, key, f);
      assert entries[..] == t.entries;
      r := if at < entries.Length then Some(entries[at].1) else None;
  }

  /** What a slot holds, and what it stands for, match. */
  lemma {:induction false} LiveAt<K, V>(n: HNode<K, V>, t: Node<K, V>, s: nat, e: Edit, F: set<object>)
    requires !t.Collision? && s < |t.slots| && Live(n, t, e, F)
    ensures SameHead(n.shape, t)
    ensures var x := n.shape.slots[s];
      match t.slots[s]
      case Hole => x.HHole?
      case Pair(k, v) => x == HPair(k, v)
      case Sub(ct) => x.HSub? && Live(x.node, ct, e, F)
  {
    if n in F {
      assert FrozenSlot(n.shape.slots[s], t.slots[s], F);
      if t.slots[s].Sub? { assert Frozen(n.shape.slots[s].node, t.slots[s].node, F); }
    } else {
      var slots := n.shape.slots[..];
      assert LiveBut(slots, t.slots, |t.slots|, e, F, Below(n));
      assert LiveSlot(slots[s], t.slots[s], e, F, Below(n));
    }
  }

  /** The loop by which a collision node looks for a key. */
  method FindEntry<K, V>(entries: array<(K, V)>, key: K, f: Keys<K>) returns (at: nat)
    ensures at == IndexOf(entries[..], key, f)
  {
    ghost var all := entries[..];
    assert all[0..] == all;
    for i := 0 to entries.Length
      invariant IndexOf(all, key, f) == i + IndexOf(all[i..], key, f)
    {
      assert all[i..][0] == entries[i] && all[i..][1..] == all[i + 1..];
      if f.equal(entries[i].0, key) { return i; }
    }
    return entries.Length;
  }

  lemma {:induction false} FindIsIndexOf<K, V>(e: seq<(K, V)>, key: K, f: Keys<K>)
    ensures Find(e, key, f) == var at := IndexOf(e, key, f); if at < |e| then Some(e[at].1) else None
  {
    if |e| > 0 && !f.equal(e[0].0, key) { FindIsIndexOf(e[1..], key, f); }
  }

  // ------------------------------------------------------------ t_node_assoc

  /** `t_node_assoc`: builds in place what `node_assoc` builds by copying, writing
      only what the builder alone can reach. */
  method TNodeAssoc<K(!new), V>(n: HNode<K, V>, ghost t: Node<K, V>, shift: nat, key: K, value: V, f: Keys<K>, e: Edit,
      ghost F: set<object>)
    returns (out: HNode<K, V>, added: nat)
    requires e.active && Live(n, t, e, F) && OnPath(t, shift, key, f)
    modifies Foot(n, F)
    ensures out.edit == e && out !in F && fresh(out.repr - old(Foot(n, F)))
    ensures Live(out, AssocOf(t, shift, key, value, f).node, e, F) && added == AssocOf(t, shift, key, value, f).added
    decreases t, 2
  {
    hide Live, OnPath, AssocOf;
    var owned := EnsureNode(n, t, e, F);
    LiveHead(owned, t, e, F);
    match owned.shape
    case BitmapShape(_, _) => out, added := TBitmapAssoc(owned, t, shift, key, value, f, e, F);
    case ArrayShape(_, _) => out, added := TArrayAssoc(owned, t, shift, key, value, f, e, F);
    case CollisionShape(_, _) => out, added := TCollisionAssoc(owned, t, shift, key, value, f, e, F);
  }

  lemma {:induction false} LiveHead<K, V>(n: HNode<K, V>, t: Node<K, V>, e: Edit, F: set<object>)
    requires Live(n, t, e, F)
    ensures SameHead(n.shape, t)
    ensures n !in F ==> n in n.repr && Held(n.shape) in n.repr && n.repr !! F && e !in n.repr
  {}

  method TBitmapAssoc<K(!new), V>(n: HNode<K, V>, ghost t: Node<K, V>, shift: nat, key: K, value: V, f: Keys<K>,
      e: Edit, ghost F: set<object>)
    returns (out: HNode<K, V>, added: nat)
    requires e.active && n.edit == e && n !in F && Live(n, t, e, F) && OnPath(t, shift, key, f) && t.Bitmap?
    modifies n.repr
    ensures out.edit == e && out !in F && fresh(out.repr - old(n.repr))
    ensures Live(out, AssocOf(t, shift, key, value, f).node, e, F) && added == AssocOf(t, shift, key, value, f).added
    decreases t, 1
  {
    hide Branch, OnPath, AssocOf, Promote, MergeTwo, Agree, Live;
    BitmapAssocIs(t, shift, key, value, f);
    LiveHead(n, t, e, F);
    var BitmapShape(bits, slots) := n.shape;
    var bit := BitPos(f.hash(key), shift);
    var at := BitmapIndex(bits, bit);
    if And(bits, bit) == 0 {
      if PopCount(bits) >= 16 {
        StructuredOf(t, shift, key, f);
        out := NewPromoted(n, t, shift, f.hash(key), key, value, f, e, F);
        Own(out, Promote(t, shift, f.hash(key), key, value, f), e, F);
      } else {
        InsertPair(n, t, bit, at, key, value, e, F);
        out := n;
      }
      added := 1;
    } else {
      Split(n, t, at, e, F);
      match slots[at] {
        case HSub(_) => added := TBitmapBelow(n, t, at, shift, key, value, f, e, F);
        case HPair(k, v) => added := TBitmapPair(n, t, at, k, v, shift, key, value, f, e, F);
      }
      out := n;
    }
  }

  lemma {:induction false} StructuredOf<K(!new), V>(t: Node<K, V>, shift: nat, key: K, f: Keys<K>)
    requires OnPath(t, shift, key, f) && !t.Collision?
    ensures Structured(t)
  {
    SlotsOk(t, 0, shift, f);
  }

  /** A new pair in an empty branch. */
  method InsertPair<K(!new), V>(n: HNode<K, V>, ghost t: Node<K, V>, bit: nat, at: nat, key: K, value: V, e: Edit,
      ghost F: set<object>)
    requires n.edit == e && n !in F && Live(n, t, e, F) && t.Bitmap? && at <= |t.slots|
    modifies n
    ensures n.edit == e && fresh(n.repr - old(n.repr))
    ensures Live(n, Bitmap(Or(t.bits, bit), InsertAt(t.slots, at, Pair(key, value))), e, F)
  {
    var BitmapShape(bits, slots) := n.shape;
    ghost var R := Below(n);
    SlotsInserted(slots[..], t.slots, at, HPair(key, value), Pair(key, value), e, F, R);
    assert R + SlotFoot(HPair(key, value), F) == R;
    var more := InsertSlot(slots, at, HPair(key, value));
    Rewrite(n, BitmapShape(Or(bits, bit), more), Bitmap(Or(t.bits, bit), InsertAt(t.slots, at, Pair(key, value))), R,
        e, F);
  }

  /** A child in an occupied branch. */
  method TBitmapBelow<K(!new), V>(n: HNode<K, V>, ghost t: Node<K, V>, at: nat, shift: nat, key: K, value: V,
      f: Keys<K>, e: Edit, ghost F: set<object>)
    returns (added: nat)
    requires e.active && n.edit == e && n !in F && Live(n, t, e, F) && t.Bitmap? && at < |t.slots|
    requires t.slots[at].Sub? && OnPath(t.slots[at].node, shift + 5, key, f)
    modifies n.repr
    ensures n.edit == e && fresh(n.repr - old(n.repr))
    ensures var r := AssocOf(t.slots[at].node, shift + 5, key, value, f);
      added == r.added && Live(n, Bitmap(t.bits, t.slots[at := Sub(r.node)]), e, F)
    decreases t, 0
  {
    hide Live, LiveBut, OnPath, AssocOf;
    Split(n, t, at, e, F);
    var BitmapShape(bits, slots) := n.shape;
    ghost var ct, R := t.slots[at].node, Below(n) - SlotFoot(slots[at], F);
    var child;
    child, added := TNodeAssoc(slots[at].node, ct, shift + 5, key, value, f, e, F);
    ghost var c' := AssocOf(ct, shift + 5, key, value, f).node;
    SubReady(child, c', e, F, R);
    SlotsUpdated(slots[..], t.slots, at, HSub(child), Sub(c'), e, F, R);
    WriteSlot(n, slots, at, HSub(child), n.shape, Bitmap(t.bits, t.slots[at := Sub(c')]), R + child.repr, e, F);
  }

  lemma {:induction false} SubReady<K, V>(child: HNode<K, V>, ct: Node<K, V>, e: Edit, F: set<object>, R: set<object>)
    requires child !in F && Live(child, ct, e, F) && child.repr !! R
    ensures Ready(HSub(child), Sub(ct), e, F, R) && SlotFoot(HSub(child), F) == child.repr
    ensures child in child.repr && child.repr !! F && e !in child.repr
  {}

  /** A pair in an occupied branch: its value is replaced, or the two pairs merged. */
  method TBitmapPair<K(!new), V>(n: HNode<K, V>, ghost t: Node<K, V>, at: nat, k: K, v: V, shift: nat, key: K,
      value: V, f: Keys<K>, e: Edit, ghost F: set<object>)
    returns (added: nat)
    requires n.edit == e && n !in F && Live(n, t, e, F) && t.Bitmap? && at < |t.slots| && t.slots[at] == Pair(k, v)
    requires f.hash(k) < WORD && f.hash(key) < WORD && Agree(f.hash(k), f.hash(key), shift + 5)
    modifies n, Held(n.shape)
    ensures n.edit == e && fresh(n.repr - old(n.repr))
    ensures added == if f.equal(k, key) then 0 else 1
    ensures var x := if f.equal(k, key) then Pair(k, value)
      else Sub(MergeTwo(shift + 5, f.hash(k), k, v, f.hash(key), key, value));
      Live(n, Bitmap(t.bits, t.slots[at := x]), e, F)
  {
    hide MergeTwo, Agree, Live, LiveBut;
    Split(n, t, at, e, F);
    var BitmapShape(bits, slots) := n.shape;
    ghost var R := Below(n) - SlotFoot(slots[at], F);
    if f.equal(k, key) {
      SlotsUpdated(slots[..], t.slots, at, HPair(k, value), Pair(k, value), e, F, R);
      assert R + SlotFoot(HPair(k, value), F) == R;
      WriteSlot(n, slots, at, HPair(k, value), n.shape, Bitmap(t.bits, t.slots[at := Pair(k, value)]), R, e, F);
      added := 0;
    } else {
      var child := NewMerge(shift + 5, f.hash(k), k, v, f.hash(key), key, value, e, F);
      ghost var ct := MergeTwo(shift + 5, f.hash(k), k, v, f.hash(key), key, value);
      SubReady(child, ct, e, F, R);
      SlotsUpdated(slots[..], t.slots, at, HSub(child), Sub(ct), e, F, R);
      WriteSlot(n, slots, at, HSub(child), n.shape, Bitmap(t.bits, t.slots[at := Sub(ct)]), R + child.repr, e, F);
      added := 1;
    }
  }

  method TArrayAssoc<K(!new), V>(n: HNode<K, V>, ghost t: Node<K, V>, shift: nat, key: K, value: V, f: Keys<K>,
      e: Edit, ghost F: set<object>)
    returns (out: HNode<K, V>, added: nat)
    requires e.active && n.edit == e && n !in F && Live(n, t, e, F) && OnPath(t, shift, key, f) && t.Array?
    modifies n.repr
    ensures out.edit == e && out !in F && fresh(out.repr - old(n.repr))
    ensures Live(out, AssocOf(t, shift, key, value, f).node, e, F) && added == AssocOf(t, shift, key, value, f).added
    decreases t, 1
  {
    hide Branch, OnPath, AssocOf, SingletonAt, Live, LiveBut;
    ArrayAssocIs(t, shift, key, value, f);
    var index := Branch(f.hash(key), shift);
    Split(n, t, index, e, F);
    var ArrayShape(count, slots) := n.shape;
    ghost var R := Below(n) - SlotFoot(slots[index], F);
    var child;
    ghost var c';
    if slots[index].HHole? {
      child := NewSingleton(shift + 5, f.hash(key), key, value, e, F);
      c' := SingletonAt(shift + 5, f.hash(key), key, value);
      Own(child, c', e, F);
      added := 1;
      count := count + 1;
    } else {
      c' := AssocOf(t.slots[index].node, shift + 5, key, value, f).node;
      child, added := TNodeAssoc(slots[index].node, t.slots[index].node, shift + 5, key, value, f, e, F);
    }
    SubReady(child, c', e, F, R);
    SlotsUpdated(slots[..], t.slots, index, HSub(child), Sub(c'), e, F, R);
    WriteSlot(n, slots, index, HSub(child), ArrayShape(count, slots), Array(count, t.slots[index := Sub(c')]),
        R + child.repr, e, F);
    out := n;
  }

  method TCollisionAssoc<K(!new), V>(n: HNode<K, V>, ghost t: Node<K, V>, shift: nat, key: K, value: V, f: Keys<K>,
      e: Edit, ghost F: set<object>)
    returns (out: HNode<K, V>, added: nat)
    requires n.edit == e && n !in F && Live(n, t, e, F) && OnPath(t, shift, key, f) && t.Collision?
    modifies n, Held(n.shape)
    ensures out.edit == e && out !in F && fresh(out.repr - old(n.repr))
    ensures Live(out, AssocOf(t, shift, key, value, f).node, e, F) && added == AssocOf(t, shift, key, value, f).added
  {
    hide Branch, OnPath, AssocOf;
    ghost var t' := AssocOf(t, shift, key, value, f).node;
    var CollisionShape(h, entries) := n.shape;
    if h != f.hash(key) {
      out := Spread(n, t, shift, key, value, f, e, F);
      Own(out, t', e, F);
      return out, 1;
    }
    CollisionAssocIs(t, shift, key, value, f);
    var at := FindEntry(entries, key, f);
    if at < entries.Length {
      entries[at] := (entries[at].0, value);
      assert entries[..] == t.entries[at := (t.entries[at].0, value)];
      Rewrite(n, CollisionShape(h, entries), t', {}, e, F);
      added := 0;
    } else {
      var more := InsertSlot(entries, at, (key, value));
      assert more[..] == t.entries + [(key, value)];
      Rewrite(n, CollisionShape(h, more), t', {}, e, F);
      added := 1;
    }
    out := n;
  }

  // ----------------------------------------------------------- t_node_dissoc

  /** `t_node_dissoc`: leaves in place what `node_dissoc` builds by copying. When
      there is nothing to remove, nothing is written. */
  method TNodeDissoc<K(!new), V>(n: HNode<K, V>, ghost t: Node<K, V>, shift: nat, key: K, f: Keys<K>, e: Edit,
      ghost F: set<object>)
    returns (out: HNode?<K, V>, removed: bool)
    requires e.active && Live(n, t, e, F) && Valid(t, shift, f)
    modifies Foot(n, F)
    ensures Dropped(out, removed, NodeDissoc(t, shift, f.hash(key), key, f), e, F)
    ensures out != null ==> fresh(out.repr - old(Foot(n, F)))
    ensures !removed ==> unchanged(old(Foot(n, F)))
    decreases t, 2
  {
    hide Live, Valid, NodeDissoc;
    var owned := EnsureNode(n, t, e, F);
    LiveHead(owned, t, e, F);
    match owned.shape
    case BitmapShape(_, _) => out, removed := TBitmapDissoc(owned, t, shift, key, f, e, F);
    case ArrayShape(_, _) => out, removed := TArrayDissoc(owned, t, shift, key, f, e, F);
    case CollisionShape(_, _) => out, removed := TCollisionDissoc(owned, t, shift, key, f, e, F);
  }

  /** The node that a removal left, if any, stands for the node it should be. */
  ghost predicate Dropped<K, V>(out: HNode?<K, V>, removed: bool, r: Dissoced<K, V>, e: Edit, F: set<object>)
    reads if out == null then {} else {out}, if out == null then {} else out.repr, F
  {
    && removed == r.removed
    && (out == null <==> r.node.None?)
    && (out != null ==> out.edit == e && out !in F && Live(out, r.node.value, e, F))
  }

  method TBitmapDissoc<K(!new), V>(n: HNode<K, V>, ghost t: Node<K, V>, shift: nat, key: K, f: Keys<K>, e: Edit,
      ghost F: set<object>)
    returns (out: HNode?<K, V>, removed: bool)
    requires e.active && n.edit == e && n !in F && Live(n, t, e, F) && Valid(t, shift, f) && t.Bitmap?
    modifies n.repr
    ensures Dropped(out, removed, NodeDissoc(t, shift, f.hash(key), key, f), e, F)
    ensures out != null ==> fresh(out.repr - old(n.repr))
    ensures !removed ==> unchanged(old(n.repr))
    decreases t, 1
  {
    hide Branch, Valid, NodeDissoc, Live, LiveBut;
    BitmapDissocIs(t, shift, f.hash(key), key, f);
    LiveHead(n, t, e, F);
    var BitmapShape(bits, slots) := n.shape;
    var bit := BitPos(f.hash(key), shift);
    if And(bits, bit) == 0 { return n, false; }
    var at := BitmapIndex(bits, bit);
    Split(n, t, at, e, F);
    match slots[at]
    case HSub(child) =>
      var kept;
      kept, removed := TNodeDissoc(child, t.slots[at].node, shift + 5, key, f, e, F);
      if !removed { return n, false; }
      out := TBitmapRefill(n, t, at, bit, kept, NodeDissoc(t.slots[at].node, shift + 5, f.hash(key), key, f).node,
                           Below(n) - old(SlotFoot(slots[at], F)), e, F);
    case HPair(k, _) =>
      if !f.equal(k, key) { return n, false; }
      out := TBitmapRefill(n, t, at, bit, null, None, Below(n) - SlotFoot(slots[at], F), e, F);
      removed := true;
  }

  /** What is left of a slot goes back in, or the slot goes, and with the last slot
      the node. */
  method TBitmapRefill<K(!new), V>(n: HNode<K, V>, ghost t: Node<K, V>, at: nat, bit: nat, kept: HNode?<K, V>,
      ghost c: Option<Node<K, V>>, ghost R: set<object>, e: Edit, ghost F: set<object>) returns (out: HNode?<K, V>)
    requires n.edit == e && n !in F && SameHead(n.shape, t) && t.Bitmap? && at < |t.slots|
    requires LiveBut(n.shape.slots[..], t.slots, at, e, F, R) && n !in R && R !! F && e !in R
    requires Held(n.shape) !in R && Held(n.shape) !in F && Held(n.shape) != e
    requires kept == null <==> c.None?
    requires kept != null ==>
      kept !in F && Live(kept, c.value, e, F) && kept.repr !! R && n !in kept.repr && Held(n.shape) !in kept.repr
    modifies n, Held(n.shape)
    ensures Dropped(out, true,
              if c.Some? then Dissoced(Some(Bitmap(t.bits, t.slots[at := Sub(c.value)])), true)
              else if t.bits == bit then Dissoced(None, true)
              else Dissoced(Some(Bitmap(Xor(t.bits, bit), RemoveAt(t.slots, at))), true), e, F)
    ensures out != null ==>
      && out == n
      && fresh(n.repr - ({n, old(Held(n.shape))} + R + (if kept == null then {} else old(kept.repr))))
  {
    hide Live, LiveBut;
    var BitmapShape(bits, slots) := n.shape;
    if kept == null {
      if bits == bit { return null; }
      SlotsRemoved(slots[..], t.slots, at, e, F, R);
      var fewer := RemoveSlot(slots, at);
      Rewrite(n, BitmapShape(Xor(bits, bit), fewer), Bitmap(Xor(t.bits, bit), RemoveAt(t.slots, at)), R, e, F);
    } else {
      SubReady(kept, c.value, e, F, R);
      SlotsUpdated(slots[..], t.slots, at, HSub(kept), Sub(c.value), e, F, R);
      WriteSlot(n, slots, at, HSub(kept), n.shape, Bitmap(t.bits, t.slots[at := Sub(c.value)]), R + kept.repr, e, F);
    }
    out := n;
  }

  method TArrayDissoc<K(!new), V>(n: HNode<K, V>, ghost t: Node<K, V>, shift: nat, key: K, f: Keys<K>, e: Edit,
      ghost F: set<object>)
    returns (out: HNode?<K, V>, removed: bool)
    requires e.active && n.edit == e && n !in F && Live(n, t, e, F) && Valid(t, shift, f) && t.Array?
    modifies n.repr
    ensures Dropped(out, removed, NodeDissoc(t, shift, f.hash(key), key, f), e, F)
    ensures out != null ==> fresh(out.repr - old(n.repr))
    ensures !removed ==> unchanged(old(n.repr))
    decreases t, 1
  {
    hide Branch, Valid, NodeDissoc, Live, LiveBut, PackArray;
    ArrayDissocIs(t, shift, f.hash(key), key, f);
    var index := Branch(f.hash(key), shift);
    Split(n, t, index, e, F);
    var slots := n.shape.slots;
    if slots[index].HHole? { return n, false; }
    ghost var R := Below(n) - SlotFoot(slots[index], F);
    var kept;
    kept, removed := TNodeDissoc(slots[index].node, t.slots[index].node, shift + 5, key, f, e, F);
    if !removed { return n, false; }
    ghost var c := NodeDissoc(t.slots[index].node, shift + 5, f.hash(key), key, f).node;
    out := TArrayRefill(n, t, index, shift, kept, c, R, f, e, F);
  }

  method TArrayRefill<K(!new), V>(n: HNode<K, V>, ghost t: Node<K, V>, index: nat, ghost shift: nat,
      kept: HNode?<K, V>, ghost c: Option<Node<K, V>>, ghost R: set<object>, ghost f: Keys<K>, e: Edit,
      ghost F: set<object>) returns (out: HNode?<K, V>)
    requires n.edit == e && n !in F && SameHead(n.shape, t) && t.Array? && Valid(t, shift, f) && index < |t.slots| == 32
    requires LiveBut(n.shape.slots[..], t.slots, index, e, F, R) && n !in R && R !! F && e !in R
      && !t.slots[index].Hole?
    requires Held(n.shape) !in R && Held(n.shape) !in F && Held(n.shape) != e
    requires kept == null <==> c.None?
    requires kept != null ==>
      kept !in F && Live(kept, c.value, e, F) && kept.repr !! R && n !in kept.repr && Held(n.shape) !in kept.repr
    modifies n, Held(n.shape)
    ensures Dropped(out, true,
              if c.Some? then Dissoced(Some(Array(t.count, t.slots[index := Sub(c.value)])), true)
              else if t.count <= 9 then Dissoced(PackArray(t, index), true)
              else Dissoced(Some(Array(t.count - 1, t.slots[index := Hole])), true), e, F)
    ensures out != null ==> fresh(out.repr -
      ({n, old(Held(n.shape))} + R + (if kept == null then {} else old(kept.repr))))
  {
    hide Live, LiveBut, PackArray;
    var ArrayShape(count, slots) := n.shape;
    if kept == null {
      if count <= 9 {
        NoPairs(t, shift, f);
        out := NewPacked(n, t, index, R, e, F);
        if out != null { Own(out, PackArray(t, index).value, e, F); }
        return;
      }
      NoPairs(t, shift, f);
      SlotsUpdated(slots[..], t.slots, index, HHole, Hole, e, F, R);
      assert R + SlotFoot<K, V>(HHole, F) == R;
      WriteSlot(n, slots, index, HHole, ArrayShape(count - 1, slots), Array(t.count - 1, t.slots[index := Hole]), R,
          e, F);
    } else {
      SubReady(kept, c.value, e, F, R);
      SlotsUpdated(slots[..], t.slots, index, HSub(kept), Sub(c.value), e, F, R);
      WriteSlot(n, slots, index, HSub(kept), n.shape, Array(t.count, t.slots[index := Sub(c.value)]), R + kept.repr,
          e, F);
    }
    out := n;
  }

  lemma {:induction false} NoPairs<K, V>(t: Node<K, V>, shift: nat, f: Keys<K>)
    requires Valid(t, shift, f) && t.Array?
    ensures t.count == CountFull(t.slots) >= 9 && |t.slots| == 32 && forall b | 0 <= b < 32 :: !t.slots[b].Pair?
  {
    assert forall b | 0 <= b < 32 :: t.slots[b] == SlotAt(t, b);
  }

  method TCollisionDissoc<K(!new), V>(n: HNode<K, V>, ghost t: Node<K, V>, shift: nat, key: K, f: Keys<K>, e: Edit,
      ghost F: set<object>)
    returns (out: HNode?<K, V>, removed: bool)
    requires n.edit == e && n !in F && Live(n, t, e, F) && Valid(t, shift, f) && t.Collision?
    modifies n
    ensures Dropped(out, removed, NodeDissoc(t, shift, f.hash(key), key, f), e, F)
    ensures out != null ==> fresh(out.repr - old(n.repr))
    ensures !removed ==> unchanged(n)
  {
    hide Branch, SingletonAt;
    var CollisionShape(h, entries) := n.shape;
    if h != f.hash(key) { return n, false; }
    var at := FindEntry(entries, key, f);
    if at == entries.Length { return n, false; }
    if entries.Length == 1 { return null, true; }
    if entries.Length == 2 {
      var keep := if at == 0 then 1 else 0;
      out := NewSingleton(shift, h, entries[keep].0, entries[keep].1, e, F);
      Own(out, SingletonAt(shift, h, entries[keep].0, entries[keep].1), e, F);
      return out, true;
    }
    var fewer := RemoveSlot(entries, at);
    Rewrite(n, CollisionShape(h, fewer), Collision(h, RemoveAt(t.entries, at)), {}, e, F);
    return n, true;
  }

  // --------------------------------------------------------- the transient API

  /** A persistent map as it is in the heap. */
  datatype HMap<!K, V> = HMap(count: int, root: HNode?<K, V>, nullValue: Option<V>, keys: Keys<K>)

  /** `m` stands for the map value `v`, with no node outside `F`. */
  ghost predicate Stands<K, V>(m: HMap<K, V>, v: M.Map<K, V>, F: set<object>)
    reads F
  {
    && m.count == v.count && m.nullValue == v.nullValue && m.keys == v.keys
    && (m.root == null <==> v.root.None?)
    && (m.root != null ==> Frozen(m.root, v.root.value, F))
  }

  class Transient<K(!new), V> {
    const edit: Edit
    const keys: Keys<K>
    var count: int
    var root: HNode?<K, V>
    var nullValue: Option<V>
    /** The map value the builder stands for, and the nodes it started from. */
    ghost var value: M.Map<K, V>
    ghost const F: set<object>

    /** What an active builder may write. */
    ghost function Writable(): set<object>
      reads this, if root == null || root in F then {} else {root}
    {
      {this} + if root == null then {} else Foot(root, F)
    }

    ghost predicate Valid()
      reads this, edit, if root == null || root in F then {} else {root}, if root == null
        || root in F then {} else root.repr, F
    {
      && edit.active && edit !in F && this !in F
      && M.Sound(value)
      && count == value.count && nullValue == value.nullValue && keys == value.keys
      && (root == null <==> value.root.None?)
      && (root != null ==> Live(root, value.root.value, edit, F) && this !in Foot(root, F) && edit !in Foot(root, F))
    }

    constructor (m: HMap<K, V>, edit: Edit, ghost v: M.Map<K, V>, ghost F: set<object>)
      ensures this.edit == edit && keys == m.keys && count == m.count && root == m.root && nullValue == m.nullValue
      ensures value == v && this.F == F
    {
      this.edit := edit;
      keys, count, root, nullValue := m.keys, m.count, m.root, m.nullValue;
      value := v;
      this.F := F;
    }

    method Count() returns (trapped: bool, n: int)
      requires edit.active ==> Valid()
      ensures trapped <==> !edit.active
      ensures !trapped ==> n == value.count
    {
      if !edit.active { return true, 0; }
      return false, count;
    }

    method Get(key: Option<K>) returns (trapped: bool, r: Option<V>)
      requires edit.active ==> Valid()
      ensures trapped <==> !edit.active
      ensures !trapped ==> r == M.Get(value, key)
    {
      if !edit.active { return true, None; }
      trapped := false;
      match key
      case None => r := nullValue;
      case Some(k) =>
        if root == null { return false, None; }
        r := NodeGetAt(root, value.root.value, 0, keys.hash(k), k, keys, edit, F);
    }

    method Assoc(key: Option<K>, bound: V) returns (trapped: bool)
      requires edit.active ==> Valid()
      modifies if edit.active then Writable() else {}
      ensures edit.active == old(edit.active)
      ensures trapped <==> !edit.active || M.Assoc(old(value), key, bound).Trap?
      ensures edit.active ==> Valid() && fresh(Writable() - old(Writable()))
      ensures edit.active && trapped ==> value == old(value)
      ensures !trapped ==> M.Assoc(old(value), key, bound) == Done(value)
    {
      if !edit.active { return true; }
      M.AssocStep(value, key, bound);
      match key
      case None =>
        if nullValue.None? { count := M.AddI32(count, 1); }
        nullValue := Some(bound);
        value := M.Assoc(value, key, bound).value;
        trapped := false;
      case Some(k) =>
        if count == MAX_I32 { return true; }
        AssocKey(k, bound);
        trapped := false;
    }

    method AssocKey(k: K, bound: V)
      requires Valid() && count != MAX_I32
      modifies Writable()
      ensures Valid() && fresh(Writable() - old(Writable()))
      ensures M.Assoc(old(value), Some(k), bound) == Done(value)
    {
      hide Live, AssocOf, SingletonAt, M.Sound, M.Assoc, OnPath;
      M.AssocStep(value, Some(k), bound);
      M.SoundRoot(value);
      ghost var r := M.RootAssoc(value, k, bound);
      var next, added;
      if root == null {
        next := NewSingleton(0, keys.hash(k), k, bound, edit, F);
        Own(next, r.node, edit, F);
        added := 1;
      } else {
        next, added := TNodeAssoc(root, value.root.value, 0, k, bound, keys, edit, F);
      }
      LiveHead(next, r.node, edit, F);
      root := next;
      count := count + added;
      value := M.Assoc(value, Some(k), bound).value;
    }

    method Dissoc(key: Option<K>) returns (trapped: bool)
      requires edit.active ==> Valid()
      modifies if edit.active then Writable() else {}
      ensures edit.active == old(edit.active)
      ensures trapped <==> !edit.active
      ensures edit.active ==> Valid() && fresh(Writable() - old(Writable())) && value == M.Dissoc(old(value), key)
    {
      if !edit.active { return true; }
      trapped := false;
      M.DissocStep(value, key);
      match key
      case None =>
        if nullValue.Some? {
          nullValue := None;
          count := count - 1;
        }
        value := M.Dissoc(value, key);
      case Some(k) =>
        if root == null {
          value := M.Dissoc(value, key);
        } else {
          DissocKey(k);
        }
    }

    method DissocKey(k: K)
      requires Valid() && root != null
      modifies Writable()
      ensures Valid() && fresh(Writable() - old(Writable())) && value == M.Dissoc(old(value), Some(k))
    {
      hide Live, NodeDissoc, M.Sound, M.Dissoc;
      M.DissocStep(value, Some(k));
      M.SoundRoot(value);
      ghost var r := NodeDissoc(value.root.value, 0, keys.hash(k), k, keys);
      var next, removed := TNodeDissoc(root, value.root.value, 0, k, keys, edit, F);
      if next != null { LiveHead(next, r.node.value, edit, F); }
      root := next;
      if removed { count := count - 1; }
      value := M.Dissoc(value, Some(k));
    }

    /** Freezes what has been built. The builder is finished: its token is no
        longer active, so that every later operation traps. */
    method Persistent() returns (trapped: bool, m: Option<HMap<K, V>>, ghost F': set<object>)
      requires edit.active ==> Valid()
      modifies edit
      ensures trapped <==> !old(edit.active)
      ensures !edit.active
      ensures !trapped ==> F <= F' && m.Some? && Stands(m.value, old(value), F')
      ensures !trapped ==> F' == F + {edit} + old(Writable()) - {this}
    {
      if !edit.active { return true, None, {}; }
      F' := F + {edit} + Writable() - {this};
      edit.active := false;
      if root != null {
        assert Live(root, value.root.value, edit, F);
        Freeze(root, value.root.value, edit, F, F');
      }
      m := Some(HMap(count, root, nullValue, keys));
      trapped := false;
    }
  }

  // ----------------------------------------------------- between the two kinds

  /** Once its token is inactive, a builder's tree is frozen as it stands. */
  lemma {:induction false} Freeze<K, V>(n: HNode<K, V>, t: Node<K, V>, e: Edit, F: set<object>, F': set<object>)
    requires Live(n, t, e, F) && !e.active && F + Foot(n, F) + {e} <= F'
    ensures Frozen(n, t, F')
    decreases t
  {
    if n in F {
      FrozenGrows(n, t, F, F');
    } else if !t.Collision? {
      var slots := n.shape.slots[..];
      assert LiveBut(slots, t.slots, |t.slots|, e, F, Below(n));
      forall i | 0 <= i < |t.slots| ensures FrozenSlot(n.shape.slots[i], t.slots[i], F') {
        assert LiveSlot(slots[i], t.slots[i], e, F, Below(n));
        if t.slots[i].Sub? { Freeze(n.shape.slots[i].node, t.slots[i].node, e, F, F'); }
      }
    }
  }

  /** A frozen tree stays frozen when more is. */
  lemma {:induction false} FrozenGrows<K, V>(n: HNode<K, V>, t: Node<K, V>, F: set<object>, F': set<object>)
    requires Frozen(n, t, F) && F <= F'
    ensures Frozen(n, t, F')
    decreases t
  {
    if !t.Collision? {
      forall i | 0 <= i < |t.slots| ensures FrozenSlot(n.shape.slots[i], t.slots[i], F') {
        assert FrozenSlot(n.shape.slots[i], t.slots[i], F);
        if t.slots[i].Sub? { FrozenGrows(n.shape.slots[i].node, t.slots[i].node, F, F'); }
      }
    }
  }

  method AsTransient<K(!new), V>(m: HMap<K, V>, ghost v: M.Map<K, V>, ghost F: set<object>) returns (t: Transient<K, V>)
    requires Stands(m, v, F) && M.Sound(v)
    ensures fresh(t) && fresh(t.edit) && t.F == F && t.Valid() && t.Writable() == {t} && t.value == v
  {
    var owner := new Edit();
    t := new Transient(m, owner, v, F);
  }

  // --------------------------------------------------------------- whole runs

  method Apply<K(!new), V>(t: Transient<K, V>, op: M.Op<K, V>) returns (trapped: bool)
    requires t.Valid()
    modifies t.Writable()
    ensures t.Valid() && fresh(t.Writable() - old(t.Writable()))
    ensures match op
      case OpAssoc(key, bound) =>
        && (trapped <==> M.Assoc(old(t.value), key, bound).Trap?)
        && (!trapped ==> M.Assoc(old(t.value), key, bound) == Done(t.value))
      case OpDissoc(key) => !trapped && t.value == M.Dissoc(old(t.value), key)
  {
    match op
    case OpAssoc(key, bound) => trapped := t.Assoc(key, bound);
    case OpDissoc(key) => trapped := t.Dissoc(key);
  }

  /** A builder started from a persistent map and put through any run of operations
      freezes to what the same run of persistent operations builds, or traps where
      it would. Nothing that was frozen before is written. */
  method Build<K(!new), V>(m: HMap<K, V>, ops: seq<M.Op<K, V>>, ghost v: M.Map<K, V>, ghost F: set<object>)
    returns (r: Outcome<HMap<K, V>>, ghost F': set<object>)
    requires Stands(m, v, F) && M.ValidMap(v)
    ensures unchanged(F) && F <= F' && fresh(F' - F)
    ensures M.Run(v, ops).Trapped? ==> r.Trap?
    ensures M.Run(v, ops).Reached? ==> r.Done? && Stands(r.value, M.Run(v, ops).m, F')
  {
    hide Live, M.Sound, M.Size, M.Assoc, M.Dissoc;
    assert M.Sound(v) by { M.ValidIsSound(v); }
    var t := AsTransient(m, v, F);
    ghost var lost := false;
    for i := 0 to |ops|
      invariant t.Valid() && t.F == F && fresh(t.Writable()) && fresh(t.edit)
      invariant !lost ==> M.ValidMap(t.value) && M.Run(v, ops) == M.Run(t.value, ops[i..])
      invariant lost ==> M.Run(v, ops).Overflowed?
    {
      ghost var now := t.value;
      assert ops[i..][0] == ops[i] && ops[i..][1..] == ops[i + 1..];
      if !lost { M.RunStep(now, ops[i], ops[i + 1..]); }
      var trapped := Apply(t, ops[i]);
      if trapped { return Trap, F; }
      if !lost && ops[i].OpAssoc? && M.CountOverflows(now, ops[i].key) { lost := true; }
    }
    var _, frozen, F1 := t.Persistent();
    return Done(frozen.value), F1;
  }
}
