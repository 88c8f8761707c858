// The same vector in the heap: nodes and slot arrays that persistent vectors
// share, and the transient that writes in place what its edit token owns.
//
// A ghost set `F` names the frozen arrays, the ones persistent vectors may reach.
// No node of a frozen subtree carries a token that is still active, and
// everything here is proved with no object of `F` in any `modifies` clause.
module VectorHeap {
  import opened Arithmetic
  import opened Outcomes
  import opened Ownership
  import V = TrieVector

  /** What a slot can hold: null, an element, or (above the leaves) a node. */
  datatype Eq<T> = Null | Obj(value: T) | Ref(node: TrieNode<T>)

  class TrieNode<T> {
    const edit: Edit?
    const slots: array<Eq<T>>
    /** The objects owned by the same token from here down. */
    ghost var repr: set<object>

    constructor (edit: Edit?, slots: array<Eq<T>>)
      ensures this.edit == edit && this.slots == slots && repr == {this, slots}
    {
      this.edit := edit;
      this.slots := slots;
      repr := {this, slots};
    }
  }

  // ---------------------------------------------------------- frozen subtrees

  ghost predicate Frozen<T>(n: TrieNode<T>, level: nat, F: set<object>)
    reads F
    decreases level
  {
    && (n.edit != null ==> n.edit in F && !n.edit.active)
    && n.slots in F && n.slots.Length == 32
    && (level >= 5 ==> forall i | 0 <= i < 32 :: FrozenSlot(n.slots[i], level, F))
  }

  ghost predicate FrozenSlot<T>(x: Eq<T>, level: nat, F: set<object>)
    requires level >= 5
    reads F
    decreases level, 0
  {
    x.Null? || (x.Ref? && Frozen(x.node, level - 5, F))
  }

  ghost function FrozenTree<T>(n: TrieNode<T>, level: nat, F: set<object>): (t: V.Tree<Eq<T>>)
    requires Frozen(n, level, F)
    reads F
    ensures t.Leaf? <==> level < 5
    ensures level < 5 ==> t.slots == n.slots[..]
    ensures level >= 5 ==> |t.kids| == 32
    ensures level >= 5 ==> forall i | 0 <= i < 32 :: t.kids[i] == FrozenKid(n.slots[i], level, F)
    decreases level
  {
    if level < 5 then V.Leaf(n.slots[..])
    else V.Branch(seq(32, i requires 0 <= i < 32
        && FrozenSlot(n.slots[i], level, F) reads F, n.slots => FrozenKid(n.slots[i], level, F)))
  }

  ghost function FrozenKid<T>(x: Eq<T>, level: nat, F: set<object>): V.Kid<Eq<T>>
    requires level >= 5 && FrozenSlot(x, level, F)
    reads F
    decreases level, 0
  {
    if x.Null? then V.Hole else V.Sub(FrozenTree(x.node, level - 5, F))
  }

  // ------------------------------------------------------ a transient's trees

  ghost function Foot<T>(n: TrieNode<T>, e: Edit): set<object>
    reads if n.edit == e then {n} else {}
  {
    if n.edit == e then {n} + n.repr else {}
  }

  /** A well-formed tree whose nodes with token `e` form a tree of their own,
      with no object in common with the frozen ones. */
  ghost predicate Live<T>(n: TrieNode<T>, level: nat, e: Edit, F: set<object>)
    reads if n.edit == e then {n} else {}, if n.edit == e then n.repr else {}, F
    decreases level
  {
    if n.edit != e then Frozen(n, level, F)
    else
      && n in n.repr && n.slots in n.repr && n.slots.Length == 32
      && n.repr !! F && e !in n.repr
      && (level >= 5 ==> LiveBut(n, 32, level, e, F, n.repr - {n, n.slots}))
  }

  /** The slots of `n` other than `s` hold live subtrees made of the objects of
      `R` and frozen ones, and no two of them share an owned object. */
  ghost predicate LiveBut<T>(n: TrieNode<T>, s: nat, level: nat, e: Edit, F: set<object>, R: set<object>)
    requires level >= 5 && n.slots.Length == 32
    reads n.slots, R, F
    decreases level, 1
  {
    && (forall i | 0 <= i < 32 && i != s :: LiveSlot(n.slots[i], level, e, F, R))
    && (forall i, j | 0 <= i < j < 32 && i != s && j != s :: Apart(n.slots[i], n.slots[j], e, R))
  }

  ghost predicate LiveSlot<T>(x: Eq<T>, level: nat, e: Edit, F: set<object>, R: set<object>)
    requires level >= 5
    reads R, F
    decreases level, 0
  {
    x.Null? ||
    (x.Ref? && if x.node.edit == e
               then x.node in R && x.node.repr <= R && Live(x.node, level - 5, e, F)
               else Frozen(x.node, level - 5, F))
  }

  ghost predicate Apart<T>(x: Eq<T>, y: Eq<T>, e: Edit, R: set<object>)
    reads R
  {
    x.Ref? && y.Ref? && x.node.edit == e && y.node.edit == e && x.node in R && y.node in R ==>
      x.node.repr !! y.node.repr
  }

  ghost function LiveTree<T>(n: TrieNode<T>, level: nat, e: Edit, F: set<object>): (t: V.Tree<Eq<T>>)
    requires Live(n, level, e, F)
    reads if n.edit == e then {n} else {}, if n.edit == e then n.repr else {}, F
    ensures t.Leaf? <==> level < 5
    decreases level
  {
    if n.edit != e then FrozenTree(n, level, F)
    else if level < 5 then V.Leaf(n.slots[..])
    else V.Branch(KidsBut(n, 32, level, e, F, n.repr - {n, n.slots}))
  }

  /** The kids of `n`, taking the one in slot `s` for null. */
  ghost function KidsBut<T>(n: TrieNode<T>, s: nat, level: nat, e: Edit, F: set<object>,
      R: set<object>): (kids: seq<V.Kid<Eq<T>>>)
    requires level >= 5 && n.slots.Length == 32 && LiveBut(n, s, level, e, F, R)
    reads n.slots, R, F
    ensures |kids| == 32
    ensures forall i | 0 <= i < 32 && i != s :: kids[i] == LiveKid(n.slots[i], level, e, F, R)
    ensures s < 32 ==> kids[s] == V.Hole
    decreases level, 1
  {
    seq(32, i requires 0 <= i < 32 && (i != s ==> LiveSlot(n.slots[i], level, e, F, R)) reads n.slots, R, F
            => if i == s then V.Hole else LiveKid(n.slots[i], level, e, F, R))
  }

  ghost function LiveKid<T>(x: Eq<T>, level: nat, e: Edit, F: set<object>, R: set<object>): V.Kid<Eq<T>>
    requires level >= 5 && LiveSlot(x, level, e, F, R)
    reads R, F
    decreases level, 0
  {
    if x.Null? then V.Hole else V.Sub(LiveTree(x.node, level - 5, e, F))
  }

  lemma KidIn<T>(n: TrieNode<T>, s: nat, level: nat, e: Edit, F: set<object>)
    requires level >= 5 && s < 32 && n.edit == e && Live(n, level, e, F)
    ensures n.slots.Length == 32 && (n.slots[s].Null? <==> LiveTree(n, level, e, F).kids[s].Hole?)
    ensures n.slots[s].Ref? <==> LiveTree(n, level, e, F).kids[s].Sub?
  {
    assert LiveSlot(n.slots[s], level, e, F, n.repr - {n, n.slots});
  }

  /** What a node owns beside itself and the subtree in slot `s`. */
  ghost function RestOf<T>(n: TrieNode<T>, s: nat, e: Edit): set<object>
    requires s < n.slots.Length
    reads n, n.slots
    reads if n.slots[s].Ref? && n.slots[s].node.edit == e then {n.slots[s].node} else {}
  {
    n.repr - {n, n.slots} - if n.slots[s].Ref? then Foot(n.slots[s].node, e) else {}
  }

  /** The subtree in slot `s` and the rest of the node can be told apart. */
  lemma Split<T>(n: TrieNode<T>, s: nat, level: nat, e: Edit, F: set<object>)
    requires level >= 5 && s < 32 && n.edit == e && Live(n, level, e, F)
    ensures n in n.repr && n.slots in n.repr && n.slots.Length == 32 && n.repr !! F && e !in n.repr
    ensures n.slots[s].Ref? ==>
      var d := n.slots[s].node;
      && Live(d, level - 5, e, F)
      && Foot(d, e) <= n.repr - {n, n.slots}
      && LiveTree(n, level, e, F).kids[s] == V.Sub(LiveTree(d, level - 5, e, F))
    ensures LiveBut(n, s, level, e, F, RestOf(n, s, e))
    ensures KidsBut(n, s, level, e, F, RestOf(n, s, e)) == LiveTree(n, level, e, F).kids[s := V.Hole]
  {
    var R0, R := n.repr - {n, n.slots}, RestOf(n, s, e);
    assert LiveSlot(n.slots[s], level, e, F, R0);
    if n.slots[s].Ref? { assert Live(n.slots[s].node, level - 5, e, F); }
    forall i | 0 <= i < 32 && i != s
      ensures LiveSlot(n.slots[i], level, e, F, R)
      ensures LiveKid(n.slots[i], level, e, F, R) == LiveKid(n.slots[i], level, e, F, R0)
    {
      assert LiveSlot(n.slots[i], level, e, F, R0);
      assert Apart(n.slots[i], n.slots[s], e, R0);
      assert Apart(n.slots[s], n.slots[i], e, R0);
      if n.slots[i].Ref? { assert Live(n.slots[i].node, level - 5, e, F); }
    }
    forall i, j | 0 <= i < j < 32 && i != s && j != s ensures Apart(n.slots[i], n.slots[j], e, R) {
      assert Apart(n.slots[i], n.slots[j], e, R0);
    }
  }

  // ------------------------------------------------------------ node operations

  method CopySlots<T>(src: array<Eq<T>>, length: nat) returns (dst: array<Eq<T>>)
    ensures fresh(dst) && dst.Length == length
    ensures forall i | 0 <= i < length :: dst[i] == if i < src.Length then src[i] else Null
  {
    dst := new Eq<T>[length](i requires 0 <= i reads src => if i < src.Length then src[i] else Null);
  }

  method EnsureNode<T>(n: TrieNode<T>, level: nat, e: Edit, ghost F: set<object>) returns (out: TrieNode<T>)
    requires e.active && Live(n, level, e, F)
    ensures out.edit == e && Live(out, level, e, F) && LiveTree(out, level, e, F) == LiveTree(n, level, e, F)
    ensures n.edit == e ==> out == n
    ensures n.edit != e ==> fresh(out) && fresh(out.repr)
  {
    if n.edit == e {
      out := n;
    } else {
      var slots := CopySlots(n.slots, 32);
      out := new TrieNode(e, slots);
      assert slots[..] == n.slots[..];
      if level >= 5 {
        forall i | 0 <= i < 32
          ensures LiveSlot(out.slots[i], level, e, F, {})
          ensures LiveKid(out.slots[i], level, e, F, {}) == FrozenKid(n.slots[i], level, F)
        {
          assert FrozenSlot(n.slots[i], level, F) && out.slots[i] == n.slots[i];
          if out.slots[i].Ref? { assert Frozen(out.slots[i].node, level - 5, F); }
        }
        assert out.repr - {out, out.slots} == {};
        assert LiveTree(out, level, e, F).kids == FrozenTree(n, level, F).kids;
      }
    }
  }

  /** Fills slot `s`, with null or with a node that shares no owned object with
      the rest of `n`. */
  method SetSlot<T>(n: TrieNode<T>, s: nat, x: Eq<T>, level: nat, e: Edit, ghost F: set<object>, ghost R: set<object>)
    requires s < 32 && level >= 5 && n.edit == e && n.slots.Length == 32 && LiveBut(n, s, level, e, F, R)
    requires n !in R && n.slots !in R && e !in R && (R + {n, n.slots}) !! F
    requires x.Null? || (x.Ref? && Live(x.node, level - 5, e, F)
               && Foot(x.node, e) !! R && n !in Foot(x.node, e) && n.slots !in Foot(x.node, e))
    modifies n, n.slots
    ensures Live(n, level, e, F) && n.repr == {n, n.slots} + R + (if x.Ref? then old(Foot(x.node, e)) else {})
    ensures x.Ref? ==>
      && Live(x.node, level - 5, e, F)
      && LiveTree(x.node, level - 5, e, F) == old(LiveTree(x.node, level - 5, e, F))
    ensures x.Ref? ==> Foot(x.node, e) == old(Foot(x.node, e))
    ensures forall i | 0 <= i < 32 && i != s :: n.slots[i] == old(n.slots[i])
    ensures LiveTree(n, level, e, F) ==
      V.Branch(old(KidsBut(n, s, level, e, F, R))[s := if x.Null? then V.Hole
          else V.Sub(old(LiveTree(x.node, level - 5, e, F)))])
  {
    ghost var kids := KidsBut(n, s, level, e, F, R);
    n.slots[s] := x;
    n.repr := {n, n.slots} + R + if x.Ref? then Foot(x.node, e) else {};
    ghost var R' := n.repr - {n, n.slots};
    forall i | 0 <= i < 32 && i != s
      ensures LiveSlot(n.slots[i], level, e, F, R')
      ensures LiveKid(n.slots[i], level, e, F, R') == kids[i]
    {
      assert old(LiveSlot(n.slots[i], level, e, F, R));
      assert LiveSlot(n.slots[i], level, e, F, R);
    }
    assert LiveSlot(n.slots[s], level, e, F, R');
    forall i, j | 0 <= i < j < 32 ensures Apart(n.slots[i], n.slots[j], e, R') {
      if i != s { assert LiveSlot(n.slots[i], level, e, F, R); }
      if j != s { assert LiveSlot(n.slots[j], level, e, F, R); }
      if i != s && j != s { assert old(Apart(n.slots[i], n.slots[j], e, R)); }
    }
  }

  /** Hangs a node that shares no owned object with `n` from an empty slot. */
  method FillSlot<T>(n: TrieNode<T>, s: nat, child: TrieNode<T>, level: nat, e: Edit, ghost F: set<object>)
    requires s < 32 && level >= 5 && n.edit == e && Live(n, level, e, F) && n.slots[s].Null?
    requires Live(child, level - 5, e, F) && Foot(child, e) !! n.repr && e !in Foot(child, e)
    modifies n, n.slots
    ensures Live(n, level, e, F) && n.repr == old(n.repr) + Foot(child, e)
    ensures Foot(child, e) == old(Foot(child, e))
    ensures Live(child, level - 5, e, F) && LiveTree(child, level - 5, e, F) == old(LiveTree(child, level - 5, e, F))
    ensures LiveTree(n, level, e, F) ==
      V.Branch(old(LiveTree(n, level, e, F)).kids[s := V.Sub(old(LiveTree(child, level - 5, e, F)))])
    ensures forall i | 0 <= i < 32 && i != s :: n.slots[i] == old(n.slots[i])
  {
    ghost var kids, kid := LiveTree(n, level, e, F).kids, V.Sub(LiveTree(child, level - 5, e, F));
    Split(n, s, level, e, F);
    assert kids[s := V.Hole][s := kid] == kids[s := kid];
    SetSlot(n, s, Ref(child), level, e, F, RestOf(n, s, e));
  }

  method SetElement<T>(n: TrieNode<T>, i: nat, value: Eq<T>, e: Edit, ghost F: set<object>)
    requires i < 32 && n.edit == e && Live(n, 0, e, F)
    modifies n.slots
    ensures Live(n, 0, e, F) && n.repr == old(n.repr)
    ensures LiveTree(n, 0, e, F) == V.Leaf(old(LiveTree(n, 0, e, F)).slots[i := value])
  {
    n.slots[i] := value;
    assert n.slots[..] == old(n.slots[..])[i := value];
  }

  method TDoAssoc<T>(level: nat, n: TrieNode<T>, index: nat, value: Eq<T>, e: Edit, ghost F: set<object>)
    returns (out: TrieNode<T>)
    requires e.active && Live(n, level, e, F) && V.Reaches(level, LiveTree(n, level, e, F), index)
    modifies Foot(n, e)
    ensures out.edit == e && Live(out, level, e, F) && fresh(out.repr - old(Foot(n, e)))
    ensures LiveTree(out, level, e, F) == V.DoAssoc(level, old(LiveTree(n, level, e, F)), index, value)
    decreases level, 1
  {
    out := EnsureNode(n, level, e, F);
    if level == 0 {
      SetElement(out, index % 32, value, e, F);
    } else {
      TDoAssocBelow(level, out, index, value, e, F);
    }
  }

  /** The step below an owned node. */
  method TDoAssocBelow<T>(level: nat, out: TrieNode<T>, index: nat, value: Eq<T>, e: Edit, ghost F: set<object>)
    requires level > 0 && e.active && out.edit == e && Live(out, level, e, F)
    requires V.Reaches(level, LiveTree(out, level, e, F), index)
    modifies out.repr
    ensures Live(out, level, e, F) && fresh(out.repr - old(out.repr))
    ensures LiveTree(out, level, e, F) == V.DoAssoc(level, old(LiveTree(out, level, e, F)), index, value)
    decreases level, 0
  {
    hide Live, LiveTree, LiveBut, KidsBut, Frozen, FrozenTree;
    var s := V.SubIndex(index, level);
    KidIn(out, s, level, e, F);
    Split(out, s, level, e, F);
    var d := out.slots[s].node;
    ghost var tree, R := LiveTree(out, level, e, F), RestOf(out, s, e);
    var child := TDoAssoc(level - 5, d, index, value, e, F);
    ghost var kid' := V.Sub(LiveTree(child, level - 5, e, F));
    assert KidsBut(out, s, level, e, F, R) == tree.kids[s := V.Hole];
    SetSlot(out, s, Ref(child), level, e, F, R);
    assert tree.kids[s := V.Hole][s := kid'] == tree.kids[s := kid'];
  }

  method NodeNew<T>(e: Edit, ghost level: nat, ghost F: set<object>) returns (n: TrieNode<T>)
    requires level >= 5 && e !in F
    ensures n.edit == e && fresh(n) && fresh(n.slots) && n.repr == {n, n.slots}
    ensures Live(n, level, e, F) && LiveTree(n, level, e, F) == V.Branch(V.NoKids())
    ensures forall i | 0 <= i < 32 :: n.slots[i].Null?
  {
    var slots := new Eq<T>[32](_ => Null);
    n := new TrieNode(e, slots);
    assert LiveTree(n, level, e, F).kids == V.NoKids();
  }

  /** A slot array as it stands becomes a leaf. */
  method NewLeaf<T>(e: Edit, slots: array<Eq<T>>, ghost F: set<object>) returns (leaf: TrieNode<T>)
    requires slots.Length == 32 && slots !in F && e !in F
    ensures leaf.edit == e && fresh(leaf) && leaf.repr == {leaf, slots}
    ensures Live(leaf, 0, e, F) && LiveTree(leaf, 0, e, F) == V.Leaf(slots[..])
  {
    leaf := new TrieNode(e, slots);
  }

  method TNewPath<T>(level: nat, n: TrieNode<T>, e: Edit, ghost F: set<object>) returns (out: TrieNode<T>)
    requires V.IsLevel(level) && e !in F && n.edit == e && Live(n, 0, e, F)
    ensures out.edit == e && Live(out, level, e, F) && fresh(out.repr - n.repr)
    ensures out in out.repr && e !in out.repr
    ensures LiveTree(out, level, e, F) == V.NewPath(level, LiveTree(n, 0, e, F))
  {
    hide LiveTree, FrozenTree;
    if level == 0 {
      out := n;
    } else {
      out := NodeNew(e, level, F);
      var child := TNewPath(level - 5, n, e, F);
      FillSlot(out, 0, child, level, e, F);
    }
  }

  method TPushTail<T>(level: nat, parent: TrieNode<T>, leaf: TrieNode<T>, index: nat, e: Edit, ghost F: set<object>)
    returns (out: TrieNode<T>)
    requires e.active && e !in F && V.IsLevel(level) && Live(parent, level, e, F)
    requires V.Room(level, LiveTree(parent, level, e, F), index)
    requires leaf.edit == e && Live(leaf, 0, e, F) && leaf.repr !! Foot(parent, e)
    modifies Foot(parent, e)
    ensures out.edit == e && Live(out, level, e, F) && fresh(out.repr - old(Foot(parent, e)) - leaf.repr)
    ensures LiveTree(out, level, e, F) ==
              V.PushTail(level, old(LiveTree(parent, level, e, F)), old(LiveTree(leaf, 0, e, F)), index)
    decreases level, 1
  {
    out := EnsureNode(parent, level, e, F);
    TPushTailBelow(level, out, leaf, index, e, F);
  }

  method TPushTailBelow<T>(level: nat, out: TrieNode<T>, leaf: TrieNode<T>, index: nat, e: Edit, ghost F: set<object>)
    requires e.active && e !in F && V.IsLevel(level) && out.edit == e && Live(out, level, e, F)
    requires V.Room(level, LiveTree(out, level, e, F), index)
    requires leaf.edit == e && Live(leaf, 0, e, F) && leaf.repr !! out.repr
    modifies out.repr
    ensures Live(out, level, e, F) && fresh(out.repr - old(out.repr) - leaf.repr)
    ensures LiveTree(out, level, e, F) ==
              V.PushTail(level, old(LiveTree(out, level, e, F)), old(LiveTree(leaf, 0, e, F)), index)
    decreases level, 0
  {
    hide LiveTree, LiveBut, KidsBut, FrozenTree;
    var s := V.SubIndex(index, level);
    KidIn(out, s, level, e, F);
    Split(out, s, level, e, F);
    ghost var tree, R := LiveTree(out, level, e, F), RestOf(out, s, e);
    var child: TrieNode<T>;
    if level == 5 {
      child := leaf;
    } else if out.slots[s].Null? {
      child := TNewPath(level - 5, leaf, e, F);
    } else {
      child := TPushTail(level - 5, out.slots[s].node, leaf, index, e, F);
    }
    ghost var kid' := V.Sub(LiveTree(child, level - 5, e, F));
    assert KidsBut(out, s, level, e, F, R) == tree.kids[s := V.Hole];
    SetSlot(out, s, Ref(child), level, e, F, R);
    assert tree.kids[s := V.Hole][s := kid'] == tree.kids[s := kid'];
  }

  method TPopTail<T>(level: nat, n: TrieNode<T>, index: nat, e: Edit, ghost F: set<object>) returns (out: TrieNode?<T>)
    requires e.active && level >= 5 && Live(n, level, e, F) && V.Reaches(level, LiveTree(n, level, e, F), index)
    modifies Foot(n, e)
    ensures out == null <==> V.PopTail(level, old(LiveTree(n, level, e, F)), index) == V.Hole
    ensures out != null ==> out.edit == e && Live(out, level, e, F) && fresh(out.repr - old(Foot(n, e)))
    ensures out != null ==>
      V.Sub(LiveTree(out, level, e, F)) == V.PopTail(level, old(LiveTree(n, level, e, F)), index)
    decreases level, 1
  {
    var owned := EnsureNode(n, level, e, F);
    var kept := TPopTailBelow(level, owned, index, e, F);
    out := if kept then owned else null;
  }

  method TPopTailBelow<T>(level: nat, out: TrieNode<T>, index: nat, e: Edit, ghost F: set<object>) returns (kept: bool)
    requires e.active && level >= 5 && out.edit == e && Live(out, level, e, F)
    requires V.Reaches(level, LiveTree(out, level, e, F), index)
    modifies out.repr
    ensures kept <==> V.PopTail(level, old(LiveTree(out, level, e, F)), index) != V.Hole
    ensures kept ==> Live(out, level, e, F) && fresh(out.repr - old(out.repr))
    ensures kept ==>
      V.Sub(LiveTree(out, level, e, F)) == V.PopTail(level, old(LiveTree(out, level, e, F)), index)
    decreases level, 0
  {
    hide Live, LiveTree, LiveBut, KidsBut, Frozen, FrozenTree;
    var s := V.SubIndex(index, level);
    KidIn(out, s, level, e, F);
    Split(out, s, level, e, F);
    ghost var tree, R := LiveTree(out, level, e, F), RestOf(out, s, e);
    assert V.Reaches(level - 5, tree.kids[s].tree, index);
    var child: TrieNode?<T> := null;
    if level > 5 {
      child := TPopTail(level - 5, out.slots[s].node, index, e, F);
    }
    if child == null && s == 0 {
      return false;
    }
    ghost var kid' := if child == null then V.Hole else V.Sub(LiveTree(child, level - 5, e, F));
    assert KidsBut(out, s, level, e, F, R) == tree.kids[s := V.Hole];
    SetSlot(out, s, if child == null then Null else Ref(child), level, e, F, R);
    assert tree.kids[s := V.Hole][s := kid'] == tree.kids[s := kid'];
    kept := true;
  }

  // --------------------------------------------------------- the transient API

  class Transient<T> {
    const edit: Edit
    var count: nat
    var shift: nat
    var root: TrieNode<T>
    /** Always 32 wide; `tailCount` says how much of it is live. */
    var tail: array<Eq<T>>
    var tailCount: nat
    /** The frozen objects this builder started from. */
    ghost const F: set<object>

    /** What an active builder may write. */
    ghost function Writable(): set<object>
      reads this, if root.edit == edit then {root} else {}
    {
      {this, tail} + Foot(root, edit)
    }

    ghost predicate Valid()
      reads this, edit, tail, if root.edit == edit then {root} else {}, if root.edit == edit then root.repr else {}, F
    {
      && edit.active && edit !in F && tail !in F && this !in F
      && tail.Length == 32 && tailCount <= 32
      && this !in Foot(root, edit) && tail !in Foot(root, edit) && edit !in Foot(root, edit)
      && Live(root, shift, edit, F)
      && V.Valid(Value())
    }

    /** The vector value the builder stands for. */
    ghost function Value(): V.Vector<Eq<T>>
      requires tail.Length == 32 && tailCount <= 32 && Live(root, shift, edit, F)
      reads this, tail, if root.edit == edit then {root} else {}, if root.edit == edit then root.repr else {}, F
    {
      V.Vector(count, shift, LiveTree(root, shift, edit, F), tail[..tailCount])
    }

    constructor (ghost F: set<object>, edit: Edit, count: nat, shift: nat, root: TrieNode<T>, tail: array<Eq<T>>,
        tailCount: nat)
      ensures this.F == F && this.edit == edit && this.count == count && this.shift == shift
      ensures this.root == root && this.tail == tail && this.tailCount == tailCount
    {
      this.F := F;
      this.edit := edit;
      this.count := count;
      this.shift := shift;
      this.root := root;
      this.tail := tail;
      this.tailCount := tailCount;
    }

    method Push(value: Eq<T>) returns (trapped: bool)
      requires edit.active ==> Valid()
      modifies if edit.active then Writable() else {}
      ensures edit.active == old(edit.active)
      ensures trapped <==> !edit.active || old(count) == MAX_I32
      ensures edit.active ==> Valid() && fresh(Writable() - old(Writable()))
      ensures edit.active && trapped ==> Value() == old(Value())
      ensures !trapped ==> V.Push(old(Value()), value) == Done(Value())
    {
      hide Live, LiveTree;
      if !edit.active { return true; }
      if count == MAX_I32 { return true; }
      if tailCount < 32 {
        tail[tailCount] := value;
        tailCount := tailCount + 1;
        count := count + 1;
        assert tail[..tailCount] == old(tail[..tailCount]) + [value];
        return false;
      }
      if Shr(count, 5) > Pow2(shift) {
        GrowWithTail(value);
      } else {
        PushWithTail(value);
      }
      trapped := false;
    }

    /** The tail array itself becomes a leaf, under a new root. */
    method GrowWithTail(value: Eq<T>)
      requires Valid() && tailCount == 32 && count < MAX_I32 && Shr(count, 5) > Pow2(shift)
      modifies Writable()
      ensures Valid() && fresh(Writable() - old(Writable()))
      ensures V.Push(old(Value()), value) == Done(Value())
    {
      hide V.GrownRoot, V.Valid, V.NewPath, Live, LiveTree, V.PushTail;
      ghost var before, after := Value(), V.Push(Value(), value).value;
      assert before.tail == tail[..];
      V.GrowRoot(before, value);
      assert after == V.Vector(count + 1, shift + 5, V.GrownRoot(shift, before.root, V.Leaf(before.tail)), [value]);
      var leaf := NewLeaf(edit, tail, F);
      var next := TGrow(shift, root, leaf, edit, F);
      assert LiveTree(next, shift + 5, edit, F) == after.root;
      StartTail(next, shift + 5, value);
    }

    /** The tail array itself becomes a leaf, in the room the trie has. */
    method PushWithTail(value: Eq<T>)
      requires Valid() && tailCount == 32 && count < MAX_I32 && Shr(count, 5) <= Pow2(shift)
      modifies Writable()
      ensures Valid() && fresh(Writable() - old(Writable()))
      ensures V.Push(old(Value()), value) == Done(Value())
    {
      hide V.Valid, V.PushTail, Live, LiveTree;
      ghost var before, after := Value(), V.Push(Value(), value).value;
      assert before.tail == tail[..];
      V.PushLeaf(before, value);
      assert after == V.Vector(count + 1, shift, V.PushTail(shift, before.root, V.Leaf(before.tail), count - 1),
        [value]);
      var leaf := NewLeaf(edit, tail, F);
      var next := TPushTail(shift, root, leaf, count - 1, edit, F);
      assert LiveTree(next, shift, edit, F) == after.root;
      StartTail(next, shift, value);
    }

    method StartTail(newRoot: TrieNode<T>, newShift: nat, value: Eq<T>)
      requires edit.active && edit !in F && this !in F && count < MAX_I32
      requires newRoot.edit == edit && Live(newRoot, newShift, edit, F) && this !in newRoot.repr
      requires V.Valid(V.Vector(count + 1, newShift, LiveTree(newRoot, newShift, edit, F), [value]))
      modifies this
      ensures root == newRoot && shift == newShift && count == old(count) + 1 && fresh(tail) && tailCount == 1
      ensures Valid() && Value() == V.Vector(old(count) + 1, newShift, old(LiveTree(newRoot, newShift, edit, F)),
        [value])
    {
      hide V.Valid, LiveTree;
      root, shift := newRoot, newShift;
      tail := new Eq<T>[32](i => if i == 0 then value else Null);
      tailCount := 1;
      count := count + 1;
      assert tail[..1] == [value];
    }

    /** Freezes what has been built. The builder is finished: its token is no
        longer active, so that every later operation traps. */
    method Persistent() returns (trapped: bool, v: Option<Vec<T>>, ghost F': set<object>)
      requires edit.active ==> Valid()
      modifies edit
      ensures trapped <==> !old(edit.active)
      ensures !edit.active
      ensures !trapped ==> F <= F' && v.Some? && FrozenVec(v.value, F') && VecValue(v.value, F') == old(Value())
      ensures !trapped ==> fresh(F' - F - old(Foot(root, edit)) - {edit})
    {
      if !edit.active { return true, None, {}; }
      ghost var before := Value();
      var copy := CopySlots(tail, tailCount);
      assert copy[..] == tail[..tailCount];
      F' := F + Foot(root, edit) + {edit, copy};
      edit.active := false;
      assert Live(root, shift, edit, F) && LiveTree(root, shift, edit, F) == before.root;
      FreezeTree(root, shift, edit, F, F');
      v := Some(Vec(count, shift, root, copy));
      trapped := false;
    }

    method Get(index: int) returns (trapped: bool, r: Option<Eq<T>>)
      requires edit.active ==> Valid()
      ensures trapped <==> !edit.active
      ensures !trapped ==> r == V.Get(Value(), index)
    {
      if !edit.active { return true, None; }
      ghost var v := Value();
      V.ViewSize(v);
      if index < 0 || index >= count { return false, None; }
      V.ArrayForView(v, index);
      V.TailOffsetIs(v);
      if index >= V.TailOffset(count) {
        return false, Some(tail[index % 32]);
      }
      V.InTrie(v, index);
      var slots := ArrayAt(shift, root, index, edit, F);
      return false, Some(slots[index % 32]);
    }

    method Assoc(index: int, value: Eq<T>) returns (trapped: bool)
      requires edit.active ==> Valid()
      modifies if edit.active then Writable() else {}
      ensures edit.active == old(edit.active)
      ensures trapped <==> !edit.active || old(V.Assoc(Value(), index, value)).Trap?
      ensures edit.active ==> Valid() && fresh(Writable() - old(Writable()))
      ensures edit.active && trapped ==> Value() == old(Value())
      ensures !trapped ==> V.Assoc(old(Value()), index, value) == Done(Value())
    {
      hide V.Valid, Live, LiveTree;
      if !edit.active { return true; }
      if index == count {
        trapped := Push(value);
        return;
      }
      if index < 0 || index >= count { return true; }
      V.TailOffsetIs(Value());
      if index >= V.TailOffset(count) {
        SetInTail(index, value);
      } else {
        SetInTrie(index, value);
      }
      return false;
    }

    method SetInTail(index: nat, value: Eq<T>)
      requires Valid() && V.TailOffset(count) <= index < count
      modifies tail
      ensures Valid() && V.Assoc(old(Value()), index, value) == Done(Value())
    {
      hide Live, LiveTree;
      ghost var v := Value();
      V.TailOffsetIs(v);
      V.TailDigit(v, index);
      tail[index % 32] := value;
      assert tail[..tailCount] == v.tail[index % 32 := value];
      assert Value() == v.(tail := v.tail[index % 32 := value]);
      assert v.tail[index % 32] == value ==> Value() == v;
    }

    method SetInTrie(index: nat, value: Eq<T>)
      requires Valid() && index < V.TailOffset(count) && index < count
      modifies this, Foot(root, edit)
      ensures Valid() && fresh(Writable() - old(Writable()))
      ensures V.Assoc(old(Value()), index, value) == Done(Value())
    {
      ghost var v := Value();
      ghost var after := V.Assoc(v, index, value).value;
      V.TailOffsetIs(v);
      V.InTrie(v, index);
      root := TDoAssoc(shift, root, index, value, edit, F);
      assert Value() == after;
    }

    method Pop() returns (trapped: bool)
      requires edit.active ==> Valid()
      modifies if edit.active then Writable() else {}
      ensures edit.active == old(edit.active)
      ensures trapped <==> !edit.active || old(count) == 0
      ensures edit.active ==> Valid() && fresh(Writable() - old(Writable()))
      ensures edit.active && trapped ==> Value() == old(Value())
      ensures !trapped ==> V.Pop(old(Value())) == Done(Value())
    {
      hide Live;
      if !edit.active { return true; }
      ghost var v := Value();
      if count == 0 { return true; }
      if count == 1 {
        PopLastElement();
      } else if tailCount > 1 {
        tailCount := tailCount - 1;
        tail[tailCount] := Null;
        count := count - 1;
        assert tail[..tailCount] == v.tail[..|v.tail| - 1];
        assert Value() == V.Pop(v).value;
      } else {
        PopLastLeaf();
      }
      return false;
    }

    method PopLastElement()
      requires Valid() && count == 1
      modifies this, tail
      ensures Valid() && fresh(Writable() - old(Writable())) && V.Pop(old(Value())) == Done(Value())
    {
      hide Live, LiveTree;
      EmptyTrie(Value());
      V.EmptyIsValid<Eq<T>>();
      count := 0;
      tail[0] := Null;
      tailCount := 0;
      assert tail[..0] == [];
      assert Value() == V.Empty();
    }

    /** The last leaf is copied out to be the tail, and dropped from the trie. */
    method PopLastLeaf()
      requires Valid() && count > 1 && tailCount == 1
      modifies this, Foot(root, edit)
      ensures Valid() && fresh(Writable() - old(Writable())) && V.Pop(old(Value())) == Done(Value())
    {
      hide V.Valid, V.Packed, V.Pop, V.Collapsed, Live, LiveTree, V.RootOf, V.PopTail, V.LeafFor, V.Reaches;
      ghost var v := Value();
      V.PopLeafPlan(v);
      ghost var r, leaf := V.RootOf(V.PopTail(shift, v.root, count - 2)), V.LeafFor(shift, v.root, count - 2);
      ghost var after := V.Pop(v).value;
      var newTail := CopyLeaf(shift, root, count - 2, edit, F);
      assert LiveTree(root, shift, edit, F) == v.root;
      var newRoot := TRootAfterPop(shift, root, count - 2, edit, F);
      assert LiveTree(newRoot, shift, edit, F) == r && newTail[..] == leaf;
      TakeTail(newRoot, newTail, after);
    }

    method TakeTail(newRoot: TrieNode<T>, newTail: array<Eq<T>>, ghost after: V.Vector<Eq<T>>)
      requires edit.active && edit !in F && this !in F && newTail !in F && newTail.Length == 32 && count > 1
      requires shift >= 5 && newRoot.edit == edit && Live(newRoot, shift, edit, F) && this !in newRoot.repr
        && newTail !in newRoot.repr
      requires shift > 5 ==> LiveTree(newRoot, shift, edit, F).kids[0].Sub?
      requires V.Valid(after) && after == V.Collapsed(count - 1, shift, LiveTree(newRoot, shift, edit, F), newTail[..])
      modifies this
      ensures tail == newTail && Foot(root, edit) <= newRoot.repr
      ensures Valid() && Value() == after
    {
      hide V.Valid, LiveBut, KidsBut;
      root, tail, tailCount, count := newRoot, newTail, 32, count - 1;
      assert tail[..32] == newTail[..];
      if shift > 5 {
        KidIn(root, 1, shift, edit, F);
        if root.slots[1].Null? {
          Descend(root, 0, shift, edit, F);
          root, shift := root.slots[0].node, shift - 5;
        }
      }
      assert Value() == after;
    }
  }

  method CopyLeaf<T>(shift: nat, root: TrieNode<T>, index: nat, e: Edit, ghost F: set<object>)
    returns (copy: array<Eq<T>>)
    requires e.active && V.IsLevel(shift) && Live(root, shift, e, F)
      && V.Reaches(shift, LiveTree(root, shift, e, F), index)
    ensures fresh(copy) && copy.Length == 32 && copy[..] == V.LeafFor(shift, LiveTree(root, shift, e, F), index)
  {
    var slots := ArrayAt(shift, root, index, e, F);
    copy := CopySlots(slots, 32);
    assert copy[..] == slots[..];
  }

  method TRootAfterPop<T>(shift: nat, root: TrieNode<T>, index: nat, e: Edit, ghost F: set<object>)
    returns (out: TrieNode<T>)
    requires e.active && e !in F && shift >= 5 && Live(root, shift, e, F)
      && V.Reaches(shift, LiveTree(root, shift, e, F), index)
    modifies Foot(root, e)
    ensures out.edit == e && Live(out, shift, e, F) && fresh(out.repr - old(Foot(root, e)))
    ensures LiveTree(out, shift, e, F) == V.RootOf(V.PopTail(shift, old(LiveTree(root, shift, e, F)), index))
  {
    var shrunk := TPopTail(shift, root, index, e, F);
    if shrunk == null { out := NodeNew(e, shift, F); } else { out := shrunk; }
  }

  method AsTransient<T>(v: Vec<T>, ghost F: set<object>) returns (t: Transient<T>)
    requires FrozenVec(v, F)
    ensures fresh(t) && fresh(t.edit) && t.F == F && t.Valid() && fresh(t.Writable())
    ensures t.Value() == VecValue(v, F)
  {
    var owner := new Edit();
    var root := EnsureNode(v.root, v.shift, owner, F);
    var tail := CopySlots(v.tail, 32);
    assert tail[..v.tail.Length] == v.tail[..];
    t := new Transient(F, owner, v.count, v.shift, root, tail, v.tail.Length);
    assert t.Value() == VecValue(v, F);
  }

  // ------------------------------------------------------ persistent vectors

  datatype Vec<T> = Vec(count: nat, shift: nat, root: TrieNode<T>, tail: array<Eq<T>>)

  ghost predicate FrozenVec<T>(v: Vec<T>, F: set<object>)
    reads F
  {
    v.tail in F && Frozen(v.root, v.shift, F) && V.Valid(VecValue(v, F))
  }

  ghost function VecValue<T>(v: Vec<T>, F: set<object>): V.Vector<Eq<T>>
    requires v.tail in F && Frozen(v.root, v.shift, F)
    reads F
  {
    V.Vector(v.count, v.shift, FrozenTree(v.root, v.shift, F), v.tail[..])
  }

  /** Once its token is inactive, a builder's tree is frozen as it stands. */
  lemma {:induction false} FreezeTree<T>(n: TrieNode<T>, level: nat, e: Edit, F: set<object>, F': set<object>)
    requires Live(n, level, e, F) && !e.active && F + Foot(n, e) + {e} <= F'
    ensures Frozen(n, level, F') && FrozenTree(n, level, F') == LiveTree(n, level, e, F)
    decreases level
  {
    if n.edit != e {
      FrozenGrows(n, level, F, F');
    } else if level >= 5 {
      var R := n.repr - {n, n.slots};
      forall i | 0 <= i < 32
        ensures FrozenSlot(n.slots[i], level, F')
        ensures FrozenKid(n.slots[i], level, F') == LiveKid(n.slots[i], level, e, F, R)
      {
        assert LiveSlot(n.slots[i], level, e, F, R);
        if n.slots[i].Ref? { FreezeTree(n.slots[i].node, level - 5, e, F, F'); }
      }
      assert FrozenTree(n, level, F').kids == LiveTree(n, level, e, F).kids;
    }
  }

  lemma {:induction false} FrozenGrows<T>(n: TrieNode<T>, level: nat, F: set<object>, F': set<object>)
    requires Frozen(n, level, F) && F <= F'
    ensures Frozen(n, level, F') && FrozenTree(n, level, F') == FrozenTree(n, level, F)
    decreases level
  {
    if level >= 5 {
      forall i | 0 <= i < 32
        ensures FrozenSlot(n.slots[i], level, F')
        ensures FrozenKid(n.slots[i], level, F') == FrozenKid(n.slots[i], level, F)
      {
        assert FrozenSlot(n.slots[i], level, F);
        if n.slots[i].Ref? { FrozenGrows(n.slots[i].node, level - 5, F, F'); }
      }
      assert FrozenTree(n, level, F').kids == FrozenTree(n, level, F).kids;
    }
  }

  /** A persistent vector is not affected by the freezing of more objects. */
  lemma VecGrows<T>(v: Vec<T>, F: set<object>, F': set<object>)
    requires FrozenVec(v, F) && F <= F'
    ensures FrozenVec(v, F') && VecValue(v, F') == VecValue(v, F)
  {
    FrozenGrows(v.root, v.shift, F, F');
  }

  /** A vector with one element has nothing in its trie. */
  lemma EmptyTrie<T>(v: V.Vector<T>)
    requires V.Valid(v) && v.count == 1
    ensures v.shift == 5 && v.root == V.Branch(V.NoKids()) && |v.tail| == 1
  {
    V.AlignedIs(V.Body(v));
    V.AlignedIs(0);
    forall i | 0 <= i < 32 ensures v.root.kids[i] == V.Hole {
      assert V.PackedKid(v.shift, v.root.kids[i], 0);
    }
    assert v.root.kids == V.NoKids();
  }

  /** The walk from a node down to the slots that hold `index`. */
  method ArrayAt<T>(shift: nat, root: TrieNode<T>, index: nat, e: Edit, ghost F: set<object>)
    returns (slots: array<Eq<T>>)
    requires e.active && V.IsLevel(shift) && Live(root, shift, e, F)
      && V.Reaches(shift, LiveTree(root, shift, e, F), index)
    ensures slots.Length == 32 && slots[..] == V.LeafFor(shift, LiveTree(root, shift, e, F), index)
    ensures slots in F + Foot(root, e)
  {
    var n, level := root, shift;
    while level > 0
      invariant V.IsLevel(level) && Live(n, level, e, F) && V.Reaches(level, LiveTree(n, level, e, F), index)
      invariant V.LeafFor(level, LiveTree(n, level, e, F), index)
        == V.LeafFor(shift, LiveTree(root, shift, e, F), index)
      invariant Foot(n, e) <= Foot(root, e)
    {
      var s := V.SubIndex(index, level);
      Descend(n, s, level, e, F);
      n := n.slots[s].node;
      level := level - 5;
    }
    slots := n.slots;
  }

  /** One step down a live tree. */
  lemma Descend<T>(n: TrieNode<T>, s: nat, level: nat, e: Edit, F: set<object>)
    requires e.active && level >= 5 && s < 32 && Live(n, level, e, F) && LiveTree(n, level, e, F).kids[s].Sub?
    ensures n.slots.Length == 32 && n.slots[s].Ref?
    ensures var d := n.slots[s].node;
      && Live(d, level - 5, e, F) && Foot(d, e) <= Foot(n, e)
      && LiveTree(n, level, e, F).kids[s] == V.Sub(LiveTree(d, level - 5, e, F))
  {
    if n.edit == e {
      KidIn(n, s, level, e, F);
      Split(n, s, level, e, F);
    } else {
      assert FrozenSlot(n.slots[s], level, F);
    }
  }

  /** The root grows by a level: the old root and a path to the new leaf. */
  method TGrow<T>(shift: nat, root: TrieNode<T>, leaf: TrieNode<T>, e: Edit, ghost F: set<object>)
    returns (grown: TrieNode<T>)
    requires e !in F && V.IsLevel(shift) && Live(root, shift, e, F) && e !in Foot(root, e)
    requires leaf.edit == e && Live(leaf, 0, e, F) && leaf.repr !! Foot(root, e)
    ensures grown.edit == e && grown in grown.repr && Live(grown, shift + 5, e, F)
    ensures fresh(grown.repr - Foot(root, e) - leaf.repr)
    ensures LiveTree(grown, shift + 5, e, F) ==
              V.GrownRoot(shift, old(LiveTree(root, shift, e, F)), old(LiveTree(leaf, 0, e, F)))
  {
    hide Live, LiveTree, V.NewPath;
    ghost var a, l := V.Sub(LiveTree(root, shift, e, F)), LiveTree(leaf, 0, e, F);
    var path := TNewPath(shift, leaf, e, F);
    ghost var b := V.Sub(LiveTree(path, shift, e, F));
    assert b.tree == V.NewPath(shift, l);
    grown := TRootOver(shift, root, e, F);
    ghost var top, below := grown.repr, path.repr;
    assert below !! top;
    assert fresh(top - Foot(root, e)) && fresh(below - leaf.repr);
    assert LiveTree(grown, shift + 5, e, F) == V.Branch(V.NoKids()[0 := a]);
    FillSlot(grown, 1, path, shift + 5, e, F);
    assert LiveTree(grown, shift + 5, e, F) == V.Branch(V.NoKids()[0 := a][1 := b]);
  }

  method TRootOver<T>(shift: nat, root: TrieNode<T>, e: Edit, ghost F: set<object>) returns (grown: TrieNode<T>)
    requires e !in F && Live(root, shift, e, F) && e !in Foot(root, e)
    ensures grown.edit == e && Live(grown, shift + 5, e, F) && grown.slots[1].Null?
    ensures fresh(grown) && fresh(grown.slots) && grown.repr == {grown, grown.slots} + Foot(root, e)
    ensures LiveTree(grown, shift + 5, e, F) == V.Branch(V.NoKids()[0 := V.Sub(LiveTree(root, shift, e, F))])
  {
    hide Live, LiveTree;
    grown := NodeNew(e, shift + 5, F);
    FillSlot(grown, 0, root, shift + 5, e, F);
  }

  // -------------------------------------------- persistent operations: copies

  method NodeCopy<T>(n: TrieNode<T>) returns (out: TrieNode<T>)
    ensures fresh(out) && fresh(out.slots) && out.edit == null && out.slots.Length == 32
    ensures n.slots.Length == 32 ==> forall i | 0 <= i < 32 :: out.slots[i] == n.slots[i]
  {
    var slots := CopySlots(n.slots, 32);
    out := new TrieNode(null, slots);
  }

  /** A copy of a frozen node with one slot replaced is the same tree but there. */
  lemma CopiedTree<T>(out: TrieNode<T>, n: TrieNode<T>, s: nat, level: nat, F: set<object>, F1: set<object>)
    requires level >= 5 && s < 32 && Frozen(n, level, F) && F <= F1
    requires out.edit == null && out.slots.Length == 32
    requires forall i | 0 <= i < 32 && i != s :: out.slots[i] == n.slots[i]
    requires FrozenSlot(out.slots[s], level, F1)
    ensures Frozen(out, level, F1 + {out.slots})
    ensures FrozenTree(out, level, F1 + {out.slots}) ==
              V.Branch(FrozenTree(n, level, F).kids[s := FrozenKid(out.slots[s], level, F1)])
  {
    var F' := F1 + {out.slots};
    forall i | 0 <= i < 32
      ensures FrozenSlot(out.slots[i], level, F')
      ensures FrozenKid(out.slots[i], level, F') ==
                if i == s then FrozenKid(out.slots[s], level, F1) else FrozenKid(n.slots[i], level, F)
    {
      if i != s { assert FrozenSlot(n.slots[i], level, F); }
      if out.slots[i].Ref? { FrozenGrows(out.slots[i].node, level - 5, if i == s then F1 else F, F'); }
    }
    assert FrozenTree(out, level, F').kids == FrozenTree(n, level, F).kids[s := FrozenKid(out.slots[s], level, F1)];
  }

  /** A copy of a frozen node with one slot replaced. */
  method CopyWith<T>(n: TrieNode<T>, s: nat, x: Eq<T>, ghost level: nat, ghost F: set<object>, ghost F1: set<object>)
    returns (out: TrieNode<T>, ghost F': set<object>)
    requires level >= 5 && s < 32 && Frozen(n, level, F) && F <= F1 && FrozenSlot(x, level, F1)
    ensures F1 <= F' && fresh(F' - F1) && Frozen(out, level, F')
    ensures FrozenTree(out, level, F') == V.Branch(FrozenTree(n, level, F).kids[s := FrozenKid(x, level, F1)])
  {
    hide Frozen, FrozenTree;
    FrozenKidIn(n, s, level, F);
    out := NodeCopy(n);
    out.slots[s] := x;
    CopiedTree(out, n, s, level, F, F1);
    F' := F1 + {out.slots};
  }

  lemma FrozenKidIn<T>(n: TrieNode<T>, s: nat, level: nat, F: set<object>)
    requires level >= 5 && s < 32 && Frozen(n, level, F)
    ensures n.slots.Length == 32 && FrozenSlot(n.slots[s], level, F)
    ensures FrozenTree(n, level, F).kids[s] == FrozenKid(n.slots[s], level, F)
  {}

  method DoAssoc<T>(level: nat, n: TrieNode<T>, index: nat, value: Eq<T>, ghost F: set<object>)
    returns (out: TrieNode<T>, ghost F': set<object>)
    requires Frozen(n, level, F) && V.Reaches(level, FrozenTree(n, level, F), index)
    ensures F <= F' && fresh(F' - F) && Frozen(out, level, F')
    ensures FrozenTree(out, level, F') == V.DoAssoc(level, FrozenTree(n, level, F), index, value)
    decreases level
  {
    hide Frozen, FrozenTree;
    if level == 0 {
      FrozenLeafIn(n, F);
      out := NodeCopy(n);
      assert out.slots[..] == n.slots[..];
      out.slots[index % 32] := value;
      F' := F + {out.slots};
      FrozenLeafIs(out, F');
    } else {
      var s := V.SubIndex(index, level);
      FrozenKidIn(n, s, level, F);
      var child;
      child, F' := DoAssoc(level - 5, n.slots[s].node, index, value, F);
      out, F' := CopyWith(n, s, Ref(child), level, F, F');
    }
  }

  lemma FrozenLeafIn<T>(n: TrieNode<T>, F: set<object>)
    requires Frozen(n, 0, F)
    ensures n.slots.Length == 32 && FrozenTree(n, 0, F) == V.Leaf(n.slots[..])
  {}

  lemma FrozenLeafIs<T>(n: TrieNode<T>, F: set<object>)
    requires n.edit == null && n.slots in F && n.slots.Length == 32
    ensures Frozen(n, 0, F) && FrozenTree(n, 0, F) == V.Leaf(n.slots[..])
  {}

  /** The tree of a node whose slots have just been filled with frozen kids. */
  lemma SparseTree<T>(out: TrieNode<T>, level: nat, F: set<object>)
    requires level >= 5 && out.edit == null && out.slots.Length == 32
    requires forall i | 0 <= i < 32 :: FrozenSlot(out.slots[i], level, F)
    ensures Frozen(out, level, F + {out.slots})
    ensures forall i | 0 <= i < 32 ::
      FrozenTree(out, level, F + {out.slots}).kids[i] == FrozenKid(out.slots[i], level, F)
  {
    forall i | 0 <= i < 32
      ensures FrozenSlot(out.slots[i], level, F + {out.slots})
      ensures FrozenKid(out.slots[i], level, F + {out.slots}) == FrozenKid(out.slots[i], level, F)
    {
      if out.slots[i].Ref? { FrozenGrows(out.slots[i].node, level - 5, F, F + {out.slots}); }
    }
  }

  method NewPath<T>(level: nat, n: TrieNode<T>, ghost F: set<object>) returns (out: TrieNode<T>, ghost F': set<object>)
    requires V.IsLevel(level) && Frozen(n, 0, F)
    ensures F <= F' && fresh(F' - F) && Frozen(out, level, F')
    ensures FrozenTree(out, level, F') == V.NewPath(level, FrozenTree(n, 0, F))
  {
    if level == 0 {
      out, F' := n, F;
    } else {
      out := EmptyNode();
      var child;
      child, F' := NewPath(level - 5, n, F);
      out.slots[0] := Ref(child);
      SparseTree(out, level, F');
      assert FrozenTree(out, level, F' + {out.slots}).kids ==
             V.NoKids()[0 := V.Sub(V.NewPath(level - 5, FrozenTree(n, 0, F)))];
      F' := F' + {out.slots};
    }
  }

  method EmptyNode<T>() returns (n: TrieNode<T>)
    ensures fresh(n) && fresh(n.slots) && n.edit == null && n.slots.Length == 32
    ensures forall i | 0 <= i < 32 :: n.slots[i].Null?
  {
    var slots := new Eq<T>[32](_ => Null);
    n := new TrieNode(null, slots);
  }

  method PushTail<T>(level: nat, parent: TrieNode<T>, leaf: TrieNode<T>, index: nat, ghost F: set<object>)
    returns (out: TrieNode<T>, ghost F': set<object>)
    requires V.IsLevel(level) && Frozen(parent, level, F) && Frozen(leaf, 0, F)
    requires V.Room(level, FrozenTree(parent, level, F), index)
    ensures F <= F' && fresh(F' - F) && Frozen(out, level, F')
    ensures FrozenTree(out, level, F') == V.PushTail(level, FrozenTree(parent, level, F), FrozenTree(leaf, 0, F), index)
    decreases level
  {
    hide Frozen, FrozenTree;
    var s := V.SubIndex(index, level);
    FrozenKidIn(parent, s, level, F);
    var child;
    if level == 5 {
      child, F' := leaf, F;
    } else if parent.slots[s].Null? {
      child, F' := NewPath(level - 5, leaf, F);
    } else {
      child, F' := PushTail(level - 5, parent.slots[s].node, leaf, index, F);
    }
    out, F' := CopyWith(parent, s, Ref(child), level, F, F');
  }

  method PopTail<T>(level: nat, n: TrieNode<T>, index: nat, ghost F: set<object>)
    returns (out: TrieNode?<T>, ghost F': set<object>)
    requires level >= 5 && Frozen(n, level, F) && V.Reaches(level, FrozenTree(n, level, F), index)
    ensures F <= F' && fresh(F' - F)
    ensures out == null <==> V.PopTail(level, FrozenTree(n, level, F), index) == V.Hole
    ensures out != null ==> Frozen(out, level, F')
    ensures out != null ==> V.Sub(FrozenTree(out, level, F')) == V.PopTail(level, FrozenTree(n, level, F), index)
    decreases level
  {
    hide Frozen, FrozenTree;
    var s := V.SubIndex(index, level);
    FrozenKidIn(n, s, level, F);
    assert V.Reaches(level - 5, FrozenTree(n, level, F).kids[s].tree, index);
    var child: TrieNode?<T> := null;
    F' := F;
    if level > 5 {
      child, F' := PopTail(level - 5, n.slots[s].node, index, F);
    }
    if child == null && s == 0 {
      out := null;
    } else {
      out, F' := CopyWith(n, s, if child == null then Null else Ref(child), level, F, F');
    }
  }

  // ------------------------------------------------- the persistent vector API

  method EmptyVec<T>(ghost F: set<object>) returns (v: Vec<T>, ghost F': set<object>)
    ensures F <= F' && fresh(F' - F) && FrozenVec(v, F') && VecValue(v, F') == V.Empty()
  {
    hide V.Valid, Frozen, FrozenTree;
    var root := EmptyNode();
    var tail := new Eq<T>[0](_ => Null);
    F' := F + {root.slots, tail};
    SparseTree(root, 5, F);
    FrozenGrows(root, 5, F + {root.slots}, F');
    assert FrozenTree(root, 5, F').kids == V.NoKids();
    assert tail[..] == [];
    V.EmptyIsValid<Eq<T>>();
    v := Vec(0, 5, root, tail);
    assert VecValue(v, F') == V.Empty();
  }

  method VecGet<T>(v: Vec<T>, index: int, ghost F: set<object>) returns (r: Option<Eq<T>>)
    requires FrozenVec(v, F)
    ensures r == V.Get(VecValue(v, F), index)
  {
    ghost var value := VecValue(v, F);
    V.ViewSize(value);
    if index < 0 || index >= v.count { return None; }
    V.ArrayForView(value, index);
    var slots := ArrayFor(v, index, F);
    return Some(slots[index % 32]);
  }

  method ArrayFor<T>(v: Vec<T>, index: nat, ghost F: set<object>) returns (slots: array<Eq<T>>)
    requires FrozenVec(v, F) && index < v.count
    ensures slots in F && slots[..] == V.ArrayFor(VecValue(v, F), index)
  {
    ghost var value := VecValue(v, F);
    V.TailOffsetIs(value);
    if index >= V.TailOffset(v.count) { return v.tail; }
    V.InTrie(value, index);
    var n, level := v.root, v.shift;
    while level > 0
      invariant V.IsLevel(level) && Frozen(n, level, F) && V.Reaches(level, FrozenTree(n, level, F), index)
      invariant V.LeafFor(level, FrozenTree(n, level, F), index) == V.ArrayFor(value, index)
    {
      FrozenKidIn(n, V.SubIndex(index, level), level, F);
      n := n.slots[V.SubIndex(index, level)].node;
      level := level - 5;
    }
    slots := n.slots;
  }

  method VecPush<T>(v: Vec<T>, value: Eq<T>, ghost F: set<object>) returns (r: Outcome<Vec<T>>, ghost F': set<object>)
    requires FrozenVec(v, F)
    ensures F <= F' && fresh(F' - F)
    ensures r.Trap? <==> V.Push(VecValue(v, F), value).Trap?
    ensures r.Done? ==> FrozenVec(r.value, F') && V.Push(VecValue(v, F), value) == Done(VecValue(r.value, F'))
  {
    hide Frozen, FrozenTree, V.GrownRoot, V.PushTail;
    if v.count == MAX_I32 { return Trap, F; }
    if v.tail.Length < 32 {
      var grown := CopySlots(v.tail, v.tail.Length + 1);
      grown[v.tail.Length] := value;
      F' := F + {grown};
      FrozenGrows(v.root, v.shift, F, F');
      assert grown[..] == v.tail[..] + [value];
      return Done(Vec(v.count + 1, v.shift, v.root, grown)), F';
    }
    r, F' := VecPushLeaf(v, value, F);
  }

  method VecPushLeaf<T>(v: Vec<T>, value: Eq<T>, ghost F: set<object>)
    returns (r: Outcome<Vec<T>>, ghost F': set<object>)
    requires FrozenVec(v, F) && v.tail.Length == 32 && v.count < MAX_I32
    ensures F <= F' && fresh(F' - F)
    ensures r.Done? && FrozenVec(r.value, F') && V.Push(VecValue(v, F), value) == Done(VecValue(r.value, F'))
  {
    hide V.Valid, V.PushTail, Frozen, FrozenTree, V.GrownRoot;
    ghost var before, after := VecValue(v, F), V.Push(VecValue(v, F), value).value;
    var leaf := new TrieNode(null, v.tail);
    FrozenLeafIs(leaf, F);
    var root, shift := v.root, v.shift;
    if Shr(v.count, 5) > Pow2(v.shift) {
      V.GrowRoot(before, value);
      root, F' := GrowRoot(v.shift, v.root, leaf, F);
      shift := shift + 5;
    } else {
      V.PushLeaf(before, value);
      root, F' := PushTail(v.shift, v.root, leaf, v.count - 1, F);
    }
    assert FrozenTree(root, shift, F') == after.root && shift == after.shift;
    var tail := new Eq<T>[1](_ => value);
    FrozenGrows(root, shift, F', F' + {tail});
    F' := F' + {tail};
    assert tail[..] == [value];
    r := Done(Vec(v.count + 1, shift, root, tail));
    assert VecValue(r.value, F') == after;
  }

  method GrowRoot<T>(shift: nat, root: TrieNode<T>, leaf: TrieNode<T>, ghost F: set<object>)
    returns (grown: TrieNode<T>, ghost F': set<object>)
    requires V.IsLevel(shift) && Frozen(root, shift, F) && Frozen(leaf, 0, F)
    ensures F <= F' && fresh(F' - F) && Frozen(grown, shift + 5, F')
    ensures FrozenTree(grown, shift + 5, F') == V.GrownRoot(shift, FrozenTree(root, shift, F), FrozenTree(leaf, 0, F))
  {
    hide Frozen, FrozenTree, V.NewPath;
    grown := EmptyNode();
    grown.slots[0] := Ref(root);
    var path;
    path, F' := NewPath(shift, leaf, F);
    grown.slots[1] := Ref(path);
    FrozenGrows(root, shift, F, F');
    SparseTree(grown, shift + 5, F');
    assert FrozenTree(grown, shift + 5, F' + {grown.slots}).kids ==
      V.NoKids()[0 := V.Sub(FrozenTree(root, shift, F))][1 := V.Sub(FrozenTree(path, shift, F'))];
    F' := F' + {grown.slots};
  }

  method VecAssoc<T(==)>(v: Vec<T>, index: int, value: Eq<T>, ghost F: set<object>)
    returns (r: Outcome<Vec<T>>, ghost F': set<object>)
    requires FrozenVec(v, F)
    ensures F <= F' && fresh(F' - F)
    ensures r.Trap? <==> V.Assoc(VecValue(v, F), index, value).Trap?
    ensures r.Done? ==> FrozenVec(r.value, F') && V.Assoc(VecValue(v, F), index, value) == Done(VecValue(r.value, F'))
  {
    hide V.Valid;
    if index == v.count {
      r, F' := VecPush(v, value, F);
      return;
    }
    if index < 0 || index >= v.count { return Trap, F; }
    ghost var before := VecValue(v, F);
    V.TailOffsetIs(before);
    if index >= V.TailOffset(v.count) {
      V.TailDigit(before, index);
      if v.tail[index % 32] == value { return Done(v), F; }
      var updated := CopySlots(v.tail, v.tail.Length);
      updated[index % 32] := value;
      F' := F + {updated};
      FrozenGrows(v.root, v.shift, F, F');
      assert updated[..] == v.tail[..][index % 32 := value];
      return Done(v.(tail := updated)), F';
    }
    V.InTrie(before, index);
    var root;
    root, F' := DoAssoc(v.shift, v.root, index, value, F);
    return Done(v.(root := root)), F';
  }

  method VecPop<T>(v: Vec<T>, ghost F: set<object>) returns (r: Outcome<Vec<T>>, ghost F': set<object>)
    requires FrozenVec(v, F)
    ensures F <= F' && fresh(F' - F)
    ensures r.Trap? <==> V.Pop(VecValue(v, F)).Trap?
    ensures r.Done? ==> FrozenVec(r.value, F') && V.Pop(VecValue(v, F)) == Done(VecValue(r.value, F'))
  {
    if v.count == 0 { return Trap, F; }
    if v.count == 1 {
      var e;
      e, F' := EmptyVec(F);
      return Done(e), F';
    }
    if v.tail.Length > 1 {
      var tail := CopySlots(v.tail, v.tail.Length - 1);
      F' := F + {tail};
      FrozenGrows(v.root, v.shift, F, F');
      assert tail[..] == v.tail[..][..v.tail.Length - 1];
      return Done(Vec(v.count - 1, v.shift, v.root, tail)), F';
    }
    r, F' := VecPopLeaf(v, F);
  }

  method VecPopLeaf<T>(v: Vec<T>, ghost F: set<object>) returns (r: Outcome<Vec<T>>, ghost F': set<object>)
    requires FrozenVec(v, F) && v.count > 1 && v.tail.Length == 1
    ensures F <= F' && fresh(F' - F)
    ensures r.Done? && FrozenVec(r.value, F') && V.Pop(VecValue(v, F)) == Done(VecValue(r.value, F'))
  {
    hide V.Valid, V.PopTail, V.Pop;
    ghost var before, after := VecValue(v, F), V.Pop(VecValue(v, F)).value;
    V.PopLeafPlan(before);
    V.TailOffsetIs(before);
    var newTail := ArrayFor(v, v.count - 2, F);
    var root;
    root, F' := RootAfterPop(v.shift, v.root, v.count - 2, F);
    var next := Collapsed(v.count - 1, v.shift, root, newTail, F');
    assert VecValue(next, F') == after;
    r := Done(next);
  }

  method RootAfterPop<T>(shift: nat, root: TrieNode<T>, index: nat, ghost F: set<object>)
    returns (out: TrieNode<T>, ghost F': set<object>)
    requires shift >= 5 && Frozen(root, shift, F) && V.Reaches(shift, FrozenTree(root, shift, F), index)
    ensures F <= F' && fresh(F' - F) && Frozen(out, shift, F')
    ensures FrozenTree(out, shift, F') == V.RootOf(V.PopTail(shift, FrozenTree(root, shift, F), index))
  {
    var shrunk;
    shrunk, F' := PopTail(shift, root, index, F);
    if shrunk == null {
      out := EmptyNode();
      SparseTree(out, shift, F');
      F' := F' + {out.slots};
      assert FrozenTree(out, shift, F').kids == V.NoKids();
    } else {
      out := shrunk;
    }
  }

  method Collapsed<T>(count: nat, shift: nat, root: TrieNode<T>, tail: array<Eq<T>>, ghost F: set<object>)
    returns (v: Vec<T>)
    requires shift >= 5 && tail in F && Frozen(root, shift, F)
    requires shift > 5 ==> FrozenTree(root, shift, F).kids[0].Sub?
    ensures v.tail in F && Frozen(v.root, v.shift, F)
    ensures VecValue(v, F) == V.Collapsed(count, shift, FrozenTree(root, shift, F), tail[..])
  {
    FrozenKidIn(root, 0, shift, F);
    FrozenKidIn(root, 1, shift, F);
    if shift > 5 && root.slots[1].Null? {
      v := Vec(count, shift - 5, root.slots[0].node, tail);
    } else {
      v := Vec(count, shift, root, tail);
    }
  }

  // --------------------------------------------------------------- whole runs

  /** A builder started from a persistent vector and put through any run of
      operations freezes to what the same run of persistent operations builds, or
      traps where it would. Nothing that was frozen before is written. */
  method Build<T(==)>(v: Vec<T>, ops: seq<V.Op<Eq<T>>>, ghost F: set<object>)
    returns (r: Outcome<Vec<T>>, ghost F': set<object>)
    requires FrozenVec(v, F)
    ensures unchanged(F) && F <= F' && fresh(F' - F)
    ensures r.Trap? <==> V.Run(VecValue(v, F), ops).Trap?
    ensures r.Done? ==> FrozenVec(r.value, F') && V.Run(VecValue(v, F), ops) == Done(VecValue(r.value, F'))
  {
    hide V.Valid, V.Step, Live, LiveTree, Frozen, FrozenTree, V.SeqStep;
    var t := AsTransient(v, F);
    ghost var start := VecValue(v, F);
    for i := 0 to |ops|
      invariant t.Valid() && t.F == F && fresh(t.Writable()) && fresh(t.edit)
      invariant V.Run(start, ops) == V.Run(t.Value(), ops[i..])
    {
      ghost var now := t.Value();
      assert ops[i..][0] == ops[i] && ops[i..][1..] == ops[i + 1..];
      V.StepRefines(now, ops[i]);
      var trapped := Apply(t, ops[i]);
      if trapped { return Trap, F; }
    }
    assert ops[|ops|..] == [];
    var _, frozen, F1 := t.Persistent();
    return Done(frozen.value), F1;
  }

  method Apply<T>(t: Transient<T>, op: V.Op<Eq<T>>) returns (trapped: bool)
    requires t.Valid()
    modifies t.Writable()
    ensures t.Valid() && fresh(t.Writable() - old(t.Writable()))
    ensures trapped <==> V.Step(old(t.Value()), op).Trap?
    ensures !trapped ==> V.Step(old(t.Value()), op) == Done(t.Value())
  {
    match op
    case OpPush(x) => trapped := t.Push(x);
    case OpAssoc(i, x) => trapped := t.Assoc(i, x);
    case OpPop => trapped := t.Pop();
  }
}
