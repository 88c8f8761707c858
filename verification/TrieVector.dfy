// The persistent vector of stdlib-wap as a value: a 32-way trie of full leaves
// and a tail, with the trie kept packed to the left.
module TrieVector {
  import opened Sequences
  import opened Arithmetic
  import opened Outcomes

  datatype Kid<T> = Hole | Sub(tree: Tree<T>)
  datatype Tree<T> = Leaf(slots: seq<T>) | Branch(kids: seq<Kid<T>>)
  datatype Vector<T> = Vector(count: nat, shift: nat, root: Tree<T>, tail: seq<T>)

  // ------------------------------------------------------------ operations

  function NoKids<T>(): seq<Kid<T>> { seq(32, _ => Hole) }

  function SubIndex(index: nat, level: nat): (s: nat)
    ensures s < 32
  {
    Shr(index, level) % 32
  }

  function TailOffset(count: nat): nat {
    if count < 32 then 0 else (count - 1) / 32 * 32
  }

  function NewPath<T>(level: nat, n: Tree<T>): Tree<T> {
    if level < 5 then n
    else Branch(NoKids()[0 := Sub(NewPath(level - 5, n))])
  }

  /** The slots the walk of `push_tail` looks into exist. */
  predicate Room<T>(level: nat, n: Tree<T>, index: nat) {
    && level >= 5
    && n.Branch? && |n.kids| == 32
    && (level > 5 && n.kids[SubIndex(index, level)].Sub? ==>
          Room(level - 5, n.kids[SubIndex(index, level)].tree, index))
  }

  function PushTail<T>(level: nat, parent: Tree<T>, leaf: Tree<T>, index: nat): Tree<T>
    requires Room(level, parent, index)
  {
    var s := SubIndex(index, level);
    if level == 5 then Branch(parent.kids[s := Sub(leaf)])
    else match parent.kids[s] {
      case Hole => Branch(parent.kids[s := Sub(NewPath(level - 5, leaf))])
      case Sub(child) => Branch(parent.kids[s := Sub(PushTail(level - 5, child, leaf, index))])
    }
  }

  /** No null is met on the way from a node of this level down to `index`. */
  predicate Reaches<T>(level: nat, n: Tree<T>, index: nat) {
    if level == 0 then n.Leaf? && |n.slots| == 32
    else
      && level >= 5 && n.Branch? && |n.kids| == 32
      && n.kids[SubIndex(index, level)].Sub?
      && Reaches(level - 5, n.kids[SubIndex(index, level)].tree, index)
  }

  function LeafFor<T>(level: nat, n: Tree<T>, index: nat): (slots: seq<T>)
    requires Reaches(level, n, index)
    ensures |slots| == 32
  {
    if level == 0 then n.slots else LeafFor(level - 5, n.kids[SubIndex(index, level)].tree, index)
  }

  function DoAssoc<T>(level: nat, n: Tree<T>, index: nat, value: T): Tree<T>
    requires Reaches(level, n, index)
  {
    if level == 0 then Leaf(n.slots[index % 32 := value])
    else
      var s := SubIndex(index, level);
      Branch(n.kids[s := Sub(DoAssoc(level - 5, n.kids[s].tree, index, value))])
  }

  function PopTail<T>(level: nat, n: Tree<T>, index: nat): Kid<T>
    requires level >= 5 && Reaches(level, n, index)
  {
    var s := SubIndex(index, level);
    if level > 5 then
      assert Reaches(level - 5, n.kids[s].tree, index);
      var child := PopTail(level - 5, n.kids[s].tree, index);
      if child.Hole? && s == 0 then Hole else Sub(Branch(n.kids[s := child]))
    else if s == 0 then Hole
    else Sub(Branch(n.kids[s := Hole]))
  }

  // ------------------------------------------------- representation invariant

  /** The levels a trie has: zero for leaves, and five bits more for each step up. */
  predicate IsLevel(level: nat) {
    level == 0 || (level >= 5 && IsLevel(level - 5))
  }

  /** The position slot `i` of a node of this level starts at, `i << level`. */
  ghost function Start(level: nat, i: nat): nat {
    if i == 0 then 0 else Start(level, i - 1) + Pow2(level)
  }

  /** `n`, whose slots each stand for 2^level positions, holds exactly the first
      `m` of them: full subtrees, then at most one partial one, then nulls. */
  ghost predicate Packed<T>(level: nat, n: Tree<T>, m: nat) {
    if level == 0 then n.Leaf? && |n.slots| == 32 && m == 32
    else
      && level >= 5
      && m <= Start(level, 32)
      && n.Branch? && |n.kids| == 32
      && forall i {:trigger n.kids[i]} :: 0 <= i < 32 ==>
          PackedKid(level, n.kids[i], Clamp(m - Start(level, i), Pow2(level)))
  }

  ghost predicate PackedKid<T>(level: nat, k: Kid<T>, c: nat)
    requires level >= 5
  {
    match k
    case Hole => c == 0
    case Sub(t) => c > 0 && Packed(level - 5, t, c)
  }

  ghost predicate Aligned(m: int) { m == 0 || (m >= 32 && Aligned(m - 32)) }

  /** How many elements are in the trie: all that are not in the tail. */
  ghost function Body<T>(v: Vector<T>): int { v.count - |v.tail| }

  ghost predicate Valid<T>(v: Vector<T>) {
    && v.count <= MAX_I32
    && v.shift >= 5 && IsLevel(v.shift)
    && |v.tail| <= 32 && (|v.tail| == 0 ==> v.count == 0)
    && Aligned(Body(v))
    && Packed(v.shift, v.root, Body(v))
    && (v.shift > 5 ==> Body(v) > Pow2(v.shift))
  }

  lemma {:induction false} AlignedIs(m: int)
    requires Aligned(m)
    ensures m >= 0 && m % 32 == 0
  {
    if m > 0 { AlignedIs(m - 32); }
  }

  lemma {:induction false} AlignedPow(level: nat)
    requires level >= 5
    ensures Pow2(level) % 32 == 0
  {
    Pow2Five(level - 5);
  }

  /** `tail_offset` is where the tail of a valid vector starts. */
  lemma TailOffsetIs<T>(v: Vector<T>)
    requires Valid(v)
    ensures TailOffset(v.count) == Body(v)
  {
    AlignedIs(Body(v));
    TailOffsetUnique(v.count, Body(v));
  }

  lemma TailOffsetUnique(count: nat, m: nat)
    requires m % 32 == 0 && m <= count <= m + 32 && (m == count ==> m == 0)
    ensures TailOffset(count) == m
  {}

  // ------------------------------------------------------------ denotation

  function Flatten<T>(n: Tree<T>): seq<T> {
    match n
    case Leaf(slots) => slots
    case Branch(kids) => FlattenKids(kids)
  }

  function FlattenKids<T>(kids: seq<Kid<T>>): seq<T> {
    if |kids| == 0 then [] else FlattenKid(kids[0]) + FlattenKids(kids[1..])
  }

  function FlattenKid<T>(k: Kid<T>): seq<T> {
    match k
    case Hole => []
    case Sub(t) => Flatten(t)
  }

  function View<T>(v: Vector<T>): seq<T> { Flatten(v.root) + v.tail }

  lemma {:induction false} FlattenConcat<T>(a: seq<Kid<T>>, b: seq<Kid<T>>)
    ensures FlattenKids(a + b) == FlattenKids(a) + FlattenKids(b)
  {
    hide FlattenKid;
    if |a| == 0 {
      assert a + b == b;
    } else {
      FlattenConcat(a[1..], b);
      assert (a + b)[1..] == a[1..] + b;
      assert (a + b)[0] == a[0];
      ConcatAssociates(FlattenKid(a[0]), FlattenKids(a[1..]), FlattenKids(b));
    }
  }

  lemma {:induction false} FlattenOne<T>(k: Kid<T>)
    ensures FlattenKids([k]) == FlattenKid(k)
  {
    assert [k][1..] == [];
    assert FlattenKids<T>([]) == [];
  }

  lemma {:induction false} FlattenSplit<T>(kids: seq<Kid<T>>, s: nat)
    requires s < |kids|
    ensures FlattenKids(kids) == FlattenKids(kids[..s]) + FlattenKid(kids[s]) + FlattenKids(kids[s + 1..])
  {
    assert kids == kids[..s] + ([kids[s]] + kids[s + 1..]);
    FlattenConcat(kids[..s], [kids[s]] + kids[s + 1..]);
    FlattenConcat([kids[s]], kids[s + 1..]);
    FlattenOne(kids[s]);
  }

  lemma {:induction false} FlattenHoles<T>(kids: seq<Kid<T>>)
    requires forall i :: 0 <= i < |kids| ==> kids[i].Hole?
    ensures FlattenKids(kids) == []
  {
    if |kids| > 0 { FlattenHoles(kids[1..]); }
  }

  // ----------------------------------------------- how full a packed node is

  lemma {:induction false} PackedSize<T>(level: nat, n: Tree<T>, m: nat)
    requires Packed(level, n, m)
    ensures |Flatten(n)| == m
    decreases level, 33
  {
    if level > 0 {
      PackedPrefix(level, n, m, 32);
      assert n.kids[..32] == n.kids;
    }
  }

  lemma {:induction false} PackedPrefix<T>(level: nat, n: Tree<T>, m: nat, i: nat)
    requires level >= 5 && Packed(level, n, m) && i <= 32
    ensures |FlattenKids(n.kids[..i])| == Min(m, Start(level, i))
    decreases level, i
  {
    if i > 0 {
      var j := i - 1;
      PackedPrefix(level, n, m, j);
      PackedKidSize(level, n.kids[j], Clamp(m - Start(level, j), Pow2(level)));
      assert n.kids[..i] == n.kids[..j] + [n.kids[j]];
      FlattenConcat(n.kids[..j], [n.kids[j]]);
      FlattenOne(n.kids[j]);
    }
  }

  lemma {:induction false} PackedKidSize<T>(level: nat, k: Kid<T>, c: nat)
    requires level >= 5 && PackedKid(level, k, c)
    ensures |FlattenKid(k)| == c
    decreases level, 0
  {
    if k.Sub? { PackedSize(level - 5, k.tree, c); }
  }

  // ------------------------------------------------ positions and base-32 digits

  /** What is left of a position inside a node of this level. */
  ghost function Rel(level: nat, index: nat): nat {
    if level < 5 then index % 32
    else Start(level, SubIndex(index, level)) + Rel(level - 5, index)
  }

  lemma {:induction false} StartIs(level: nat, i: nat)
    ensures Start(level, i) == i * Pow2(level)
  {
    if i > 0 { StartIs(level, i - 1); }
  }

  lemma {:induction false} StartMonotone(level: nat, i: nat, j: nat)
    requires i < j
    ensures Start(level, i) + Pow2(level) <= Start(level, j)
    decreases j
  {
    if i + 1 < j { StartMonotone(level, i, j - 1); }
  }

  lemma {:induction false} StartWhole(level: nat)
    ensures Start(level, 32) == Pow2(level + 5)
  {
    StartIs(level, 32);
    Pow2Five(level);
  }

  lemma {:induction false} RelIsRemainder(level: nat, index: nat)
    requires IsLevel(level)
    ensures Rel(level, index) == index % Pow2(level + 5)
  {
    if level == 0 {
      assert Pow2(5) == 32;
    } else {
      RelIsRemainder(level - 5, index);
      Pow2Five(level);
      DivisionSplit(index, Pow2(level));
      ShrIsDivision(index, level);
      StartIs(level, SubIndex(index, level));
    }
  }

  lemma {:induction false} RelBound(level: nat, index: nat)
    ensures index % 32 <= Rel(level, index) < Pow2(level + 5)
  {
    if level < 5 {
      Pow2Five(level);
    } else {
      RelBound(level - 5, index);
      StartMonotone(level, SubIndex(index, level), 32);
      StartWhole(level);
    }
  }

  /** A position inside the trie is its own remainder. */
  lemma {:induction false} RelWhole(level: nat, index: nat)
    requires IsLevel(level) && index < Start(level, 32)
    ensures Rel(level, index) == index
  {
    RelIsRemainder(level, index);
    StartWhole(level);
    ModulusUnique(index, Pow2(level + 5), 0, index);
  }

  // ------------------------------------------------------ one slot replaced

  /** Replacing slot `s` alone, when the counts of the other slots agree. */
  lemma {:induction false} ReplaceKid<T>(level: nat, n: Tree<T>, m: nat, s: nat, k: Kid<T>, m': nat)
    requires level >= 5 && Packed(level, n, m) && s < 32 && m' <= Start(level, 32)
    requires forall i :: 0 <= i < 32 && i != s ==>
      Clamp(m' - Start(level, i), Pow2(level)) == Clamp(m - Start(level, i), Pow2(level))
    requires PackedKid(level, k, Clamp(m' - Start(level, s), Pow2(level)))
    ensures Packed(level, Branch(n.kids[s := k]), m')
    ensures Flatten(Branch(n.kids[s := k]))
         == FlattenKids(n.kids[..s]) + FlattenKid(k) + FlattenKids(n.kids[s + 1..])
  {
    var kids := n.kids[s := k];
    FlattenSplit(kids, s);
    assert kids[..s] == n.kids[..s] && kids[s + 1..] == n.kids[s + 1..];
  }

  /** Slot `s` is where a packed node's contents end: all before are full and
      all after are null. */
  ghost predicate Frontier(level: nat, m: nat, s: nat) {
    s < 32 && Start(level, s) <= m <= Start(level, s) + Pow2(level)
  }

  lemma {:induction false} FrontierCounts(level: nat, m: nat, s: nat, i: nat)
    requires Frontier(level, m, s) && i < 32 && i != s
    ensures Clamp(m - Start(level, i), Pow2(level)) == if i < s then Pow2(level) else 0
  {
    if i < s { StartMonotone(level, i, s); } else { StartMonotone(level, s, i); }
  }

  lemma {:induction false} FrontierBound(level: nat, m: nat, s: nat)
    requires Frontier(level, m, s)
    ensures m <= Start(level, 32)
  {
    StartMonotone(level, s, 32);
  }

  lemma {:induction false} FrontierFlatten<T>(level: nat, n: Tree<T>, m: nat, s: nat)
    requires level >= 5 && Packed(level, n, m) && Frontier(level, m, s)
    ensures |FlattenKids(n.kids[..s])| == Start(level, s)
    ensures FlattenKids(n.kids[s + 1..]) == []
    ensures Flatten(n) == FlattenKids(n.kids[..s]) + FlattenKid(n.kids[s])
  {
    PackedPrefix(level, n, m, s);
    var rest := n.kids[s + 1..];
    forall i | 0 <= i < |rest| ensures rest[i].Hole? {
      FrontierCounts(level, m, s, s + 1 + i);
      assert PackedKid(level, n.kids[s + 1 + i], 0);
    }
    FlattenHoles(rest);
    FlattenSplit(n.kids, s);
  }

  lemma {:induction false} FrontierReplace<T>(level: nat, n: Tree<T>, m: nat, s: nat, k: Kid<T>, m': nat)
    requires level >= 5 && Packed(level, n, m) && Frontier(level, m, s) && Frontier(level, m', s)
    requires PackedKid(level, k, m' - Start(level, s))
    ensures Packed(level, Branch(n.kids[s := k]), m')
    ensures Flatten(Branch(n.kids[s := k])) == FlattenKids(n.kids[..s]) + FlattenKid(k)
    ensures Flatten(n) == FlattenKids(n.kids[..s]) + FlattenKid(n.kids[s])
    ensures |FlattenKids(n.kids[..s])| == Start(level, s)
  {
    FrontierFlatten(level, n, m, s);
    FrontierBound(level, m', s);
    forall i | 0 <= i < 32 && i != s
      ensures Clamp(m' - Start(level, i), Pow2(level)) == Clamp(m - Start(level, i), Pow2(level))
    {
      FrontierCounts(level, m, s, i);
      FrontierCounts(level, m', s, i);
    }
    ReplaceKid(level, n, m, s, k, m');
  }

  // ------------------------------------------------------ the four tree walks

  /** Where one step of a walk to a held position leads: into a slot that holds
      `c` elements, with `Rel(level - 5, index)` of them before the target. */
  lemma {:induction false} Locate(level: nat, m: nat, index: nat, s: nat, c: nat)
    requires level >= 5 && Rel(level, index) < m
    requires s == SubIndex(index, level) && c == Clamp(m - Start(level, s), Pow2(level))
    ensures Rel(level, index) == Start(level, s) + Rel(level - 5, index)
    ensures Rel(level - 5, index) < c && Start(level, s) + c <= m
  {
    RelBound(level - 5, index);
  }

  lemma Middle<T>(p: seq<T>, k: seq<T>, q: seq<T>, b: nat, e: nat)
    requires b <= e <= |k|
    ensures (p + k + q)[|p| + b..|p| + e] == k[b..e]
  {}

  lemma MiddleUpdate<T>(p: seq<T>, k: seq<T>, q: seq<T>, i: nat, x: T)
    requires i < |k|
    ensures (p + k + q)[|p| + i := x] == p + k[i := x] + q
  {}

  /** A slot before the end of a packed node, as a piece of its contents. */
  lemma {:induction false} SlotOf<T>(level: nat, n: Tree<T>, m: nat, s: nat, c: nat)
    requires level >= 5 && Packed(level, n, m) && s < 32
    requires c == Clamp(m - Start(level, s), Pow2(level)) && c > 0
    ensures n.kids[s].Sub? && Packed(level - 5, n.kids[s].tree, c)
    ensures |FlattenKids(n.kids[..s])| == Start(level, s)
    ensures Flatten(n) == FlattenKids(n.kids[..s]) + Flatten(n.kids[s].tree) + FlattenKids(n.kids[s + 1..])
  {
    assert PackedKid(level, n.kids[s], c);
    PackedPrefix(level, n, m, s);
    FlattenSplit(n.kids, s);
  }

  lemma LeafForStep<T>(level: nat, n: Tree<T>, index: nat, k: seq<T>, p: seq<T>, q: seq<T>, b: nat, at: nat)
    requires level >= 5 && at == |p| + b && Reaches(level, n, index) && b + 32 <= |k|
    requires LeafFor(level - 5, n.kids[SubIndex(index, level)].tree, index) == k[b..b + 32]
    requires Flatten(n) == p + k + q
    ensures at + 32 <= |Flatten(n)| && LeafFor(level, n, index) == Flatten(n)[at..at + 32]
  {
    Middle(p, k, q, b, b + 32);
  }

  /** The walk to a position held by a packed node meets no null, and ends at
      the 32 consecutive elements that contain it. */
  lemma {:induction false} LeafForFlatten<T>(level: nat, n: Tree<T>, m: nat, index: nat, at: int)
    requires Packed(level, n, m) && Rel(level, index) < m
    requires at == Rel(level, index) - index % 32
    ensures Reaches(level, n, index)
    ensures 0 <= at && at + 32 <= m == |Flatten(n)|
    ensures LeafFor(level, n, index) == Flatten(n)[at..at + 32]
    decreases level
  {
    PackedSize(level, n, m);
    if level > 0 {
      var s := SubIndex(index, level);
      var c := Clamp(m - Start(level, s), Pow2(level));
      Locate(level, m, index, s, c);
      SlotOf(level, n, m, s, c);
      var b := Rel(level - 5, index) - index % 32;
      LeafForFlatten(level - 5, n.kids[s].tree, c, index, b);
      LeafForStep(level, n, index, Flatten(n.kids[s].tree), FlattenKids(n.kids[..s]), FlattenKids(n.kids[s + 1..]), b,
          at);
    }
  }

  /** `do_assoc` changes one position and nothing else. */
  lemma {:induction false} DoAssocFlatten<T>(level: nat, n: Tree<T>, m: nat, index: nat, value: T)
    requires Packed(level, n, m) && Rel(level, index) < m
    ensures Reaches(level, n, index) && |Flatten(n)| == m
    ensures Packed(level, DoAssoc(level, n, index, value), m)
    ensures Flatten(DoAssoc(level, n, index, value)) == Flatten(n)[Rel(level, index) := value]
    decreases level
  {
    PackedSize(level, n, m);
    if level > 0 {
      var s := SubIndex(index, level);
      var c := Clamp(m - Start(level, s), Pow2(level));
      Locate(level, m, index, s, c);
      SlotOf(level, n, m, s, c);
      var t := n.kids[s].tree;
      DoAssocFlatten(level - 5, t, c, index, value);
      ReplaceKid(level, n, m, s, Sub(DoAssoc(level - 5, t, index, value)), m);
      MiddleUpdate(FlattenKids(n.kids[..s]), Flatten(t), FlattenKids(n.kids[s + 1..]), Rel(level - 5, index), value);
    }
  }

  lemma {:induction false} NewPathFlatten<T>(level: nat, slots: seq<T>)
    requires |slots| == 32 && IsLevel(level)
    ensures Packed(level, NewPath(level, Leaf(slots)), 32)
    ensures Flatten(NewPath(level, Leaf(slots))) == slots
    decreases level
  {
    if level >= 5 {
      NewPathFlatten(level - 5, slots);
      FirstSlot(level, Sub(NewPath(level - 5, Leaf(slots))));
    }
  }

  lemma {:induction false} FirstSlot<T>(level: nat, k: Kid<T>)
    requires level >= 5 && PackedKid(level, k, 32)
    ensures Packed(level, Branch(NoKids()[0 := k]), 32)
    ensures Flatten(Branch(NoKids()[0 := k])) == FlattenKid(k)
  {
    EmptyPacked<T>(level);
    Pow2Five(level - 5);
    FrontierReplace(level, Branch(NoKids()), 0, 0, k, 32);
    Nothing(FlattenKids(NoKids()[..0]), FlattenKid(k));
  }

  lemma EmptyPacked<T>(level: nat)
    requires level >= 5
    ensures Packed<T>(level, Branch(NoKids()), 0) && Flatten<T>(Branch(NoKids())) == []
  {
    FlattenHoles<T>(NoKids());
  }

  /** A frontier slot that gains a leaf. */
  lemma {:induction false} AppendAtFrontier<T>(level: nat, n: Tree<T>, m: nat, s: nat, k: Kid<T>, slots: seq<T>)
    requires level >= 5 && Packed(level, n, m) && Frontier(level, m, s) && Frontier(level, m + 32, s)
    requires PackedKid(level, k, m + 32 - Start(level, s))
    requires FlattenKid(k) == FlattenKid(n.kids[s]) + slots
    ensures Packed(level, Branch(n.kids[s := k]), m + 32)
    ensures Flatten(Branch(n.kids[s := k])) == Flatten(n) + slots
  {
    FrontierReplace(level, n, m, s, k, m + 32);
    var p, q := FlattenKids(n.kids[..s]), FlattenKid(n.kids[s]);
    assert p + (q + slots) == (p + q) + slots;
  }

  lemma Nothing<T>(p: seq<T>, q: seq<T>)
    requires p == []
    ensures p + q == q
  {}

  lemma TakeBoth<T>(p: seq<T>, q: seq<T>, q': seq<T>)
    requires q' <= q
    ensures p + q' == (p + q)[..|p| + |q'|]
  {}

  /** `push_tail` appends a full leaf. */
  lemma {:induction false} PushTailFlatten<T>(level: nat, n: Tree<T>, m: nat, slots: seq<T>, index: nat)
    requires level >= 5 && IsLevel(level) && Packed(level, n, m) && |slots| == 32
    requires m + 32 <= Start(level, 32) && Rel(level, index) == m + 31 && index % 32 == 31
    ensures Room(level, n, index)
    ensures Packed(level, PushTail(level, n, Leaf(slots), index), m + 32)
    ensures Flatten(PushTail(level, n, Leaf(slots), index)) == Flatten(n) + slots
    decreases level
  {
    var s := SubIndex(index, level);
    RelBound(level - 5, index);
    var c := m - Start(level, s);
    assert c == Clamp(c, Pow2(level));
    assert PackedKid(level, n.kids[s], c);
    var k: Kid<T>;
    if level == 5 {
      assert Pow2(5) == 32;
      k := Sub(Leaf(slots));
      assert [] + slots == slots;
    } else if n.kids[s].Hole? {
      k := Sub(NewPath(level - 5, Leaf(slots)));
      NewPathFlatten(level - 5, slots);
      assert [] + slots == slots;
    } else {
      var t := n.kids[s].tree;
      StartWhole(level - 5);
      PushTailFlatten(level - 5, t, c, slots, index);
      k := Sub(PushTail(level - 5, t, Leaf(slots), index));
    }
    AppendAtFrontier(level, n, m, s, k, slots);
    assert PushTail(level, n, Leaf(slots), index) == Branch(n.kids[s := k]);
  }

  /** A frontier slot that loses its last leaf. */
  lemma {:induction false} TrimAtFrontier<T>(level: nat, n: Tree<T>, m: nat, s: nat, k: Kid<T>)
    requires level >= 5 && m >= 32 && Packed(level, n, m) && Frontier(level, m, s) && Frontier(level, m - 32, s)
    requires PackedKid(level, k, m - 32 - Start(level, s))
    requires FlattenKid(k) <= FlattenKid(n.kids[s])
    ensures Packed(level, Branch(n.kids[s := k]), m - 32)
    ensures |Flatten(n)| == m && Flatten(Branch(n.kids[s := k])) == Flatten(n)[..m - 32]
  {
    PackedSize(level, n, m);
    FrontierReplace(level, n, m, s, k, m - 32);
    PackedKidSize(level, k, m - 32 - Start(level, s));
    TakeBoth(FlattenKids(n.kids[..s]), FlattenKid(n.kids[s]), FlattenKid(k));
  }

  /** `pop_tail` drops the last leaf, answering null when it was the only one. */
  lemma {:induction false} PopTailFlatten<T>(level: nat, n: Tree<T>, m: nat, index: nat)
    requires level >= 5 && Packed(level, n, m) && m > 0
    requires Rel(level, index) == m - 1 && index % 32 == 31
    ensures Reaches(level, n, index) && |Flatten(n)| == m
    ensures m == 32 ==> PopTail(level, n, index) == Hole
    ensures m > 32 ==> PopTail(level, n, index).Sub?
    ensures m > 32 ==> Packed(level, PopTail(level, n, index).tree, m - 32)
    ensures m > 32 ==> Flatten(PopTail(level, n, index).tree) == Flatten(n)[..m - 32]
    decreases level
  {
    LeafForFlatten(level, n, m, index, Rel(level, index) - index % 32);
    var s := SubIndex(index, level);
    RelBound(level - 5, index);
    var c := m - Start(level, s);
    assert c == Clamp(c, Pow2(level));
    assert PackedKid(level, n.kids[s], c);
    var t := n.kids[s].tree;
    PackedSize(level - 5, t, c);
    if s > 0 { StartMonotone(level, 0, s); }
    if level > 5 {
      PopTailFlatten(level - 5, t, c, index);
      var child := PopTail(level - 5, t, index);
      if !(child.Hole? && s == 0) {
        TrimAtFrontier(level, n, m, s, child);
      }
    } else {
      assert Pow2(5) == 32;
      if s > 0 {
        TrimAtFrontier(level, n, m, s, Hole);
      }
    }
  }

  // ------------------------------------------------------------ the vector API

  function Empty<T>(): Vector<T> { Vector(0, 5, Branch(NoKids()), []) }

  /** Whether the trie is full, so that one more leaf needs a new root:
      `(count >> 5) > (1 << shift)`. */
  predicate RootFull<T>(v: Vector<T>) { Shr(v.count, 5) > Pow2(v.shift) }

  function Get<T>(v: Vector<T>, index: int): (r: Option<T>)
    requires Valid(v)
    ensures r == if 0 <= index < |View(v)| then Some(View(v)[index]) else None
  {
    ViewSize(v);
    if index < 0 || index >= v.count then None
    else
      ArrayForView(v, index);
      Some(ArrayFor(v, index)[index % 32])
  }

  /** The 32 (or, in the tail, fewer) elements that hold `index`. */
  function ArrayFor<T>(v: Vector<T>, index: nat): (slots: seq<T>)
    requires Valid(v) && index < v.count
  {
    if index >= TailOffset(v.count) then v.tail
    else
      TailOffsetIs(v);
      InTrie(v, index);
      LeafFor(v.shift, v.root, index)
  }

  lemma ArrayForView<T>(v: Vector<T>, index: nat)
    requires Valid(v) && index < v.count
    ensures var b, slots := index - index % 32, ArrayFor(v, index);
            b + |slots| <= |View(v)| && index % 32 < |slots| && slots == View(v)[b..b + |slots|]
  {
    TailOffsetIs(v);
    ViewSize(v);
    if index >= Body(v) {
      TailDigit(v, index);
    } else {
      InTrie(v, index);
    }
  }

  lemma TailDigit<T>(v: Vector<T>, index: nat)
    requires Valid(v) && Body(v) <= index < v.count
    ensures index - index % 32 == Body(v)
  {
    AlignedIs(Body(v));
  }

  lemma InTrie<T>(v: Vector<T>, index: nat)
    requires Valid(v) && index < Body(v)
    ensures Reaches(v.shift, v.root, index) && Rel(v.shift, index) == index
    ensures var b := index - index % 32;
            b + 32 <= |Flatten(v.root)| && LeafFor(v.shift, v.root, index) == Flatten(v.root)[b..b + 32]
  {
    RelWhole(v.shift, index);
    LeafForFlatten(v.shift, v.root, Body(v), index, index - index % 32);
  }

  lemma ViewSize<T>(v: Vector<T>)
    requires Valid(v)
    ensures |Flatten(v.root)| == Body(v) && |View(v)| == v.count
  {
    PackedSize(v.shift, v.root, Body(v));
  }

  // ------------------------------------------------------------------- push

  function Push<T>(v: Vector<T>, value: T): (r: Outcome<Vector<T>>)
    requires Valid(v)
    ensures v.count == MAX_I32 ==> r == Trap
    ensures v.count < MAX_I32 ==> r.Done? && Valid(r.value) && View(r.value) == View(v) + [value]
  {
    if v.count == MAX_I32 then Trap
    else if |v.tail| < 32 then
      ConcatAssociates(Flatten(v.root), v.tail, [value]);
      Done(Vector(v.count + 1, v.shift, v.root, v.tail + [value]))
    else if RootFull(v) then
      GrowRoot(v, value);
      Done(Vector(v.count + 1, v.shift + 5, GrownRoot(v.shift, v.root, Leaf(v.tail)), [value]))
    else
      PushLeaf(v, value);
      Done(Vector(v.count + 1, v.shift, PushTail(v.shift, v.root, Leaf(v.tail), v.count - 1), [value]))
  }

  function GrownRoot<T>(shift: nat, root: Tree<T>, leaf: Tree<T>): Tree<T> {
    Branch(NoKids()[0 := Sub(root)][1 := Sub(NewPath(shift, leaf))])
  }

  lemma BodyFits<T>(v: Vector<T>)
    requires Valid(v)
    ensures 0 <= Body(v) <= Start(v.shift, 32)
  {
    AlignedIs(Body(v));
  }

  /** The shift test asks exactly whether the tail's leaf has no room left. */
  lemma RootFullMeansFull<T>(v: Vector<T>)
    requires Valid(v) && |v.tail| == 32
    ensures RootFull(v) ==> Body(v) == Start(v.shift, 32)
    ensures !RootFull(v) ==> v.count <= Start(v.shift, 32)
    ensures (v.count - 1) % 32 == 31 && Aligned(v.count)
  {
    hide Packed;
    AlignedIs(v.count);
    BodyFits(v);
    StartWhole(v.shift);
    Pow2Five(v.shift);
    LastLeafFits(Body(v), Pow2(v.shift));
    FullTailCount(v.count, Pow2(v.shift));
  }

  /** Between a packed length and the capacity there is room for whole leaves only. */
  lemma LastLeafFits(m: nat, p: nat)
    requires m % 32 == 0 && m <= 32 * p
    ensures m + 32 > 32 * p ==> m == 32 * p
  {
    var q := m / 32;
    assert m == 32 * q;
  }

  lemma FullTailCount(count: nat, p: nat)
    requires count % 32 == 0 && count > 0
    ensures Shr(count, 5) > p <==> count > 32 * p
    ensures Shr(count, 5) <= p ==> count <= 32 * p
    ensures (count - 1) % 32 == 31
  {
    ShrIsDivision(count, 5);
    assert Pow2(5) == 32;
  }

  lemma PushLeaf<T>(v: Vector<T>, value: T)
    requires Valid(v) && |v.tail| == 32 && !RootFull(v) && v.count < MAX_I32
    ensures IsLevel(v.shift) && v.count > 0
    ensures Room(v.shift, v.root, v.count - 1)
    ensures var v' := Vector(v.count + 1, v.shift, PushTail(v.shift, v.root, Leaf(v.tail), v.count - 1), [value]);
            Valid(v') && View(v') == View(v) + [value]
  {
    hide Packed, Flatten, PushTail, Room, RootFull, Rel;
    RootFullMeansFull(v);
    RelWhole(v.shift, v.count - 1);
    PushTailFlatten(v.shift, v.root, Body(v), v.tail, v.count - 1);
  }

  lemma GrowRoot<T>(v: Vector<T>, value: T)
    requires Valid(v) && |v.tail| == 32 && RootFull(v) && v.count < MAX_I32
    ensures IsLevel(v.shift) && v.count > 0
    ensures var v' := Vector(v.count + 1, v.shift + 5, GrownRoot(v.shift, v.root, Leaf(v.tail)), [value]);
            Valid(v') && View(v') == View(v) + [value]
  {
    hide Packed, Flatten, NewPath, RootFull;
    RootFullMeansFull(v);
    StartWhole(v.shift);
    NewPathFlatten(v.shift, v.tail);
    TwoSlots(v.shift + 5, Sub(v.root), Sub(NewPath(v.shift, Leaf(v.tail))));
  }

  lemma {:induction false} TwoSlots<T>(level: nat, a: Kid<T>, b: Kid<T>)
    requires level >= 5 && PackedKid(level, a, Pow2(level)) && PackedKid(level, b, 32)
    ensures Packed(level, Branch(NoKids()[0 := a][1 := b]), Pow2(level) + 32)
    ensures Flatten(Branch(NoKids()[0 := a][1 := b])) == FlattenKid(a) + FlattenKid(b)
  {
    var n := Branch(NoKids<T>()[0 := a]);
    Pow2Five(level - 5);
    EmptyPacked<T>(level);
    FrontierReplace(level, Branch(NoKids()), 0, 0, a, Pow2(level));
    Nothing(FlattenKids(NoKids<T>()[..0]), FlattenKid(a));
    FrontierReplace(level, n, Pow2(level), 1, b, Pow2(level) + 32);
    assert n.kids[..1] == [a];
    FlattenOne(a);
  }

  // ------------------------------------------------------------------ assoc

  function Assoc<T(==)>(v: Vector<T>, index: int, value: T): (r: Outcome<Vector<T>>)
    requires Valid(v)
    ensures r == Trap <==> index < 0 || index > v.count || (index == v.count == MAX_I32)
    ensures r.Done? ==> Valid(r.value) && v.count == |View(v)|
    ensures r.Done? ==> View(r.value) == if index == v.count then View(v) + [value] else View(v)[index := value]
  {
    ViewSize(v);
    TailOffsetIs(v);
    if index == v.count then Push(v, value)
    else if index < 0 || index >= v.count then Trap
    else if index >= TailOffset(v.count) then
      TailSet(v, index, value);
      if v.tail[index % 32] == value then Done(v) else Done(v.(tail := v.tail[index % 32 := value]))
    else
      TrieSet(v, index, value);
      Done(v.(root := DoAssoc(v.shift, v.root, index, value)))
  }

  lemma TailSet<T>(v: Vector<T>, index: nat, value: T)
    requires Valid(v) && Body(v) <= index < v.count
    ensures index % 32 < |v.tail| && index < |View(v)|
    ensures var v' := v.(tail := v.tail[index % 32 := value]);
      Valid(v') && View(v') == View(v)[index := value] && (v.tail[index % 32] == value ==> v' == v)
  {
    hide Packed;
    TailDigit(v, index);
    ViewSize(v);
    assert Flatten(v.root) + v.tail[index % 32 := value] == View(v)[index := value];
  }

  lemma TrieSet<T>(v: Vector<T>, index: nat, value: T)
    requires Valid(v) && index < Body(v)
    ensures Reaches(v.shift, v.root, index) && index < |View(v)|
    ensures var v' := v.(root := DoAssoc(v.shift, v.root, index, value));
      Valid(v') && View(v') == View(v)[index := value]
  {
    hide Packed, DoAssoc, Flatten;
    InTrie(v, index);
    ViewSize(v);
    DoAssocFlatten(v.shift, v.root, Body(v), index, value);
    assert Flatten(v.root)[index := value] + v.tail == View(v)[index := value];
  }

  // -------------------------------------------------------------------- pop

  function Pop<T>(v: Vector<T>): (r: Outcome<Vector<T>>)
    requires Valid(v)
    ensures v.count == 0 <==> r == Trap
    ensures v.count > 0 ==> v.count == |View(v)| && Valid(r.value) && View(r.value) == View(v)[..v.count - 1]
  {
    ViewSize(v);
    if v.count == 0 then Trap
    else if v.count == 1 then
      EmptyIsValid<T>();
      Done(Empty())
    else if |v.tail| > 1 then
      TailCut(v);
      Done(Vector(v.count - 1, v.shift, v.root, v.tail[..|v.tail| - 1]))
    else
      PopLeaf(v);
      Done(LastLeafToTail(v))
  }

  lemma TailCut<T>(v: Vector<T>)
    requires Valid(v) && |v.tail| > 1
    ensures v.count > 0 && |View(v)| == v.count
    ensures var v' := Vector(v.count - 1, v.shift, v.root, v.tail[..|v.tail| - 1]);
      Valid(v') && View(v') == View(v)[..v.count - 1]
  {
    hide Packed, Flatten;
    ViewSize(v);
    assert Flatten(v.root) + v.tail[..|v.tail| - 1] == View(v)[..v.count - 1];
  }

  function LastLeafToTail<T>(v: Vector<T>): Vector<T>
    requires Valid(v) && v.count > 1 && |v.tail| == 1
  {
    RootAfterPopPacked(v);
    Collapsed(v.count - 1, v.shift, RootAfterPop(v), ArrayFor(v, v.count - 2))
  }

  function Collapsed<T>(count: nat, shift: nat, root: Tree<T>, tail: seq<T>): Vector<T>
    requires shift > 5 ==> root.Branch? && |root.kids| == 32 && root.kids[0].Sub?
  {
    if shift > 5 && root.kids[1].Hole? then Vector(count, shift - 5, root.kids[0].tree, tail)
    else Vector(count, shift, root, tail)
  }

  function RootAfterPop<T>(v: Vector<T>): Tree<T>
    requires Valid(v) && v.count > 1 && |v.tail| == 1
  {
    PopIndex(v);
    RootOf(PopTail(v.shift, v.root, v.count - 2))
  }

  function RootOf<T>(shrunk: Kid<T>): Tree<T> {
    match shrunk
    case Hole => Branch(NoKids())
    case Sub(t) => t
  }

  lemma PopIndex<T>(v: Vector<T>)
    requires Valid(v) && v.count > 1 && |v.tail| == 1
    ensures v.count >= 33 && (v.count - 2) % 32 == 31 && |Flatten(v.root)| == v.count - 1
    ensures Aligned(v.count - 33)
    ensures Reaches(v.shift, v.root, v.count - 2) && Rel(v.shift, v.count - 2) == v.count - 2
    ensures ArrayFor(v, v.count - 2) == Flatten(v.root)[v.count - 33..v.count - 1]
  {
    hide Packed, Flatten, Reaches;
    AlignedIs(Body(v));
    ViewSize(v);
    TailOffsetIs(v);
    InTrie(v, v.count - 2);
  }

  lemma RootAfterPopPacked<T>(v: Vector<T>)
    requires Valid(v) && v.count > 1 && |v.tail| == 1
    ensures v.count >= 33 && |Flatten(v.root)| == v.count - 1
    ensures Packed(v.shift, RootAfterPop(v), v.count - 33)
    ensures Flatten(RootAfterPop(v)) == Flatten(v.root)[..v.count - 33]
    ensures v.shift > 5 ==> v.count - 33 >= Pow2(v.shift) && RootAfterPop(v).kids[0].Sub?
  {
    hide Packed, Flatten, PopTail, ArrayFor, Reaches, LeafFor, Rel;
    PopIndex(v);
    PopRoot(v.shift, v.root, v.count - 1, v.count - 2);
    assert RootAfterPop(v) == RootOf(PopTail(v.shift, v.root, v.count - 2));
    if v.shift > 5 { AlignedGap(v.count - 1, v.shift); }
  }

  lemma PopRoot<T>(shift: nat, root: Tree<T>, m: nat, index: nat)
    requires shift >= 5 && Packed(shift, root, m) && m >= 32 && Rel(shift, index) == m - 1 && index % 32 == 31
    ensures Reaches(shift, root, index) && |Flatten(root)| == m
    ensures Packed(shift, RootOf(PopTail(shift, root, index)), m - 32)
    ensures Flatten(RootOf(PopTail(shift, root, index))) == Flatten(root)[..m - 32]
    ensures shift > 5 && m - 32 >= Pow2(shift) ==> RootOf(PopTail(shift, root, index)).kids[0].Sub?
  {
    PopTailFlatten(shift, root, m, index);
    EmptyPacked<T>(shift);
    if shift > 5 && m - 32 >= Pow2(shift) {
      AfterLastLeaf(shift, RootOf(PopTail(shift, root, index)), m - 32);
    }
  }

  lemma AlignedGap(m: int, shift: nat)
    requires shift >= 5 && Aligned(m) && m > Pow2(shift)
    ensures m - 32 >= Pow2(shift)
  {
    AlignedIs(m);
    AlignedPow(shift);
  }

  /** After the last leaf has become the tail, the trie is packed up to it; it
      loses a level exactly when one slot of the root would be left. */
  lemma PopLeaf<T>(v: Vector<T>)
    requires Valid(v) && v.count > 1 && |v.tail| == 1
    ensures |View(v)| == v.count
    ensures Valid(LastLeafToTail(v)) && View(LastLeafToTail(v)) == View(v)[..v.count - 1]
  {
    hide Packed, Flatten, PopTail, ArrayFor, Reaches, Rel, Collapsed;
    PopIndex(v);
    RootAfterPopPacked(v);
    Rejoin(Flatten(v.root), v.tail, v.count - 33);
    CollapseRoot(v.count - 1, v.shift, RootAfterPop(v), v.count - 33, ArrayFor(v, v.count - 2));
  }

  /** What `pop` does when the tail has one element, in terms of the trie alone. */
  lemma PopLeafPlan<T>(v: Vector<T>)
    requires Valid(v) && v.count > 1 && |v.tail| == 1
    ensures v.shift >= 5 && IsLevel(v.shift) && Reaches(v.shift, v.root, v.count - 2)
    ensures var root := RootOf(PopTail(v.shift, v.root, v.count - 2));
      && (v.shift > 5 ==> root.Branch? && |root.kids| == 32 && root.kids[0].Sub?)
      && Valid(Collapsed(v.count - 1, v.shift, root, LeafFor(v.shift, v.root, v.count - 2)))
      && Pop(v) == Done(Collapsed(v.count - 1, v.shift, root, LeafFor(v.shift, v.root, v.count - 2)))
  {
    PopIndex(v);
    RootAfterPopPacked(v);
    TailOffsetIs(v);
    PopLeaf(v);
  }

  lemma CollapseRoot<T>(count: nat, shift: nat, root: Tree<T>, m: nat, tail: seq<T>)
    requires count == m + 32 <= MAX_I32 && |tail| == 32 && Aligned(m)
    requires shift >= 5 && IsLevel(shift) && Packed(shift, root, m)
    requires shift > 5 ==> m >= Pow2(shift)
    ensures shift > 5 ==> root.kids[0].Sub?
    ensures Valid(Collapsed(count, shift, root, tail))
    ensures View(Collapsed(count, shift, root, tail)) == Flatten(root) + tail
  {
    hide Flatten;
    if shift > 5 {
      AfterLastLeaf(shift, root, m);
      Pow2Five(shift - 5);
    }
  }

  lemma Rejoin<T>(f: seq<T>, tail: seq<T>, m: nat)
    requires |f| == m + 32 && |tail| == 1
    ensures f[..m] + f[m..m + 32] == (f + tail)[..m + 32]
  {}

  lemma AfterLastLeaf<T>(level: nat, root: Tree<T>, m: nat)
    requires level >= 10 && Packed(level, root, m) && m >= Pow2(level)
    ensures root.kids[0].Sub? && Packed(level - 5, root.kids[0].tree, Pow2(level))
    ensures root.kids[1].Sub? <==> m > Pow2(level)
    ensures root.kids[1].Hole? ==> m == Pow2(level) && Flatten(root.kids[0].tree) == Flatten(root)
  {
    assert Start(level, 1) == Pow2(level);
    assert PackedKid(level, root.kids[0], Pow2(level));
    assert PackedKid(level, root.kids[1], Clamp(m - Pow2(level), Pow2(level)));
    if root.kids[1].Hole? {
      FrontierFlatten(level, root, m, 0);
      Nothing(FlattenKids(root.kids[..0]), FlattenKid(root.kids[0]));
    }
  }

  // ------------------------------------------------------- reading and runs

  function Peek<T>(v: Vector<T>): (r: Option<T>)
    requires Valid(v)
    ensures r == if View(v) == [] then None else Some(View(v)[|View(v)| - 1])
  {
    ViewSize(v);
    if v.count == 0 then None else Some(v.tail[|v.tail| - 1])
  }

  /** `each` visits every index once, in order, with the element it holds. */
  method Each<T>(v: Vector<T>) returns (seen: seq<(nat, T)>)
    requires Valid(v)
    ensures |seen| == |View(v)|
    ensures forall i :: 0 <= i < |seen| ==> seen[i] == (i, View(v)[i])
  {
    ViewSize(v);
    seen := [];
    for i := 0 to v.count
      invariant |seen| == i
      invariant forall j :: 0 <= j < i ==> seen[j] == (j, View(v)[j])
    {
      var r := Get(v, i);
      seen := seen + [(i, r.value)];
    }
  }

  /** No shift in the code ever reaches 31 bits, so none of them wraps. */
  lemma ShiftBound<T>(v: Vector<T>)
    requires Valid(v)
    ensures v.shift <= 30
  {
    if v.shift > 30 {
      Pow2Monotone(31, v.shift);
      Pow2Values();
    }
  }

  datatype Op<T> = OpPush(value: T) | OpAssoc(index: int, value: T) | OpPop

  function Step<T(==)>(v: Vector<T>, op: Op<T>): Outcome<Vector<T>>
    requires Valid(v)
  {
    match op
    case OpPush(x) => Push(v, x)
    case OpAssoc(i, x) => Assoc(v, i, x)
    case OpPop => Pop(v)
  }

  /** What each operation means for a sequence of at most 2^31 - 1 elements. */
  function SeqStep<T>(s: seq<T>, op: Op<T>): Outcome<seq<T>> {
    match op
    case OpPush(x) => if |s| >= MAX_I32 then Trap else Done(s + [x])
    case OpAssoc(i, x) =>
      if i == |s| < MAX_I32 then Done(s + [x])
      else if 0 <= i < |s| then Done(s[i := x])
      else Trap
    case OpPop => if |s| == 0 then Trap else Done(s[..|s| - 1])
  }

  ghost function Run<T>(v: Vector<T>, ops: seq<Op<T>>): Outcome<Vector<T>>
    requires Valid(v)
    decreases |ops|
  {
    if ops == [] then Done(v)
    else
      var r := Step(v, ops[0]);
      if r.Trap? then Trap else
        StepRefines(v, ops[0]);
        Run(r.value, ops[1..])
  }

  ghost function SeqRun<T>(s: seq<T>, ops: seq<Op<T>>): Outcome<seq<T>>
    decreases |ops|
  {
    if ops == [] then Done(s)
    else
      var r := SeqStep(s, ops[0]);
      if r.Trap? then Trap else SeqRun(r.value, ops[1..])
  }

  lemma StepRefines<T>(v: Vector<T>, op: Op<T>)
    requires Valid(v)
    ensures Step(v, op).Trap? <==> SeqStep(View(v), op).Trap?
    ensures Step(v, op).Done? ==> Valid(Step(v, op).value) && Done(View(Step(v, op).value)) == SeqStep(View(v), op)
  {
    ViewSize(v);
  }

  /** Every vector any run of operations reaches is packed and represents the
      sequence the same run builds, and it traps exactly where that run must. */
  lemma {:induction false} RunRefines<T>(v: Vector<T>, ops: seq<Op<T>>)
    requires Valid(v)
    ensures Run(v, ops).Trap? <==> SeqRun(View(v), ops).Trap?
    ensures Run(v, ops).Done? ==> Valid(Run(v, ops).value) && Done(View(Run(v, ops).value)) == SeqRun(View(v), ops)
    decreases |ops|
  {
    if ops != [] {
      StepRefines(v, ops[0]);
      var r := Step(v, ops[0]);
      if r.Done? { RunRefines(r.value, ops[1..]); }
    }
  }

  lemma EmptyIsValid<T>()
    ensures Valid(Empty<T>()) && View(Empty<T>()) == []
  {
    hide Flatten;
    EmptyPacked<T>(5);
  }
}
