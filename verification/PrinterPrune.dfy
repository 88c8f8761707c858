// Collapsing runs of breaks, in place.
//
// The places a pruning may rewrite are the breaks of the tree, numbered as they come
// in the document: cells. Everything else in the tree stays as it is.
module PrinterPrune {
  import opened Outcomes
  import opened PrinterTree

  datatype Cell = CBrk(strength: Strength) | CSpaces(width: int) | CNop

  datatype Skel = KText(width: nat, text: string) | KBrk(cell: nat) | KGroup(kind: Kind, id: nat, body: seq<Skel>)
                | KNest(indent: int, body: seq<Skel>) | KIfBroken(body: seq<Skel>) | KNop

  function Rank(s: Strength): nat {
    match s case Cut => 0 case Space => 1 case Newline => 2 case BlankLine => 3
  }

  /** A cut is the weakest break, an empty line the strongest, and a line end is
      stronger than a space. */
  predicate AtMost(s: Strength, t: Strength) {
    s == t || s.Cut? || t.BlankLine? || (s.Space? && t.Newline?)
  }

  // ---------------------------------------------------------- document order

  /** What a walk meets: texts, breaks and the openings of groups. */
  datatype Leaf = LText | LBrk(cell: nat) | LOpen

  function Leaves(ks: seq<Skel>): seq<Leaf> {
    if ks == [] then [] else LeavesOf(ks[0]) + Leaves(ks[1..])
  }

  function LeavesOf(k: Skel): seq<Leaf> {
    match k
    case KText(_, _) => [LText]
    case KBrk(c) => [LBrk(c)]
    case KGroup(_, _, body) => [LOpen] + Leaves(body)
    case KNest(_, body) => Leaves(body)
    case KIfBroken(body) => Leaves(body)
    case KNop => []
  }

  function Breaks(ls: seq<Leaf>): seq<nat> {
    if ls == [] then []
    else
      var last := |ls| - 1;
      Breaks(ls[..last]) + if ls[last].LBrk? then [ls[last].cell] else []
  }

  /** What lies between texts, from before the first to after the last. */
  function Split(ls: seq<Leaf>): (segs: seq<seq<Leaf>>)
    ensures |segs| > 0
  {
    if ls == [] then [[]]
    else
      var last := |ls| - 1;
      var segs := Split(ls[..last]);
      if ls[last].LText? then segs + [[]] else segs[|segs| - 1 := segs[|segs| - 1] + [ls[last]]]
  }

  /** The breaks are the cells from `n` on, in order. */
  ghost predicate From(ls: seq<Leaf>, n: nat) {
    forall i | 0 <= i < |Breaks(ls)| :: Breaks(ls)[i] == n + i
  }

  // ------------------------------------------------------------------ indents

  /** Where each break indents to, and what is pending at the end: the indent of the
      last break, if no text has followed it. */
  datatype Laid = Laid(indents: seq<int>, pending: Option<int>)

  /** A break indents to the base of its group and the nesting inside that group. */
  function Indents(ks: seq<Skel>, base: int, nest: int, pending: Option<int>): Laid {
    if ks == [] then Laid([], pending)
    else
      var a := IndentsOf(ks[0], base, nest, pending);
      var b := Indents(ks[1..], base, nest, a.pending);
      Laid(a.indents + b.indents, b.pending)
  }

  /** The base of a group is the pending indent; a group that follows a text counts
      from where it is itself. */
  function IndentsOf(k: Skel, base: int, nest: int, pending: Option<int>): Laid {
    match k
    case KText(_, _) => Laid([], None)
    case KBrk(_) => Laid([base + nest], Some(base + nest))
    case KGroup(_, _, body) => Indents(body, if pending.Some? then pending.value else 0, 0, pending)
    case KNest(i, body) => Indents(body, base, nest + i, pending)
    case KIfBroken(body) => Indents(body, base, nest, pending)
    case KNop => Laid([], pending)
  }

  /** There is an indent for every break. */
  lemma {:induction false} IndentsCount(ks: seq<Skel>, base: int, nest: int, pending: Option<int>)
    ensures |Indents(ks, base, nest, pending).indents| == |Breaks(Leaves(ks))|
    decreases ks
  {
    if ks != [] {
      IndentsCountOf(ks[0], base, nest, pending);
      IndentsCount(ks[1..], base, nest, IndentsOf(ks[0], base, nest, pending).pending);
      BreaksConcat(LeavesOf(ks[0]), Leaves(ks[1..]));
    }
  }

  lemma {:induction false} IndentsCountOf(k: Skel, base: int, nest: int, pending: Option<int>)
    ensures |IndentsOf(k, base, nest, pending).indents| == |Breaks(LeavesOf(k))|
    decreases k
  {
    hide Breaks, Leaves, Indents;
    NoBreaks();
    match k
    case KText(_, _) => BreaksNone(LText);
    case KBrk(c) => BreaksOne(c);
    case KGroup(_, _, body) =>
      BreaksNone(LOpen);
      BreaksConcat([LOpen], Leaves(body));
      IndentsCount(body, if pending.Some? then pending.value else 0, 0, pending);
    case KNest(i, body) => IndentsCount(body, base, nest + i, pending);
    case KIfBroken(body) => IndentsCount(body, base, nest, pending);
    case KNop =>
  }

  // -------------------------------------------------------- what pruning does

  ghost predicate Strongest(before: seq<Cell>, bs: seq<nat>, s: Strength) {
    && (exists b :: b in bs && b < |before| && before[b] == CBrk(s))
    && (forall b | b in bs :: b < |before| && before[b].CBrk? && AtMost(before[b].strength, s))
  }

  /** A group opens after a break of the segment. */
  ghost predicate OpensAfter(seg: seq<Leaf>) {
    exists p, q :: 0 <= p < q < |seg| && seg[p].LBrk? && seg[q].LOpen?
  }

  /** A group opens between two breaks of the segment. */
  ghost predicate OpensBetween(seg: seq<Leaf>) {
    exists p, q, r :: 0 <= p < q < r < |seg| && seg[p].LBrk? && seg[q].LOpen? && seg[r].LBrk?
  }

  /** The first break of the run is kept: a group opens between two of its breaks, and
      the last is not to the left of the first. */
  ghost predicate KeepsFirst(seg: seq<Leaf>, bs: seq<nat>, ind: seq<int>) {
    bs != [] && OpensBetween(seg) && Shift(bs, ind) >= 0
  }

  /** How much further to the right the last break of a run indents than the first. */
  function Shift(bs: seq<nat>, ind: seq<int>): int
    requires bs != []
  {
    Indent(ind, bs[|bs| - 1]) - Indent(ind, bs[0])
  }

  function Indent(ind: seq<int>, b: nat): int { if b < |ind| then ind[b] else 0 }

  function Get(cells: seq<Cell>, b: nat): Cell { if b < |cells| then cells[b] else CNop }

  /** One break is left, as strong as the strongest of the run: the first with the
      difference of the indents in spaces where the last was, or the last. */
  ghost predicate Settled(seg: seq<Leaf>, ind: seq<int>, before: seq<Cell>, after: seq<Cell>) {
    var bs := Breaks(seg);
    bs == [] || exists s :: Survives(seg, bs, s, ind, before, after)
  }

  ghost predicate Survives(seg: seq<Leaf>, bs: seq<nat>, s: Strength, ind: seq<int>, before: seq<Cell>,
      after: seq<Cell>)
    requires bs != []
  {
    && Strongest(before, bs, s)
    && forall i | 0 <= i < |bs| :: Get(after, bs[i]) == Left(seg, bs, i, s, ind)
  }

  /** What a run leaves of its break number `i`. */
  ghost function Left(seg: seq<Leaf>, bs: seq<nat>, i: nat, s: Strength, ind: seq<int>): Cell
    requires bs != []
  {
    if i == (if KeepsFirst(seg, bs, ind) then 0 else |bs| - 1) then CBrk(s)
    else if KeepsFirst(seg, bs, ind) && i == |bs| - 1 && Shift(bs, ind) > 0 then CSpaces(Shift(bs, ind))
    else CNop
  }

  ghost predicate Dropped(seg: seq<Leaf>, after: seq<Cell>) {
    forall b | b in Breaks(seg) :: Get(after, b) == CNop
  }

  /** No break before the first text or after the last, and between two texts one
      break exactly where there was any. */
  ghost predicate Pruned(ls: seq<Leaf>, ind: seq<int>, before: seq<Cell>, after: seq<Cell>) {
    var segs := Split(ls);
    && Dropped(segs[0], after) && Dropped(segs[|segs| - 1], after)
    && forall i | 0 < i < |segs| - 1 :: Settled(segs[i], ind, before, after)
  }

  // ---------------------------------------------------------------- the walk

  /** The segments but the last are as they should be, and lie below cell `lo`. */
  ghost predicate Behind(segs: seq<seq<Leaf>>, ind: seq<int>, before: seq<Cell>, after: seq<Cell>, lo: nat) {
    forall i | 0 <= i < |segs| - 1 ::
      && (if i == 0 then Dropped(segs[i], after) else Settled(segs[i], ind, before, after))
      && forall b | b in Breaks(segs[i]) :: b < lo
  }

  class Pruner {
    const cells: array<Cell>
    var run: seq<nat>
    var strength: Strength
    var seenText: bool
    var fb: int
    var nd: int
    var pend: int
    var origin: int
    var delta: int
    var groupOpened: bool
    var sawGroup: bool
    /** What has been walked, what the cells held at first, and where the run starts. */
    ghost var done: seq<Leaf>
    ghost const before: seq<Cell>
    ghost const ind: seq<int>
    ghost var lo: nat

    constructor (cells: array<Cell>, ghost ind: seq<int>)
      requires |ind| == cells.Length && forall b | 0 <= b < cells.Length :: cells[b].CBrk?
      ensures this.cells == cells && this.ind == ind && before == cells[..] && fresh(this)
      ensures Valid() && done == [] && Next() == 0 && Pending() == None && fb == nd == 0
    {
      this.cells := cells;
      run, strength, seenText := [], Cut, false;
      fb, nd, pend, origin, delta := 0, 0, 0, 0, 0;
      groupOpened, sawGroup := false, false;
      done, before, lo := [], cells[..], 0;
      this.ind := ind;
    }

    ghost function Segment(): seq<Leaf>
      reads this
    {
      Split(done)[|Split(done)| - 1]
    }

    ghost function Next(): nat
      reads this
    {
      lo + |run|
    }

    /** The indent the pending line would land at. */
    ghost function Pending(): Option<int>
      reads this
    {
      if run == [] then None else Some(pend)
    }

    /** The indents are those of the next breaks. */
    ghost predicate Ahead(indents: seq<int>)
      reads this
    {
      Next() + |indents| <= |ind| && forall i | 0 <= i < |indents| :: ind[Next() + i] == indents[i]
    }

    /** All but whether a text has been seen. */
    ghost predicate Running()
      reads this, cells
    {
      && |before| == |ind| == cells.Length && Next() <= cells.Length
      && (forall b | 0 <= b < |before| :: before[b].CBrk?)
      && (forall b | lo <= b < cells.Length :: cells[b] == before[b])
      && run == Breaks(Segment()) && (forall i | 0 <= i < |run| :: run[i] == lo + i)
      && Behind(Split(done), ind, before, cells[..], lo)
      && (run != [] ==>
        && Strongest(before, run, strength)
        && groupOpened == OpensBetween(Segment()) && sawGroup == OpensAfter(Segment())
        && origin == ind[lo] && pend == ind[lo + |run| - 1] && delta == pend - origin)
    }

    ghost predicate Valid()
      reads this, cells
    {
      Running() && seenText == (|Split(done)| > 1)
    }

    method Walk(items: seq<Skel>)
      requires Valid() && From(Leaves(items), Next()) && Next() + |Breaks(Leaves(items))| <= cells.Length
      requires Ahead(Indents(items, fb, nd, Pending()).indents)
      modifies this, cells
      ensures Valid() && done == old(done) + Leaves(items)
      ensures Next() == old(Next()) + |Breaks(Leaves(items))|
      ensures Pending() == old(Indents(items, fb, nd, Pending()).pending)
      ensures fb == old(fb) && nd == old(nd)
      decreases items, 0
    {
      hide LeavesOf, IndentsOf, Breaks, From, Split, Running;
      assert old(done) + [] == old(done);
      assert items[0..] == items;
      for i := 0 to |items|
        invariant Valid() && done + Leaves(items[i..]) == old(done) + Leaves(items)
        invariant From(Leaves(items[i..]), Next())
          && Next() + |Breaks(Leaves(items[i..]))| == old(Next()) + |Breaks(Leaves(items))|
        invariant fb == old(fb) && nd == old(nd)
        invariant Ahead(Indents(items[i..], fb, nd, Pending()).indents)
        invariant Indents(items[i..], fb, nd, Pending()).pending == old(Indents(items, fb, nd, Pending()).pending)
      {
        var rest := items[i..];
        assert rest[0] == items[i] && rest[1..] == items[i + 1..];
        WalkSplits(rest, fb, nd, Pending(), Next());
        ghost var was := done;
        Visit(items[i]);
        assert was + (LeavesOf(items[i]) + Leaves(items[i + 1..])) == was + LeavesOf(items[i]) + Leaves(items[i + 1..]);
      }
      assert items[|items|..] == [];
      NoBreaks();
    }

    /** What lies ahead, parted into the first item and the others. */
    lemma WalkSplits(rest: seq<Skel>, base: int, nest: int, pending: Option<int>, n: nat)
      requires rest != [] && n == Next() && From(Leaves(rest), n)
      requires Ahead(Indents(rest, base, nest, pending).indents)
      ensures From(LeavesOf(rest[0]), n) && Ahead(IndentsOf(rest[0], base, nest, pending).indents)
      ensures |Breaks(Leaves(rest))| == |Breaks(LeavesOf(rest[0]))| + |Breaks(Leaves(rest[1..]))|
      ensures var m, a := n + |Breaks(LeavesOf(rest[0]))|, IndentsOf(rest[0], base, nest, pending);
        && From(Leaves(rest[1..]), m) && m == n + |a.indents|
        && m + |Indents(rest[1..], base, nest, a.pending).indents| <= |ind|
        && (forall i | 0 <= i < |Indents(rest[1..], base, nest, a.pending).indents| ::
             ind[m + i] == Indents(rest[1..], base, nest, a.pending).indents[i])
        && Indents(rest, base, nest, pending).pending == Indents(rest[1..], base, nest, a.pending).pending
    {
      hide From, Breaks, LeavesOf, IndentsOf;
      var x, a := rest[0], IndentsOf(rest[0], base, nest, pending);
      var b := Indents(rest[1..], base, nest, a.pending);
      BreaksConcat(LeavesOf(x), Leaves(rest[1..]));
      FromParts(LeavesOf(x), Leaves(rest[1..]), n);
      IndentsCountOf(x, base, nest, pending);
      var all := Indents(rest, base, nest, pending).indents;
      assert all == a.indents + b.indents;
      forall i | 0 <= i < |b.indents| ensures ind[n + |a.indents| + i] == b.indents[i] {
        assert ind[n + (|a.indents| + i)] == all[|a.indents| + i];
      }
      forall i | 0 <= i < |a.indents| ensures ind[n + i] == a.indents[i] { assert ind[n + i] == all[i]; }
    }

    method Visit(n: Skel)
      requires Valid() && From(LeavesOf(n), Next()) && Next() + |Breaks(LeavesOf(n))| <= cells.Length
      requires Ahead(IndentsOf(n, fb, nd, Pending()).indents)
      modifies this, cells
      ensures Valid() && done == old(done) + LeavesOf(n)
      ensures Next() == old(Next()) + |Breaks(LeavesOf(n))|
      ensures Pending() == old(IndentsOf(n, fb, nd, Pending()).pending)
      ensures fb == old(fb) && nd == old(nd)
      decreases n, 1
    {
      hide Split, Breaks, Strongest, Behind, OpensBetween, OpensAfter, Rank, Leaves, Indents;
      match n
      case KText(_, _) => BreaksNone(LText); VisitText();
      case KBrk(c) =>
        BreaksOne(c);
        assert Breaks(LeavesOf(n))[0] == c;
        ghost var laid := IndentsOf(n, fb, nd, Pending()).indents;
        assert laid == [fb + nd] && ind[Next() + 0] == laid[0];
        VisitBreak(c);
      case KNest(indent, body) =>
        nd := nd + indent;
        Walk(body);
        nd := nd - indent;
      case KGroup(_, _, body) =>
        var outerBase, outerNest := fb, nd;
        BreaksConcat([LOpen], Leaves(body));
        BreaksNone(LOpen);
        FromParts([LOpen], Leaves(body), Next());
        ghost var was := done;
        VisitOpen();
        Walk(body);
        assert was + [LOpen] + Leaves(body) == was + ([LOpen] + Leaves(body));
        fb, nd := outerBase, outerNest;
      case KIfBroken(body) => Walk(body);
      case KNop =>
        assert done + [] == done;
        NoBreaks();
    }

    method VisitText()
      requires Valid()
      modifies this, cells
      ensures Valid() && done == old(done) + [LText] && Next() == old(Next()) && fb == old(fb) && nd == old(nd)
      ensures Pending() == None
    {
      ghost var segs := Split(done);
      Settle();
      seenText := true;
      done := done + [LText];
      assert done[..|done| - 1] == old(done);
      assert Split(done) == segs + [[]];
      lo := old(Next());
    }

    method VisitBreak(c: nat)
      requires Valid() && c == Next() < cells.Length && ind[c] == fb + nd
      modifies this
      ensures Valid() && done == old(done) + [LBrk(c)] && Next() == old(Next()) + 1 && fb == old(fb) && nd == old(nd)
      ensures Pending() == Some(fb + nd)
    {
      hide Split, Breaks, Strongest, Behind, OpensBetween, OpensAfter, Rank;
      ghost var segs, seg, was := Split(done), Segment(), strength;
      Mark(cells[c].strength);
      NoneOpens(seg);
      StrongestMore(before, run, was, c);
      run := run + [c];
      done := done + [LBrk(c)];
      SplitGrows(old(done), LBrk(c));
      BehindGrows(segs, seg + [LBrk(c)], ind, before, cells[..], lo);
      BreakOpens(seg, c);
    }

    /** A break makes the run stronger, and moves the indent the line would land at. */
    method Mark(s: Strength)
      modifies this`pend, this`strength, this`origin, this`sawGroup, this`groupOpened, this`delta
      ensures pend == fb + nd && delta == pend - origin && groupOpened == sawGroup
      ensures strength == if run == [] || Rank(s) > Rank(old(strength)) then s else old(strength)
      ensures origin == if run == [] then pend else old(origin)
      ensures sawGroup == (run != [] && old(sawGroup))
    {
      pend := fb + nd;
      if run == [] {
        strength := s;
        origin := pend;
        sawGroup := false;
      } else if Rank(s) > Rank(strength) {
        strength := s;
      }
      groupOpened := sawGroup;
      delta := pend - origin;
    }

    method VisitOpen()
      requires Valid()
      modifies this
      ensures Valid() && done == old(done) + [LOpen] && Next() == old(Next())
      ensures Pending() == old(Pending()) && nd == 0 && fb == if Pending().Some? then Pending().value else 0
    {
      hide Split, Breaks, Strongest, Behind, OpensBetween, OpensAfter;
      ghost var segs, seg := Split(done), Segment();
      if run != [] {
        sawGroup := true;
        fb := pend;
      } else {
        fb := 0;
      }
      nd := 0;
      done := done + [LOpen];
      SplitGrows(old(done), LOpen);
      BehindGrows(segs, seg + [LOpen], ind, before, cells[..], lo);
      if run != [] { GroupOpens(seg); }
    }

    /** A trailing run is dropped. */
    method Finish()
      requires Valid()
      modifies this, cells
      ensures Behind(Split(done), ind, before, cells[..], lo) && Dropped(Segment(), cells[..])
      ensures done == old(done)
    {
      hide Split, Breaks, OpensBetween, OpensAfter, Strongest, Behind, Rank;
      seenText := false;
      Settle();
    }

    /** Resolves the run into one break, or into none. */
    method Settle()
      requires Running()
      modifies this`run, cells
      ensures run == [] && |before| == cells.Length
      ensures forall b | old(Next()) <= b < cells.Length :: cells[b] == before[b]
      ensures Behind(Split(done), ind, before, cells[..], lo)
      ensures if old(seenText) then Settled(Segment(), ind, before, cells[..]) else Dropped(Segment(), cells[..])
      ensures forall b | b in Breaks(Segment()) :: b < old(Next())
    {
      hide Split, Breaks, OpensBetween, OpensAfter, Strongest, Behind, Rank;
      var last := |run| - 1;
      var keepFirst := groupOpened && delta >= 0;
      for j := 0 to |run|
        invariant run == old(run)
        invariant forall b | lo + j <= b < cells.Length :: cells[b] == before[b]
        invariant forall b | 0 <= b < lo :: cells[b] == old(cells[b])
        invariant forall i | 0 <= i < j :: cells[run[i]] == Result(i, |run|, seenText, keepFirst, delta, strength)
      {
        cells[run[j]] := Result(j, |run|, seenText, keepFirst, delta, strength);
      }
      ghost var was := old(cells[..]);
      BehindStays(Split(done), ind, before, was, cells[..], lo);
      if seenText && run != [] {
        assert keepFirst == KeepsFirst(Segment(), run, ind) && delta == Shift(run, ind);
        assert Survives(Segment(), run, strength, ind, before, cells[..]);
      }
      run := [];
    }
  }

  function Result(j: nat, n: nat, seenText: bool, keepFirst: bool, delta: int, strength: Strength): Cell {
    if !seenText then CNop
    else if keepFirst then (if j == 0 then CBrk(strength) else if j == n - 1 && delta > 0 then CSpaces(delta) else CNop)
    else if j == n - 1 then CBrk(strength)
    else CNop
  }

  /** A leaf that is no text goes to the last segment. */
  lemma SplitGrows(ls: seq<Leaf>, l: Leaf)
    requires !l.LText?
    ensures var segs := Split(ls);
      var seg := segs[|segs| - 1];
      && Split(ls + [l]) == segs[|segs| - 1 := seg + [l]]
      && Breaks(seg + [l]) == Breaks(seg) + if l.LBrk? then [l.cell] else []
  {
    assert (ls + [l])[..|ls|] == ls;
    var seg := Split(ls)[|Split(ls)| - 1];
    assert (seg + [l])[..|seg|] == seg;
  }

  lemma BehindGrows(segs: seq<seq<Leaf>>, seg: seq<Leaf>, ind: seq<int>, before: seq<Cell>, after: seq<Cell>, lo: nat)
    requires segs != [] && Behind(segs, ind, before, after, lo)
    ensures Behind(segs[|segs| - 1 := seg], ind, before, after, lo)
  {
    var more := segs[|segs| - 1 := seg];
    forall i | 0 <= i < |more| - 1 ensures more[i] == segs[i] {}
  }

  lemma StrongestMore(before: seq<Cell>, bs: seq<nat>, s: Strength, c: nat)
    requires bs != [] ==> Strongest(before, bs, s)
    requires c < |before| && before[c].CBrk?
    ensures Strongest(before, bs + [c],
                      if bs == [] || Rank(before[c].strength) > Rank(s) then before[c].strength else s)
  {
    assert c in bs + [c];
    if bs != [] {
      var b :| b in bs && b < |before| && before[b] == CBrk(s);
      assert b in bs + [c];
    }
  }

  lemma {:induction false} BreakIn(seg: seq<Leaf>) returns (p: nat)
    requires Breaks(seg) != []
    ensures p < |seg| && seg[p].LBrk?
  {
    if seg[|seg| - 1].LBrk? { p := |seg| - 1; } else { p := BreakIn(seg[..|seg| - 1]); }
  }

  /** Nothing has opened after a break where there is none. */
  lemma NoneOpens(seg: seq<Leaf>)
    ensures Breaks(seg) == [] ==> !OpensAfter(seg) && !OpensBetween(seg)
  {
    forall p | 0 <= p < |seg| && seg[p].LBrk? ensures Breaks(seg) != [] { BreakListed(seg, p); }
  }

  lemma {:induction false} BreakListed(seg: seq<Leaf>, p: nat)
    requires p < |seg| && seg[p].LBrk?
    ensures seg[p].cell in Breaks(seg)
  {
    if p < |seg| - 1 { BreakListed(seg[..|seg| - 1], p); }
  }

  /** A break is between groups and breaks as it follows them. */
  lemma BreakOpens(seg: seq<Leaf>, c: nat)
    ensures OpensBetween(seg + [LBrk(c)]) == OpensAfter(seg) == OpensAfter(seg + [LBrk(c)])
  {
    var more := seg + [LBrk(c)];
    if OpensAfter(seg) {
      var p, q :| 0 <= p < q < |seg| && seg[p].LBrk? && seg[q].LOpen?;
      assert more[p].LBrk? && more[q].LOpen? && more[|seg|].LBrk?;
    }
    if OpensAfter(more) {
      var p, q :| 0 <= p < q < |more| && more[p].LBrk? && more[q].LOpen?;
      assert seg[p].LBrk? && seg[q].LOpen?;
    }
    if OpensBetween(more) {
      var p, q, r :| 0 <= p < q < r < |more| && more[p].LBrk? && more[q].LOpen? && more[r].LBrk?;
      assert seg[p].LBrk? && seg[q].LOpen?;
    }
  }

  lemma GroupOpens(seg: seq<Leaf>)
    requires Breaks(seg) != []
    ensures OpensAfter(seg + [LOpen]) && OpensBetween(seg + [LOpen]) == OpensBetween(seg)
  {
    var p := BreakIn(seg);
    var more := seg + [LOpen];
    assert more[p].LBrk? && more[|seg|].LOpen?;
    if OpensBetween(seg) {
      var a, b, c :| 0 <= a < b < c < |seg| && seg[a].LBrk? && seg[b].LOpen? && seg[c].LBrk?;
      assert more[a].LBrk? && more[b].LOpen? && more[c].LBrk?;
    }
    if OpensBetween(more) {
      var a, b, c :| 0 <= a < b < c < |more| && more[a].LBrk? && more[b].LOpen? && more[c].LBrk?;
      assert seg[a].LBrk? && seg[b].LOpen? && seg[c].LBrk?;
    }
  }

  /** Settled segments are not touched by what happens above their cells. */
  lemma BehindStays(segs: seq<seq<Leaf>>, ind: seq<int>, before: seq<Cell>, was: seq<Cell>, after: seq<Cell>, lo: nat)
    requires Behind(segs, ind, before, was, lo) && |was| == |after| && lo <= |was| && was[..lo] == after[..lo]
    ensures Behind(segs, ind, before, after, lo)
  {
    forall i | 0 <= i < |segs| - 1 ensures
      && (if i == 0 then Dropped(segs[i], after) else Settled(segs[i], ind, before, after))
      && forall b | b in Breaks(segs[i]) :: b < lo
    {
      assert forall b | 0 <= b < lo :: was[b] == was[..lo][b] == after[b];
      var bs := Breaks(segs[i]);
      if i > 0 && bs != [] {
        var s :| Survives(segs[i], bs, s, ind, before, was);
        forall n | 0 <= n < |bs| ensures Get(after, bs[n]) == Get(was, bs[n]) { assert bs[n] in bs; }
        assert Survives(segs[i], bs, s, ind, before, after);
      }
    }
  }

  lemma {:induction false} BreaksConcat(a: seq<Leaf>, b: seq<Leaf>)
    ensures Breaks(a + b) == Breaks(a) + Breaks(b)
  {
    if b == [] {
      assert a + b == a;
    } else {
      var last := |b| - 1;
      assert (a + b)[..|a| + last] == a + b[..last];
      BreaksConcat(a, b[..last]);
    }
  }

  lemma NoBreaks()
    ensures Breaks([]) == []
  {}

  lemma BreaksOne(c: nat)
    ensures Breaks([LBrk(c)]) == [c]
  {
    assert [LBrk(c)][..0] == [];
  }

  lemma BreaksNone(l: Leaf)
    requires !l.LBrk?
    ensures Breaks([l]) == []
  {
    assert [l][..0] == [];
  }

  lemma FromJoin(a: seq<Leaf>, b: seq<Leaf>, n: nat)
    requires From(a, n) && From(b, n + |Breaks(a)|)
    ensures From(a + b, n) && Breaks(a + b) == Breaks(a) + Breaks(b)
  {
    hide Breaks;
    BreaksConcat(a, b);
  }

  lemma FromParts(a: seq<Leaf>, b: seq<Leaf>, n: nat)
    requires From(a + b, n)
    ensures From(a, n) && From(b, n + |Breaks(a)|)
  {
    hide Breaks;
    BreaksConcat(a, b);
    var bs := Breaks(a + b);
    forall i | 0 <= i < |Breaks(a)| ensures Breaks(a)[i] == n + i { assert bs[i] == Breaks(a)[i]; }
    forall i | 0 <= i < |Breaks(b)|
      ensures Breaks(b)[i] == n + |Breaks(a)| + i { assert bs[|Breaks(a)| + i] == Breaks(b)[i]; }
  }

  /** `prune`, on a document whose breaks are in numbered cells. */
  method PruneCells(root: seq<Skel>, cells: array<Cell>)
    requires From(Leaves(root), 0) && |Breaks(Leaves(root))| == cells.Length
    requires forall b | 0 <= b < cells.Length :: cells[b].CBrk?
    modifies cells
    ensures Pruned(Leaves(root), Indents(root, 0, 0, None).indents, old(cells[..]), cells[..])
  {
    hide Split, Breaks, Leaves, Indents, Strongest, OpensBetween, OpensAfter, Behind, Dropped, Settled, From,
        Pruner.Running, Pruned;
    ghost var ind := Indents(root, 0, 0, None).indents;
    IndentsCount(root, 0, 0, None);
    NoBreaks();
    var pr := new Pruner(cells, ind);
    pr.Walk(root);
    assert [] + Leaves(root) == Leaves(root);
    pr.Finish();
    SettledIsPruned(Leaves(root), ind, pr.before, cells[..], pr.lo);
  }

  lemma SettledIsPruned(ls: seq<Leaf>, ind: seq<int>, before: seq<Cell>, after: seq<Cell>, lo: nat)
    requires Behind(Split(ls), ind, before, after, lo) && Dropped(Split(ls)[|Split(ls)| - 1], after)
    ensures Pruned(ls, ind, before, after)
  {}

  // ------------------------------------------------------- on whole documents

  /** The breaks of a document, as the cells they are put in. */
  function Cells(ns: seq<Node>): seq<Cell> {
    if ns == [] then [] else CellsOf(ns[0]) + Cells(ns[1..])
  }

  function CellsOf(n: Node): seq<Cell> {
    match n
    case Brk(s) => [CBrk(s)]
    case Group(_, _, body) => Cells(body)
    case Nest(_, body) => Cells(body)
    case IfBroken(body) => Cells(body)
    case _ => []
  }

  /** A document with its breaks numbered from `n` on. */
  function Skeleton(ns: seq<Node>, n: nat): seq<Skel> {
    if ns == [] then [] else [SkeletonOf(ns[0], n)] + Skeleton(ns[1..], n + |CellsOf(ns[0])|)
  }

  function SkeletonOf(x: Node, n: nat): Skel {
    match x
    case Text(w, s) => KText(w, s)
    case Brk(_) => KBrk(n)
    case Group(k, id, body) => KGroup(k, id, Skeleton(body, n))
    case Nest(i, body) => KNest(i, Skeleton(body, n))
    case IfBroken(body) => KIfBroken(Skeleton(body, n))
    case Nop => KNop
  }

  /** A numbered document with what its cells hold put back. */
  function Filled(ks: seq<Skel>, cells: seq<Cell>): seq<Node> {
    if ks == [] then [] else [FilledOf(ks[0], cells)] + Filled(ks[1..], cells)
  }

  function FilledOf(k: Skel, cells: seq<Cell>): Node {
    match k
    case KText(w, s) => Text(w, s)
    case KBrk(c) =>
      (match Get(cells, c)
       case CBrk(s) => Brk(s)
       case CSpaces(n) => if n > 0 then Text(n, seq(n, _ => ' ')) else Nop
       case CNop => Nop)
    case KGroup(kind, id, body) => Group(kind, id, Filled(body, cells))
    case KNest(i, body) => Nest(i, Filled(body, cells))
    case KIfBroken(body) => IfBroken(Filled(body, cells))
    case KNop => Nop
  }

  lemma SliceParts<T>(s: seq<T>, n: nat, a: seq<T>, b: seq<T>)
    requires n + |a| + |b| <= |s| && s[n..n + |a| + |b|] == a + b
    ensures s[n..n + |a|] == a && s[n + |a|..n + |a| + |b|] == b
  {
    assert s[n..n + |a|] == s[n..n + |a| + |b|][..|a|];
    assert s[n + |a|..n + |a| + |b|] == s[n..n + |a| + |b|][|a|..];
  }

  /** Numbering loses nothing. */
  lemma {:induction false} SkeletonHolds(ns: seq<Node>, n: nat, cells: seq<Cell>)
    requires n + |Cells(ns)| <= |cells| && cells[n..n + |Cells(ns)|] == Cells(ns)
    ensures Filled(Skeleton(ns, n), cells) == ns
    decreases ns
  {
    hide CellsOf, SkeletonOf, FilledOf;
    if ns != [] {
      var m := n + |CellsOf(ns[0])|;
      var k, rest := SkeletonOf(ns[0], n), Skeleton(ns[1..], m);
      SliceParts(cells, n, CellsOf(ns[0]), Cells(ns[1..]));
      NodeHolds(ns[0], n, cells);
      SkeletonHolds(ns[1..], m, cells);
      assert ([k] + rest)[1..] == rest;
    }
  }

  lemma {:induction false} NodeHolds(x: Node, n: nat, cells: seq<Cell>)
    requires n + |CellsOf(x)| <= |cells| && cells[n..n + |CellsOf(x)|] == CellsOf(x)
    ensures FilledOf(SkeletonOf(x, n), cells) == x
    decreases x
  {
    hide Cells, Skeleton, Filled;
    match x
    case Text(_, _) =>
    case Brk(s) => assert cells[n] == cells[n..n + 1][0];
    case Group(_, _, body) => SkeletonHolds(body, n, cells);
    case Nest(_, body) => SkeletonHolds(body, n, cells);
    case IfBroken(body) => SkeletonHolds(body, n, cells);
    case Nop =>
  }

  /** It numbers the breaks in order. */
  lemma {:induction false} SkeletonNumbers(ns: seq<Node>, n: nat)
    ensures From(Leaves(Skeleton(ns, n)), n) && |Breaks(Leaves(Skeleton(ns, n)))| == |Cells(ns)|
    decreases ns
  {
    hide CellsOf, SkeletonOf, LeavesOf, Breaks;
    NoBreaks();
    if ns != [] {
      var m := n + |CellsOf(ns[0])|;
      var k, rest := SkeletonOf(ns[0], n), Skeleton(ns[1..], m);
      NodeNumbers(ns[0], n);
      SkeletonNumbers(ns[1..], m);
      assert ([k] + rest)[1..] == rest;
      FromJoin(LeavesOf(k), Leaves(rest), n);
    }
  }

  lemma {:induction false} NodeNumbers(x: Node, n: nat)
    ensures From(LeavesOf(SkeletonOf(x, n)), n) && |Breaks(LeavesOf(SkeletonOf(x, n)))| == |CellsOf(x)|
    decreases x
  {
    hide Breaks, Leaves, Skeleton, Cells;
    match x
    case Text(_, _) => BreaksNone(LText);
    case Brk(_) => BreaksOne(n);
    case Group(_, _, body) =>
      SkeletonNumbers(body, n);
      BreaksNone(LOpen);
      BreaksConcat([LOpen], Leaves(Skeleton(body, n)));
    case Nest(_, body) => SkeletonNumbers(body, n);
    case IfBroken(body) => SkeletonNumbers(body, n);
    case Nop => NoBreaks();
  }

  /** `prune` of a document: the same document but for its breaks, which are pruned. */
  method Prune(root: seq<Node>) returns (out: seq<Node>, ghost after: seq<Cell>)
    ensures Filled(Skeleton(root, 0), Cells(root)) == root
    ensures |after| == |Cells(root)| && out == Filled(Skeleton(root, 0), after)
    ensures var ks := Skeleton(root, 0);
      Pruned(Leaves(ks), Indents(ks, 0, 0, None).indents, Cells(root), after)
  {
    var start := Cells(root);
    var cells := new Cell[|start|](i requires 0 <= i < |start| => start[i]);
    assert cells[..] == start && start[0..0 + |start|] == start;
    SkeletonHolds(root, 0, start);
    SkeletonNumbers(root, 0);
    AllBreaks(root);
    assert forall b | 0 <= b < |start| :: start[b] in start;
    PruneCells(Skeleton(root, 0), cells);
    after := cells[..];
    out := Filled(Skeleton(root, 0), cells[..]);
  }

  lemma {:induction false} AllBreaks(ns: seq<Node>)
    ensures forall c | c in Cells(ns) :: c.CBrk?
    decreases ns, 1
  {
    if ns != [] {
      match ns[0] {
        case Group(_, _, body) => AllBreaks(body);
        case Nest(_, body) => AllBreaks(body);
        case IfBroken(body) => AllBreaks(body);
        case _ =>
      }
      AllBreaks(ns[1..]);
    }
  }
}
