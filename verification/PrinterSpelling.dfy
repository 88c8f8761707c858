// Whatever is chosen, a lowered document shows a legal spelling of the tree it was lowered
// from.
module PrinterSpelling {
  import opened Outcomes
  import opened PrinterTree
  import opened PrinterLower
  import opened PrinterShow

  // ------------------------------------------------------- steps of what is shown

  lemma ShowAllStep(a: Doc, ds: seq<Doc>, at: nat, base: nat, columns: int, pick: Picker, n: nat)
    ensures ShowAll([], at, base, columns, pick, n) == Shown([], n)
    ensures var x := Show(a, at, base, columns, pick, n);
      var y := ShowAll(ds, at + |x.pieces|, base, columns, pick, x.next);
      ShowAll([a] + ds, at, base, columns, pick, n) == Shown(x.pieces + y.pieces, y.next)
  {
    hide Show;
    assert ([a] + ds)[1..] == ds;
  }

  lemma ShowConcat(a: Doc, b: Doc, at: nat, base: nat, columns: int, pick: Picker, n: nat)
    ensures var x := Show(a, at, base, columns, pick, n);
      var y := Show(b, at + |x.pieces|, base, columns, pick, x.next);
      Show(Concat2(a, b), at, base, columns, pick, n) == Shown(x.pieces + y.pieces, y.next)
  {
    ShowsParts([a, b], at, base, columns, pick, n);
    hide Show, ShowAll;
    var x := Show(a, at, base, columns, pick, n);
    var y := Show(b, at + |x.pieces|, base, columns, pick, x.next);
    assert [a, b] == [a] + [b] && [b] == [b] + [];
    ShowAllStep(a, [b], at, base, columns, pick, n);
    ShowAllStep(b, [], at + |x.pieces|, base, columns, pick, x.next);
    ShowAllStep(b, [], at + |x.pieces| + |y.pieces|, base, columns, pick, y.next);
    assert y.pieces + [] == y.pieces;
  }

  lemma ShowConcat3(a: Doc, b: Doc, c: Doc, at: nat, base: nat, columns: int, pick: Picker, n: nat)
    ensures Show(Concat([a, b, c]), at, base, columns, pick, n)
         == Show(Concat2(a, Concat2(b, c)), at, base, columns, pick, n)
  {
    ShowsParts([a, b, c], at, base, columns, pick, n);
    hide Show, ShowAll;
    var x := Show(a, at, base, columns, pick, n);
    ShowConcat(a, Concat2(b, c), at, base, columns, pick, n);
    assert [a, b, c] == [a] + [b, c];
    ShowAllStep(a, [b, c], at, base, columns, pick, n);
    ShowsParts([b, c], at + |x.pieces|, base, columns, pick, x.next);
  }

  lemma ShowThree(a: Doc, b: Doc, c: Doc, y: seq<Piece>, at: nat, base: nat, columns: int, pick: Picker, n: nat)
    requires var x := Show(a, at, base, columns, pick, n);
      Show(b, at + |x.pieces|, base, columns, pick, x.next) == Shown(y, x.next)
    ensures var x := Show(a, at, base, columns, pick, n);
      var z := Show(c, at + |x.pieces| + |y|, base, columns, pick, x.next);
      Show(Concat([a, b, c]), at, base, columns, pick, n) == Shown(x.pieces + (y + z.pieces), z.next)
  {
    hide Show, Concat2;
    var x := Show(a, at, base, columns, pick, n);
    ShowConcat3(a, b, c, at, base, columns, pick, n);
    ShowConcat(a, Concat2(b, c), at, base, columns, pick, n);
    ShowConcat(b, c, at + |x.pieces|, base, columns, pick, x.next);
  }

  lemma ShowsParts(ds: seq<Doc>, at: nat, base: nat, columns: int, pick: Picker, n: nat)
    ensures Show(Concat(ds), at, base, columns, pick, n) == ShowAll(ds, at, base, columns, pick, n)
  {
  }

  lemma ShowNothing(at: nat, base: nat, columns: int, pick: Picker, n: nat)
    ensures Show(Empty, at, base, columns, pick, n) == Shown([], n)
  {
  }

  lemma ShowTexts(w: nat, s: string, at: nat, base: nat, columns: int, pick: Picker, n: nat)
    ensures Show(TxtOf(w, s), at, base, columns, pick, n)
         == Shown([if MultiLine(s) then Verbatim(s) else Word(w, s)], n)
    ensures Show(TxtAs(s, w), at, base, columns, pick, n) == Shown([Word(w, s)], n)
    ensures Show(Txt(s), at, base, columns, pick, n) == Shown(if s == "" then [] else [Gap(s)], n)
  {
  }

  /** A line end at a nesting, twice for an empty line. */
  lemma ShowLineBreak(ind: int, blank: bool, at: nat, base: nat, columns: int, pick: Picker, n: nat)
    ensures Show(LineBreak(ind, blank), at, base, columns, pick, n)
         == Shown(if blank then [End(base, columns + ind), End(base, columns + ind)] else [End(base, columns + ind)], n)
  {
    var lines := if blank then [Empty, Empty, Empty] else [Empty, Empty];
    assert LineBreak(ind, blank) == Indent(ind, Vert(lines));
    ShowVert(ind, lines, at, base, columns, pick, n);
    hide Show, ShowLines, LineBreak;
    LinesOfNothing(at + 1, base, columns + ind, pick, n);
    LinesOfNothing(at, base, columns + ind, pick, n);
    if blank {
      assert lines == [Empty] + [Empty, Empty];
      LineStep(Empty, [Empty, Empty], at, base, columns + ind, pick, n);
      ShowNothing(at, base, columns + ind, pick, n);
    }
  }

  lemma ShowVert(ind: int, lines: seq<Doc>, at: nat, base: nat, columns: int, pick: Picker, n: nat)
    ensures Show(Indent(ind, Vert(lines)), at, base, columns, pick, n)
         == ShowLines(lines, at, base, columns + ind, pick, n)
  {
  }

  lemma LineStep(d: Doc, ds: seq<Doc>, at: nat, base: nat, columns: int, pick: Picker, n: nat)
    requires ds != []
    ensures var x := Show(d, at, base, columns, pick, n);
      var y := ShowLines(ds, at + |x.pieces| + 1, base, columns, pick, x.next);
      ShowLines([d] + ds, at, base, columns, pick, n) == Shown(x.pieces + [End(base, columns)] + y.pieces, y.next)
  {
    hide Show;
    assert ([d] + ds)[1..] == ds;
  }

  lemma LinesOfNothing(at: nat, base: nat, columns: int, pick: Picker, n: nat)
    ensures ShowLines([Empty, Empty], at, base, columns, pick, n) == Shown([End(base, columns)], n)
  {
    assert [Empty, Empty][1..] == [Empty];
    assert ShowLines([Empty], at + 1, base, columns, pick, n) == Shown([], n);
  }

  lemma ShowOnNextLine(d: Doc, at: nat, base: nat, columns: int, pick: Picker, n: nat)
    ensures var x := Show(d, at + 1, base, columns, pick, n);
      Show(Vert([Empty, d]), at, base, columns, pick, n) == Shown([End(base, columns)] + x.pieces, x.next)
  {
    assert [Empty, d][1..] == [d];
    ShowNothing(at, base, columns, pick, n);
    var x := Show(d, at + 1, base, columns, pick, n);
    assert ShowLines([d], at + 1, base, columns, pick, n) == x;
    assert [] + [End(base, columns)] + x.pieces == [End(base, columns)] + x.pieces;
  }

  // --------------------------------------------------------- steps of a spelling

  lemma MarksStep(m: Mark, ms: seq<Mark>)
    ensures Bare([m] + ms) == [BareOne(m)] + Bare(ms) && Picks([m] + ms) == PicksOne(m) + Picks(ms)
    ensures Bare([]) == [] && Picks([]) == []
  {
    assert ([m] + ms)[1..] == ms;
  }

  lemma SpellStep(m: Mark, ms: seq<Mark>, how: How, base: nat, columns: int, at: nat, cut: bool)
    ensures Spell([], how, base, columns, at, cut) == []
    ensures var p := SpellOne(m, base, columns, at, cut);
      Spell([m] + ms, how, base, columns, at, cut) == p + Spell(ms, how, base, columns, at + |p|, CutBy(m, how))
  {
    assert ([m] + ms)[1..] == ms;
  }

  lemma LegalStep(m: Mark, ms: seq<Mark>, how: How, tight: bool, cut: bool, reserve: nat, widths: Widths)
    ensures Legal([], how, tight, cut, reserve, widths)
    ensures Legal([m] + ms, how, tight, cut, reserve, widths) == (
        && LegalOne(m, Bare(ms), how, tight, cut, reserve, widths)
        && Legal(ms, how, TightBy(m, how, tight), CutBy(m, how), reserve, widths))
  {
    assert ([m] + ms)[1..] == ms;
  }

  lemma {:induction false} MarksConcat(a: seq<Mark>, b: seq<Mark>)
    ensures Bare(a + b) == Bare(a) + Bare(b) && Picks(a + b) == Picks(a) + Picks(b)
  {
    hide Bare, Picks;
    if a == [] {
      assert a + b == b;
      MarksStep(MText(0, "", false), []);
    } else {
      MarksConcat(a[1..], b);
      MarksStep(a[0], a[1..]);
      MarksStep(a[0], a[1..] + b);
      assert a == [a[0]] + a[1..] && a + b == [a[0]] + (a[1..] + b);
    }
  }

  ghost predicate BreakFirst(ms: seq<Mark>) { ms != [] ==> ms[0].MBreak? }

  ghost predicate Unbroken(ms: seq<Mark>) { forall m | m in ms :: !m.MBreak? }

  lemma {:induction false} SpellConcat(a: seq<Mark>, b: seq<Mark>, how: How, base: nat, columns: int, at: nat,
      cut: bool)
    requires BreakFirst(b)
    ensures var p := Spell(a, how, base, columns, at, cut);
      Spell(a + b, how, base, columns, at, cut) == p + Spell(b, how, base, columns, at + |p|, false)
    decreases |a|
  {
    hide SpellOne, Spell, CutBy;
    if a == [] {
      assert a + b == b;
      SpellStep(MText(0, "", false), [], how, base, columns, at, cut);
      BreakAnyhow(b, how, base, columns, at, cut);
    } else {
      var p := SpellOne(a[0], base, columns, at, cut);
      SpellConcat(a[1..], b, how, base, columns, at + |p|, CutBy(a[0], how));
      assert a == [a[0]] + a[1..] && a + b == [a[0]] + (a[1..] + b);
      SpellStep(a[0], a[1..], how, base, columns, at, cut);
      SpellStep(a[0], a[1..] + b, how, base, columns, at, cut);
    }
  }

  lemma BreakAnyhow(b: seq<Mark>, how: How, base: nat, columns: int, at: nat, cut: bool)
    requires BreakFirst(b)
    ensures Spell(b, how, base, columns, at, cut) == Spell(b, how, base, columns, at, false)
  {
  }

  /** Where no line ends, the ambient indent does not matter. */
  lemma {:induction false} UnbrokenAnywhere(ms: seq<Mark>, how: How, base: nat, columns: int, at: nat, cut: bool,
                                            base': nat, columns': int)
    requires Unbroken(ms)
    ensures Spell(ms, how, base, columns, at, cut) == Spell(ms, how, base', columns', at, cut)
    decreases |ms|
  {
    hide SpellOne, CutBy;
    if ms != [] {
      assert ms[0] in ms;
      UnbrokenOne(ms[0], base, columns, at, cut, base', columns');
      var p := SpellOne(ms[0], base, columns, at, cut);
      UnbrokenAnywhere(ms[1..], how, base, columns, at + |p|, CutBy(ms[0], how), base', columns');
    }
  }

  lemma UnbrokenOne(m: Mark, base: nat, columns: int, at: nat, cut: bool, base': nat, columns': int)
    requires !m.MBreak?
    ensures SpellOne(m, base, columns, at, cut) == SpellOne(m, base', columns', at, cut)
  {
  }

  /** Nor does it where all is on one line, nor what is to be left free. */
  lemma {:induction false} WholeAnywhere(ms: seq<Mark>, t: bool, c: bool, r: nat, widths: Widths, t': bool, c': bool,
      r': nat)
    requires Legal(ms, Whole, t, c, r, widths)
    ensures Legal(ms, Whole, t', c', r', widths)
    decreases ms
  {
    if ms != [] {
      WholeAnywhere(ms[1..], TightBy(ms[0], Whole, t), CutBy(ms[0], Whole), r, widths, TightBy(ms[0], Whole, t'),
        CutBy(ms[0], Whole), r');
      match ms[0]
      case MGroup(_, _, _, _, h, _, marks) =>
        WholeAnywhere(marks, false, false, Trail(Bare(ms[1..]), Whole, r, widths), widths, false, false,
          Trail(Bare(ms[1..]), Whole, r', widths));
      case _ =>
    }
  }

  lemma {:induction false} WholeSpelling(ms: seq<Mark>, t: bool, c: bool, r: nat, widths: Widths, how: How, base: nat,
                                         columns: int, at: nat, how': How, base': nat, columns': int)
    requires Legal(ms, Whole, t, c, r, widths) && !how.AsFlat? && !how'.AsFlat?
    ensures Spell(ms, how, base, columns, at, false) == Spell(ms, how', base', columns', at, false)
    decreases ms
  {
    if ms != [] {
      var p := SpellOne(ms[0], base, columns, at, false);
      WholeSpelling(ms[1..], TightBy(ms[0], Whole, t), CutBy(ms[0], Whole), r, widths, how, base, columns, at + |p|,
        how', base', columns');
    }
  }

  // ------------------------------------------------------- what is on one line

  /** Every atom can be on one line. */
  ghost predicate FlatAtoms(ats: seq<Atom>) { forall a | a in ats :: FlatPart(PlainOf(a)) }

  lemma FlatConcat(a: seq<Atom>, b: seq<Atom>)
    ensures FlatAtoms(a + b) == (FlatAtoms(a) && FlatAtoms(b))
  {
    if FlatAtoms(a + b) {
      forall x | x in a ensures FlatPart(PlainOf(x)) { assert x in a + b; }
      forall x | x in b ensures FlatPart(PlainOf(x)) { assert x in a + b; }
    }
  }

  lemma {:induction false} AtomsFlatten(items: seq<Node>, ind: int, hidden: bool)
    ensures FlatAtoms(Atoms(items, ind, Flat, hidden)) == CanFlatten(items)
    decreases items
  {
    if items != [] {
      FlatConcat(AtomsOf(items[0], ind, Flat, hidden), Atoms(items[1..], ind, Flat, hidden));
      AtomsFlatten(items[1..], ind, hidden);
      NodeFlattens(items[0], ind, hidden);
    }
  }

  lemma {:induction false} NodeFlattens(x: Node, ind: int, hidden: bool)
    ensures FlatAtoms(AtomsOf(x, ind, Flat, hidden)) == CanFlattenOne(x)
    decreases x
  {
    hide CanFlatten, Atoms, MultiLine;
    match x
    case Text(w, s) => OneFlat(Atom(ATxt(w, s), hidden));
    case Brk(s) => OneFlat(Atom(ABrk(s, ind), hidden));
    case Group(k, id, body) => OneFlat(Atom(AGrp(k, id, body), hidden));
    case Nest(i, body) => AtomsFlatten(body, ind + i, hidden);
    case _ =>
  }

  lemma OneFlat(a: Atom)
    ensures FlatAtoms([a]) == FlatPart(PlainOf(a))
  {
    assert a in [a];
  }

  lemma {:induction false} FlatFits(ats: seq<Atom>, d: Doc, widths: Widths)
    ensures FlatDoc(ats, d, widths).Some? == FlatAtoms(ats)
    decreases AllSize(ats), 1, |ats|
  {
    if ats != [] {
      assert ats == [ats[0]] + ats[1..];
      FlatConcat([ats[0]], ats[1..]);
      OneFlat(ats[0]);
      PartSize(ats, 1);
      PartSize(ats, 0);
      AtomFits(ats[0], d, widths);
      hide FlatAtoms, FlatPart, Flattened;
      match Flattened(ats[0], d, widths)
      case None =>
      case Some(x) => FlatFits(ats[1..], x, widths);
    }
  }

  lemma {:induction false} AtomFits(a: Atom, d: Doc, widths: Widths)
    ensures Flattened(a, d, widths).Some? == FlatPart(PlainOf(a))
    decreases AtomSize(a), 1, 0
  {
    if a.kind.AGrp? { GroupFits(a.kind.body, widths); }
  }

  lemma {:induction false} GroupFits(body: seq<Node>, widths: Widths)
    ensures GroupFlat(body, widths).Some? == CanFlatten(body)
    decreases Size(body), 2, 0
  {
    AtomsBounded(body, 0, Flat, false);
    AtomsFlatten(body, 0, false);
    FlatFits(Atoms(body, 0, Flat, false), Empty, widths);
  }

  /** The marks of atoms that are all on one line, and what is shown for them. */
  lemma {:induction false} FlatShows(ats: seq<Atom>, d: Doc, widths: Widths, at: nat, base: nat, columns: int,
                                     pick: Picker, n: nat) returns (ms: seq<Mark>)
    requires FlatDoc(ats, d, widths).Some?
    ensures Bare(ms) == Plains(ats) && Picks(ms) == [] && Legal(ms, Whole, false, false, 0, widths)
    ensures var pre := Show(d, at, base, columns, pick, n);
      Show(FlatDoc(ats, d, widths).value, at, base, columns, pick, n)
        == Shown(pre.pieces + Spell(ms, Whole, base, columns, at + |pre.pieces|, false), pre.next)
    decreases AllSize(ats), 1, |ats|
  {
    ms := [];
    hide Show, Spell, Legal, Picks, Bare, SpellOne, LegalOne, PicksOne, BareOne, Flattened;
    var pre := Show(d, at, base, columns, pick, n);
    if ats == [] {
      var m := MText(0, "", false);
      SpellStep(m, [], Whole, base, columns, at + |pre.pieces|, false);
      MarksStep(m, []);
      LegalStep(m, [], Whole, false, false, 0, widths);
      assert pre.pieces + [] == pre.pieces;
    } else {
      PartSize(ats, 1);
      PartSize(ats, 0);
      var x := Flattened(ats[0], d, widths).value;
      var m := AtomShows(ats[0], Plains(ats[1..]), d, widths, at, base, columns, pick, n);
      var rest := FlatShows(ats[1..], x, widths, at, base, columns, pick, n);
      ms := [m] + rest;
      SpellStep(m, rest, Whole, base, columns, at + |pre.pieces|, false);
      MarksStep(m, rest);
      LegalStep(m, rest, Whole, false, false, 0, widths);
      var p := SpellOne(m, base, columns, at + |pre.pieces|, false);
      var more := Spell(rest, Whole, base, columns, at + |pre.pieces + p|, false);
      assert pre.pieces + p + more == pre.pieces + (p + more);
    }
  }

  lemma {:induction false} AtomShows(a: Atom, ahead: seq<Plain>, d: Doc, widths: Widths, at: nat, base: nat,
                                     columns: int, pick: Picker, n: nat) returns (m: Mark)
    requires Flattened(a, d, widths).Some?
    ensures BareOne(m) == PlainOf(a) && PicksOne(m) == [] && LegalOne(m, ahead, Whole, false, false, 0, widths)
    ensures !TightBy(m, Whole, false) && !CutBy(m, Whole)
    ensures var pre := Show(d, at, base, columns, pick, n);
      Show(Flattened(a, d, widths).value, at, base, columns, pick, n)
        == Shown(pre.pieces + SpellOne(m, base, columns, at + |pre.pieces|, false), pre.next)
    decreases AtomSize(a), 1, 0
  {
    hide Show, Spell, Legal, Content, Bare, Trail, GroupFlat, Picks;
    var pre := Show(d, at, base, columns, pick, n);
    match a.kind {
      case ATxt(w, s) =>
        m := MText(w, s, a.hidden);
        ShowConcat(d, TxtAs(s, w), at, base, columns, pick, n);
        ShowTexts(w, s, at + |pre.pieces|, base, columns, pick, pre.next);
      case ABrk(str, ind) =>
        m := MBreak(str, ind, false, None);
        FlatBreak(m, d, at, base, columns, pick, n);
      case AGrp(k, id, body) =>
        m := WholeShows(k, id, body, a.hidden, Trail(ahead, Whole, 0, widths), widths, at + |pre.pieces|, base, columns,
          pick, pre.next);
        ShowConcat(d, GroupFlat(body, widths).value, at, base, columns, pick, n);
    }
  }

  lemma FlatBreak(m: Mark, d: Doc, at: nat, base: nat, columns: int, pick: Picker, n: nat)
    requires m.MBreak? && !m.ends && !Hard(m.strength)
    ensures var pre := Show(d, at, base, columns, pick, n);
      Show(if m.strength.Space? then Concat2(d, Txt(" ")) else d, at, base, columns, pick, n)
        == Shown(pre.pieces + SpellOne(m, base, columns, at + |pre.pieces|, false), pre.next)
  {
    hide Show;
    var pre := Show(d, at, base, columns, pick, n);
    ShowConcat(d, Txt(" "), at, base, columns, pick, n);
    ShowTexts(0, " ", at + |pre.pieces|, base, columns, pick, pre.next);
    assert pre.pieces + [] == pre.pieces;
  }

  lemma {:induction false} WholeShows(kind: Kind, id: nat, body: seq<Node>, hidden: bool, room: nat, widths: Widths,
      at: nat, base: nat, columns: int, pick: Picker, n: nat) returns (m: Mark)
    requires GroupFlat(body, widths).Some?
    ensures m.MGroup? && m == MGroup(kind, id, body, hidden, Whole, None, m.marks)
    ensures Bare(m.marks) == Content(body, 0, false, false) && PicksOne(m) == []
    ensures Legal(m.marks, Whole, false, false, room, widths)
    ensures Show(GroupFlat(body, widths).value, at, base, columns, pick, n) == Shown(SpellOne(m, base, columns, at,
        false), n)
    decreases Size(body), 2, 0
  {
    AtomsBounded(body, 0, Flat, false);
    var marks := FlatShows(Atoms(body, 0, Flat, false), Empty, widths, at, base, columns, pick, n);
    m := MGroup(kind, id, body, hidden, Whole, None, marks);
    hide Show, Bare, Content, Plains, Atoms, Legal, Spell;
    AtomsAreContent(body, 0, Flat, false);
    ShowNothing(at, base, columns, pick, n);
    WholeAnywhere(marks, false, false, 0, widths, false, false, room);
    WholeSpelling(marks, false, false, 0, widths, Whole, base, columns, at, Whole, at, 0);
    assert [] + Spell(marks, Whole, base, columns, at, false) == Spell(marks, Whole, base, columns, at, false);
  }

  // ---------------------------------------------------- a soft break kept flat

  /** What can be on one line up to the next break is what the segment before it holds. */
  lemma {:induction false} AheadFits(b: Body, si: nat, j: nat)
    requires |b.segs| == |b.brks| + 1 && si <= |b.brks| && j <= |b.segs[si]| && NoBreaks(b.segs[si])
    ensures FlatAhead(Onward(b, si, j)) == FlatAtoms(b.segs[si][j..])
    decreases |b.segs[si]| - j
  {
    var seg := b.segs[si];
    hide FlatPart, Rest;
    if j < |seg| {
      assert seg[j] in seg;
      OnwardStep(b, si, j);
      AheadFits(b, si, j + 1);
      FlatConcat([seg[j]], seg[j + 1..]);
      OneFlat(seg[j]);
      assert Onward(b, si, j)[1..] == Onward(b, si, j + 1);
    } else {
      OnwardEnd(b, si);
    }
  }

  /** The marks of one line are right after a soft break that is kept flat. */
  lemma {:induction false} TightSegment(ms: seq<Mark>, more: seq<Mark>, cut: bool, reserve: nat, widths: Widths,
                                        t: bool, c: bool, r: nat)
    requires Unbroken(ms) && Legal(ms, Whole, t, c, r, widths)
    requires BreakFirst(more) && Legal(more, AsFill, false, false, reserve, widths)
    ensures Legal(ms + more, AsFill, true, cut, reserve, widths)
    decreases |ms|
  {
    if ms == [] {
      assert ms + more == more;
    } else {
      assert ms[0] in ms;
      var room := Trail(Bare(ms[1..]), Whole, r, widths);
      TightSegment(ms[1..], more, CutBy(ms[0], AsFill), reserve, widths, TightBy(ms[0], Whole, t), CutBy(ms[0],
        Whole), r);
      assert ms == [ms[0]] + ms[1..] && ms + more == [ms[0]] + (ms[1..] + more);
      hide Legal, Bare, Trail, Content;
      LegalStep(ms[0], ms[1..] + more, AsFill, true, cut, reserve, widths);
      LegalStep(ms[0], ms[1..], Whole, t, c, r, widths);
      if ms[0].MGroup? {
        WholeAnywhere(ms[0].marks, false, false, room, widths, false, false,
          Trail(Bare(ms[1..] + more), AsFill, reserve, widths));
      }
    }
  }

  // ------------------------------------------------------------------ a segment

  lemma ChosenConcat(a: seq<(bool, nat)>, b: seq<(bool, nat)>, pick: Picker, n: nat)
    requires Chosen(a, pick, n) && Chosen(b, pick, n + |a|)
    ensures Chosen(a + b, pick, n)
  {
    forall i | 0 <= i < |a + b| ensures (a + b)[i].0 == pick(n + i, (a + b)[i].1) {
      if i >= |a| { assert (a + b)[i] == b[i - |a|]; }
    }
  }

  lemma {:induction false} UnbrokenBare(ms: seq<Mark>, ats: seq<Atom>)
    requires Bare(ms) == Plains(ats) && NoBreaks(ats)
    ensures Unbroken(ms)
    decreases |ms|
  {
    if ms != [] {
      assert ats != [] && ats[0] in ats;
      assert Bare(ms)[1..] == Bare(ms[1..]) && Plains(ats)[1..] == Plains(ats[1..]);
      UnbrokenBare(ms[1..], ats[1..]);
    }
  }

  /** Marks in front of others that begin with a break do what the two do in turn. */
  lemma FrontStep(m: Mark, rest: seq<Mark>, more: seq<Mark>, how: How, cut: bool, reserve: nat, widths: Widths)
    requires !m.MBreak? && LegalOne(m, Bare(rest + more), how, false, cut, reserve, widths)
    requires Legal(rest + more, how, false, false, reserve, widths)
    ensures Legal([m] + rest + more, how, false, cut, reserve, widths)
  {
    LegalStep(m, rest + more, how, false, cut, reserve, widths);
    assert [m] + rest + more == [m] + (rest + more);
  }

  ghost predicate Good(b: Body, n: nat) { Bounded(b, n) && forall i | 0 <= i < |b.segs| :: NoBreaks(b.segs[i]) }

  lemma RestBreakFirst(b: Body, si: nat, more: seq<Mark>)
    requires |b.segs| == |b.brks| + 1 && si <= |b.brks| && Bare(more) == Rest(b, si)
    ensures BreakFirst(more)
  {
    if more != [] { assert Bare(more)[0] == BareOne(more[0]); }
  }

  lemma BreakLegal(more: seq<Mark>, how: How, tight: bool, cut: bool, reserve: nat, widths: Widths)
    requires BreakFirst(more)
    ensures Legal(more, how, tight, cut, reserve, widths) == Legal(more, how, false, false, reserve, widths)
  {
  }

  /** The reserve that a group is given is the trail of what comes after it. */
  lemma ReserveIsTrail(b: Body, si: nat, j: nat, mode: Mode, reserve: nat, n: nat, widths: Widths)
    requires Good(b, n) && si < |b.segs| && j <= |b.segs[si]|
    ensures Cap(Suffix(b.segs[si][j..], widths) + After(b, si, mode, reserve, n, widths))
         == Trail(Onward(b, si, j), HowOf(mode), reserve, widths)
  {
    var seg := b.segs[si];
    assert NoBreaks(seg[j..]) by { forall a | a in seg[j..] ensures !a.kind.ABrk? { assert a in seg; } }
    AfterIsTrail(b, si, mode, reserve, n, widths);
    TrailSegment(seg[j..], Rest(b, si), After(b, si, mode, reserve, n, widths), HowOf(mode), reserve, widths);
  }

  /** A document shows what another one shows, and after it what the marks spell. */
  ghost predicate Adds(ms: seq<Mark>, d: Doc, acc: Doc, how: How, cut: bool, at: nat, base: nat, columns: int,
                       pick: Picker, n: nat)
  {
    var pre := Show(acc, at, base, columns, pick, n);
    && Chosen(Picks(ms), pick, pre.next)
    && Show(d, at, base, columns, pick, n)
      == Shown(pre.pieces + Spell(ms, how, base, columns, at + |pre.pieces|, cut), pre.next + |Picks(ms)|)
  }

  lemma AddsNothing(d: Doc, how: How, cut: bool, at: nat, base: nat, columns: int, pick: Picker, n: nat)
    ensures Adds([], d, d, how, cut, at, base, columns, pick, n)
  {
    var pre := Show(d, at, base, columns, pick, n).pieces;
    assert pre + [] == pre;
  }

  lemma AddsStep(m: Mark, rest: seq<Mark>, d: Doc, x: Doc, acc: Doc, how: How, cut: bool, at: nat, base: nat,
                 columns: int, pick: Picker, n: nat)
    requires Adds([m], x, acc, how, cut, at, base, columns, pick, n)
    requires Adds(rest, d, x, how, CutBy(m, how), at, base, columns, pick, n)
    ensures Adds([m] + rest, d, acc, how, cut, at, base, columns, pick, n)
  {
    hide Show, Spell, Picks, SpellOne, PicksOne, Chosen;
    var pre := Show(acc, at, base, columns, pick, n);
    var at' := at + |pre.pieces|;
    MarksStep(m, []);
    MarksStep(m, rest);
    SpellStep(m, [], how, base, columns, at', cut);
    SpellStep(m, rest, how, base, columns, at', cut);
    assert [m] + [] == [m] && PicksOne(m) + [] == PicksOne(m);
    var p := SpellOne(m, base, columns, at', cut);
    var q := Spell(rest, how, base, columns, at' + |p|, CutBy(m, how));
    SpellStep(m, [], how, base, columns, at' + |p|, CutBy(m, how));
    assert p + [] == p && pre.pieces + p + q == pre.pieces + (p + q);
    ChosenConcat(PicksOne(m), Picks(rest), pick, pre.next);
  }

  lemma AddsMore(front: seq<Mark>, more: seq<Mark>, d: Doc, x: Doc, acc: Doc, how: How, cut: bool, at: nat, base: nat,
                 columns: int, pick: Picker, n: nat)
    requires Adds(front, x, acc, how, cut, at, base, columns, pick, n) && BreakFirst(more)
    requires Adds(more, d, x, how, false, at, base, columns, pick, n)
    ensures Adds(front + more, d, acc, how, cut, at, base, columns, pick, n)
  {
    hide Show, Spell, Picks, Chosen;
    var pre := Show(acc, at, base, columns, pick, n);
    var at' := at + |pre.pieces|;
    MarksConcat(front, more);
    SpellConcat(front, more, how, base, columns, at', cut);
    ChosenConcat(Picks(front), Picks(more), pick, pre.next);
    var p := Spell(front, how, base, columns, at', cut);
    var q := Spell(more, how, base, columns, at' + |p|, false);
    assert pre.pieces + p + q == pre.pieces + (p + q);
  }

  ghost predicate ShowsMarks(ms: seq<Mark>, d: Doc, how: How, cut: bool, at: nat, base: nat, columns: int, pick: Picker,
                             n: nat)
  {
    && Chosen(Picks(ms), pick, n)
    && Show(d, at, base, columns, pick, n) == Shown(Spell(ms, how, base, columns, at, cut), n + |Picks(ms)|)
  }

  /** The marks of what is left of a segment, given those of what comes after it. */
  lemma {:induction false} SegShows(b: Body, si: nat, j: nat, d: Doc, mode: Mode, reserve: nat, n: nat, widths: Widths,
      at: nat, base: nat, columns: int, pick: Picker, k: nat, more: seq<Mark>) returns (ms: seq<Mark>)
    requires Good(b, n) && si < |b.segs| && j <= |b.segs[si]|
    requires Bare(more) == Rest(b, si) && Legal(more, HowOf(mode), false, false, reserve, widths)
    ensures var cut := j == 0 && Bump(b, si, mode) > 0;
      && Bare(ms) == Plains(b.segs[si][j..]) && Legal(ms + more, HowOf(mode), false, cut, reserve, widths)
      && Adds(ms, SegDoc(b, si, j, d, mode, reserve, n, widths), d, HowOf(mode), cut, at, base, columns, pick, k)
    decreases n, 6, |b.segs[si]| - j
  {
    assert |b.segs| == |b.brks| + 1;
    var how, cut := HowOf(mode), j == 0 && Bump(b, si, mode) > 0;
    if j == |b.segs[si]| {
      hide Legal, Bare, Rest, Plains;
      RestBreakFirst(b, si, more);
      ms := [];
      assert b.segs[si][j..] == [];
      assert [] + more == more;
      BreakLegal(more, how, false, cut, reserve, widths);
      NoMarks();
      AddsNothing(d, how, cut, at, base, columns, pick, k);
    } else {
      var x := Attached(b, si, j, d, mode, reserve, n, widths);
      assert SegDoc(b, si, j, d, mode, reserve, n, widths) == SegDoc(b, si, j + 1, x, mode, reserve, n, widths);
      hide *;
      var m := AtomAttached(b, si, j, d, mode, reserve, n, widths, at, base, columns, pick, k);
      var rest := SegShows(b, si, j + 1, x, mode, reserve, n, widths, at, base, columns, pick, k, more);
      ms := [m] + rest;
      OnwardStep(b, si, j);
      OnwardIs(b, si, j + 1);
      MarksConcat(rest, more);
      MarksStep(m, rest);
      FrontStep(m, rest, more, how, cut, reserve, widths);
      CutByNone(m, how);
      AddsStep(m, rest, SegDoc(b, si, j + 1, x, mode, reserve, n, widths), x, d, how, cut, at, base, columns, pick, k);
      PlainsStep(b.segs[si][j], b.segs[si][j + 1..]);
    }
  }

  lemma CutByNone(m: Mark, how: How)
    requires !m.MBreak?
    ensures !CutBy(m, how)
  {
  }

  lemma NoMarks()
    ensures Bare([]) == [] && Plains([]) == []
  {
  }

  lemma {:induction false} AtomAttached(b: Body, si: nat, j: nat, d: Doc, mode: Mode, reserve: nat, n: nat,
      widths: Widths,
      at: nat, base: nat, columns: int, pick: Picker, k: nat) returns (m: Mark)
    requires Good(b, n) && si < |b.segs| && j < |b.segs[si]|
    ensures var cut := j == 0 && Bump(b, si, mode) > 0;
      && !m.MBreak? && BareOne(m) == PlainOf(b.segs[si][j])
      && LegalOne(m, Onward(b, si, j + 1), HowOf(mode), false, cut, reserve, widths)
      && Adds([m], Attached(b, si, j, d, mode, reserve, n, widths), d, HowOf(mode), cut, at, base, columns, pick, k)
    decreases n, 6, 0
  {
    var seg := b.segs[si];
    var a := seg[j];
    assert a in seg;
    assert !a.kind.ABrk?;
    PartSize(seg, j);
    if a.kind.ATxt? {
      m := TextAttached(b, si, j, d, mode, reserve, n, widths, at, base, columns, pick, k);
    } else {
      m := GroupAttached(b, si, j, d, mode, reserve, n, widths, at, base, columns, pick, k);
    }
  }

  lemma TextAttached(b: Body, si: nat, j: nat, d: Doc, mode: Mode, reserve: nat, n: nat, widths: Widths, at: nat,
                     base: nat, columns: int, pick: Picker, k: nat) returns (m: Mark)
    requires Good(b, n) && si < |b.segs| && j < |b.segs[si]| && b.segs[si][j].kind.ATxt?
    ensures var cut := j == 0 && Bump(b, si, mode) > 0;
      && m.MText? && BareOne(m) == PlainOf(b.segs[si][j])
      && LegalOne(m, Onward(b, si, j + 1), HowOf(mode), false, cut, reserve, widths)
      && Adds([m], Attached(b, si, j, d, mode, reserve, n, widths), d, HowOf(mode), cut, at, base, columns, pick, k)
  {
    var a, cut := b.segs[si][j], j == 0 && Bump(b, si, mode) > 0;
    var x := Concat2(d, TxtOf(a.kind.width, a.kind.text));
    assert Attached(b, si, j, d, mode, reserve, n, widths) == x;
    m := MText(a.kind.width, a.kind.text, a.hidden);
    var pre := Show(d, at, base, columns, pick, k);
    hide Attached, Show, Spell, Picks, Bump, Bounded;
    ShowConcat(d, TxtOf(a.kind.width, a.kind.text), at, base, columns, pick, k);
    ShowTexts(a.kind.width, a.kind.text, at + |pre.pieces|, base, columns, pick, pre.next);
    AddsMark(m, x, d, HowOf(mode), cut, at, base, columns, pick, k);
  }

  lemma {:induction false} GroupAttached(b: Body, si: nat, j: nat, d: Doc, mode: Mode, reserve: nat, n: nat,
      widths: Widths, at: nat, base: nat, columns: int, pick: Picker, k: nat) returns (m: Mark)
    requires Good(b, n) && si < |b.segs| && j < |b.segs[si]| && b.segs[si][j].kind.AGrp?
    requires Size(b.segs[si][j].kind.body) < n
    ensures var cut := j == 0 && Bump(b, si, mode) > 0;
      && m.MGroup? && BareOne(m) == PlainOf(b.segs[si][j])
      && LegalOne(m, Onward(b, si, j + 1), HowOf(mode), false, cut, reserve, widths)
      && Adds([m], Attached(b, si, j, d, mode, reserve, n, widths), d, HowOf(mode), cut, at, base, columns, pick, k)
    decreases n, 5, 0
  {
    var a, cut, pre := b.segs[si][j], j == 0 && Bump(b, si, mode) > 0, Show(d, at, base, columns, pick, k);
    var room := Trail(Onward(b, si, j + 1), HowOf(mode), reserve, widths);
    var g := GroupDoc(a.kind.kind, a.kind.body, room, if cut then 1 else 0, widths);
    AttachedIs(b, si, j, d, mode, reserve, n, widths);
    assert !HowOf(mode).Whole? && PlainOf(a) == PGroup(a.kind.kind, a.kind.id, a.kind.body, a.hidden);
    hide *;
    m := GroupShows(a.kind.kind, a.kind.id, a.kind.body, a.hidden, room, cut, widths, at + |pre.pieces|, pick,
      pre.next);
    GroupRight(m, Onward(b, si, j + 1), HowOf(mode), cut, reserve, widths, base, columns, at + |pre.pieces|);
    ShowBeside(d, g, if cut then 1 else 0, at, base, columns, pick, k);
    AddsMark(m, Attached(b, si, j, d, mode, reserve, n, widths), d, HowOf(mode), cut, at, base, columns, pick, k);
  }

  lemma AttachedIs(b: Body, si: nat, j: nat, d: Doc, mode: Mode, reserve: nat, n: nat, widths: Widths)
    requires Good(b, n) && si < |b.segs| && j < |b.segs[si]| && b.segs[si][j].kind.AGrp?
    ensures var a, extra := b.segs[si][j], if j == 0 && Bump(b, si, mode) > 0 then 1 else 0;
      var g := GroupDoc(a.kind.kind, a.kind.body, Trail(Onward(b, si, j + 1), HowOf(mode), reserve, widths), extra,
        widths);
      Attached(b, si, j, d, mode, reserve, n, widths) == Horz(d, if extra > 0 then Indent(extra, g) else g)
  {
    hide Onward, Trail, After, Suffix, GroupDoc, Cap;
    ReserveIsTrail(b, si, j + 1, mode, reserve, n, widths);
  }

  lemma GroupRight(m: Mark, ahead: seq<Plain>, how: How, cut: bool, reserve: nat, widths: Widths, base: nat,
      columns: int,
                   at: nat)
    requires m.MGroup? && !how.Whole? && Bare(m.marks) == Content(m.body, 0, m.how.AsBroken?, false)
    requires var room := Trail(ahead, how, reserve, widths);
      && Allowed(m.kind, m.body, m.how, m.asked, room, cut, widths) && Legal(m.marks, m.how, false, false, room, widths)
    ensures LegalOne(m, ahead, how, false, cut, reserve, widths)
    ensures BareOne(m) == PGroup(m.kind, m.id, m.body, m.hidden)
    ensures SpellOne(m, base, columns, at, cut) == SpellOne(m, 0, 0, at, cut)
  {
  }

  lemma AddsMark(m: Mark, d: Doc, acc: Doc, how: How, cut: bool, at: nat, base: nat, columns: int, pick: Picker, n: nat)
    requires var pre := Show(acc, at, base, columns, pick, n);
      && Chosen(PicksOne(m), pick, pre.next)
      && Show(d, at, base, columns, pick, n)
        == Shown(pre.pieces + SpellOne(m, base, columns, at + |pre.pieces|, cut), pre.next + |PicksOne(m)|)
    ensures Adds([m], d, acc, how, cut, at, base, columns, pick, n)
  {
    hide Show, Spell, Picks, SpellOne, PicksOne, Chosen;
    var pre := Show(acc, at, base, columns, pick, n);
    MarksStep(m, []);
    SpellStep(m, [], how, base, columns, at + |pre.pieces|, cut);
    var p := SpellOne(m, base, columns, at + |pre.pieces|, cut);
    SpellStep(m, [], how, base, columns, at + |pre.pieces| + |p|, CutBy(m, how));
    assert [m] + [] == [m] && PicksOne(m) + [] == PicksOne(m) && p + [] == p;
  }

  lemma ShowBeside(d: Doc, g: Doc, extra: nat, at: nat, base: nat, columns: int, pick: Picker, n: nat)
    ensures var x := Show(d, at, base, columns, pick, n);
      var y := Show(g, at + |x.pieces|, at + |x.pieces|, extra, pick, x.next);
      Show(Horz(d, if extra > 0 then Indent(extra, g) else g), at, base, columns, pick, n)
        == Shown(x.pieces + y.pieces, y.next)
  {
  }

  // -------------------------------------------------------------------- a group

  lemma {:induction false} GroupShows(kind: Kind, id: nat, body: seq<Node>, hidden: bool, room: nat, cut: bool,
      widths: Widths, at: nat, pick: Picker, n: nat) returns (m: Mark)
    ensures m.MGroup? && m == MGroup(kind, id, body, hidden, m.how, m.asked, m.marks)
    ensures Bare(m.marks) == Content(body, 0, m.how.AsBroken?, false) && !m.how.Whole?
    ensures Allowed(kind, body, m.how, m.asked, room, cut, widths) && Legal(m.marks, m.how, false, false, room, widths)
    ensures Chosen(PicksOne(m), pick, n)
    ensures Show(GroupDoc(kind, body, room, if cut then 1 else 0, widths), at, at, if cut then 1 else 0, pick, n)
         == Shown(SpellOne(m, 0, 0, at, cut), n + |PicksOne(m)|)
    decreases Size(body), 10, 0
  {
    var columns := if cut then 1 else 0;
    var choice := kind.GHv? && widths(Lay(body, Flat, room, widths)).Some?;
    var mode :=
      match kind
      case GH => Flat
      case GV => Brkm
      case GBox => Fill
      case GHov => Fill
      case GHv => if choice && pick(n, Cap(room + columns)) then Flat else Brkm;
    var d := Lay(body, mode, room, widths);
    GroupDocIs(kind, body, room, columns, widths);
    assert Allowed(kind, body, HowOf(mode), if choice then Some(Cap(room + columns)) else None, room, cut, widths) by {
      hide Lay, Cap;
    }
    assert HowOf(mode).AsBroken? == mode.Brkm? && HowOf(mode).AsFlat? == mode.Flat? && !HowOf(mode).Whole?;
    hide Show, Lay, Legal, Bare, Content, Picks, Chosen, Spell, Allowed, GroupDoc, Cap;
    var marks := LayShows(body, mode, room, widths, at, at, columns, pick, if choice then n + 1 else n);
    hide HowOf, SpellOne, PicksOne;
    m := MGroup(kind, id, body, hidden, HowOf(mode), if choice then Some(Cap(room + columns)) else None, marks);
    if choice {
      AskedShows(m, Lay(body, Flat, room, widths), Lay(body, Brkm, room, widths), cut, at, pick, n);
    } else {
      UnaskedShows(m, d, cut, at, pick, n);
    }
  }

  lemma UnaskedShows(m: Mark, d: Doc, cut: bool, at: nat, pick: Picker, n: nat)
    requires m.MGroup? && m.asked == None
    requires ShowsMarks(m.marks, d, m.how, false, at, at, if cut then 1 else 0, pick, n)
    ensures Chosen(PicksOne(m), pick, n)
    ensures Show(d, at, at, if cut then 1 else 0, pick, n) == Shown(SpellOne(m, 0, 0, at, cut), n + |PicksOne(m)|)
  {
    assert [] + Picks(m.marks) == Picks(m.marks);
  }

  lemma AskedShows(m: Mark, x: Doc, y: Doc, cut: bool, at: nat, pick: Picker, n: nat)
    requires m.MGroup? && m.asked.Some? && m.how.AsFlat? == pick(n, m.asked.value)
    requires ShowsMarks(m.marks, if m.how.AsFlat? then x else y, m.how, false, at, at, if cut then 1 else 0, pick,
        n + 1)
    ensures Chosen(PicksOne(m), pick, n)
    ensures Show(IfFlat(x, y, m.asked.value), at, at, if cut then 1 else 0, pick, n)
         == Shown(SpellOne(m, 0, 0, at, cut), n + |PicksOne(m)|)
  {
    hide Show, Spell, Picks, Chosen;
    ShowChoice(x, y, m.asked.value, at, at, if cut then 1 else 0, pick, n);
    ChosenOne(m.how.AsFlat?, m.asked.value, pick, n);
    ChosenConcat([(m.how.AsFlat?, m.asked.value)], Picks(m.marks), pick, n);
  }

  lemma GroupDocIs(kind: Kind, body: seq<Node>, room: nat, columns: nat, widths: Widths)
    ensures GroupDoc(kind, body, room, columns, widths)
         == match kind
            case GH => Lay(body, Flat, room, widths)
            case GV => Lay(body, Brkm, room, widths)
            case GBox => Lay(body, Fill, room, widths)
            case GHov => Lay(body, Fill, room, widths)
            case GHv =>
              if widths(Lay(body, Flat, room, widths)).Some?
              then IfFlat(Lay(body, Flat, room, widths), Lay(body, Brkm, room, widths), Cap(room + columns))
              else Lay(body, Brkm, room, widths)
  {
    hide Lay, Cap;
  }

  lemma ShowChoice(x: Doc, y: Doc, reserve: nat, at: nat, base: nat, columns: int, pick: Picker, n: nat)
    ensures Show(IfFlat(x, y, reserve), at, base, columns, pick, n)
         == Show(if pick(n, reserve) then x else y, at, base, columns, pick, n + 1)
  {
  }

  lemma ChosenOne(flat: bool, reserve: nat, pick: Picker, n: nat)
    requires flat == pick(n, reserve)
    ensures Chosen([(flat, reserve)], pick, n)
  {
  }

  // --------------------------------------------------------------------- a body

  /** What is laid out for a body shows a legal spelling of its content. */
  lemma {:induction false} LayShows(items: seq<Node>, mode: Mode, reserve: nat, widths: Widths, at: nat, base: nat,
                                    columns: int, pick: Picker, n: nat) returns (ms: seq<Mark>)
    ensures Bare(ms) == Content(items, 0, mode.Brkm?, false) && Legal(ms, HowOf(mode), false, false, reserve, widths)
    ensures Chosen(Picks(ms), pick, n)
    ensures Show(Lay(items, mode, reserve, widths), at, base, columns, pick, n)
         == Shown(Spell(ms, HowOf(mode), base, columns, at, false), n + |Picks(ms)|)
    decreases Size(items), 9, 0
  {
    var b, size := BodyOf(items, mode), Size(items);
    BodyWhole(items, mode);
    var first := SegDoc(b, 0, 0, Empty, mode, reserve, size, widths);
    var d := LayFrom(b, 0, first, mode, reserve, size, widths);
    assert Lay(items, mode, reserve, widths) == d;
    hide *;
    var more := LayFromShows(b, 0, first, mode, reserve, size, widths, at, base, columns, pick, n);
    var front := SegShows(b, 0, 0, Empty, mode, reserve, size, widths, at, base, columns, pick, n, more);
    ms := front + more;
    MarksConcat(front, more);
    RestBreakFirst(b, 0, more);
    NoBump(b, mode);
    OnwardIs(b, 0, 0);
    AddsMore(front, more, d, first, Empty, HowOf(mode), false, at, base, columns, pick, n);
    AddsToNone(ms, d, HowOf(mode), at, base, columns, pick, n);
  }

  lemma BodyWhole(items: seq<Node>, mode: Mode)
    ensures var b := BodyOf(items, mode);
      && |b.segs| == |b.brks| + 1 && Good(b, Size(items)) && Onward(b, 0, 0) == Content(items, 0, mode.Brkm?, false)
  {
    var ats, b := Atoms(items, 0, mode, false), BodyOf(items, mode);
    BodyBounded(items, mode);
    SplitJoins(ats);
    AtomsAreContent(items, 0, mode, false);
    assert b.segs[0][0..] == b.segs[0];
  }

  lemma NoBump(b: Body, mode: Mode)
    requires |b.segs| == |b.brks| + 1
    ensures Bump(b, 0, mode) == 0
  {
  }

  lemma AddsToNone(ms: seq<Mark>, d: Doc, how: How, at: nat, base: nat, columns: int, pick: Picker, n: nat)
    requires Adds(ms, d, Empty, how, false, at, base, columns, pick, n)
    ensures Chosen(Picks(ms), pick, n)
    ensures Show(d, at, base, columns, pick, n) == Shown(Spell(ms, how, base, columns, at, false), n + |Picks(ms)|)
  {
    ShowNothing(at, base, columns, pick, n);
    var p := Spell(ms, how, base, columns, at, false);
    assert [] + p == p;
  }

  lemma {:induction false} LayFromShows(b: Body, i: nat, acc: Doc, mode: Mode, reserve: nat, n: nat, widths: Widths,
      at: nat, base: nat, columns: int, pick: Picker, k: nat) returns (ms: seq<Mark>)
    requires Good(b, n) && i <= |b.brks|
    ensures Bare(ms) == Rest(b, i) && Legal(ms, HowOf(mode), false, false, reserve, widths)
    ensures Adds(ms, LayFrom(b, i, acc, mode, reserve, n, widths), acc, HowOf(mode), false, at, base, columns, pick, k)
    decreases n, 8, |b.brks| - i
  {
    if i == |b.brks| {
      ms := [];
      AddsNothing(acc, HowOf(mode), false, at, base, columns, pick, k);
    } else {
      var x := Joined(b, i, acc, mode, reserve, n, widths);
      var d := LayFrom(b, i + 1, x, mode, reserve, n, widths);
      assert LayFrom(b, i, acc, mode, reserve, n, widths) == d;
      assert |b.segs| == |b.brks| + 1;
      hide *;
      var more := LayFromShows(b, i + 1, x, mode, reserve, n, widths, at, base, columns, pick, k);
      var front := BreakShows(b, i, acc, mode, reserve, n, widths, at, base, columns, pick, k, more);
      ms := front + more;
      MarksConcat(front, more);
      RestBreakFirst(b, i + 1, more);
      AddsMore(front, more, d, x, acc, HowOf(mode), false, at, base, columns, pick, k);
    }
  }

  /** A break and the marks after it: what they add to what came before. */
  lemma AddsBreak(m: Mark, ms: seq<Mark>, d: Doc, acc: Doc, how: How, at: nat, base: nat, columns: int, pick: Picker,
                  n: nat)
    requires var pre := Show(acc, at, base, columns, pick, n);
      var p := SpellOne(m, base, columns, at + |pre.pieces|, false);
      var q := Spell(ms, how, base, columns, at + |pre.pieces| + |p|, CutBy(m, how));
      && Chosen(PicksOne(m), pick, pre.next) && Chosen(Picks(ms), pick, pre.next + |PicksOne(m)|)
      && Show(d, at, base, columns, pick, n) == Shown(pre.pieces + (p + q), pre.next + |PicksOne(m)| + |Picks(ms)|)
    ensures Adds([m] + ms, d, acc, how, false, at, base, columns, pick, n)
  {
    hide Show, Spell, Picks, SpellOne, PicksOne, Chosen;
    var pre := Show(acc, at, base, columns, pick, n);
    MarksStep(m, ms);
    SpellStep(m, ms, how, base, columns, at + |pre.pieces|, false);
    ChosenConcat(PicksOne(m), Picks(ms), pick, pre.next);
  }

  lemma AddsShows(ms: seq<Mark>, d: Doc, how: How, cut: bool, at: nat, base: nat, columns: int, pick: Picker, n: nat)
    requires Adds(ms, d, Empty, how, cut, at, base, columns, pick, n)
    ensures ShowsMarks(ms, d, how, cut, at, base, columns, pick, n)
  {
    ShowNothing(at, base, columns, pick, n);
    var p := Spell(ms, how, base, columns, at, cut);
    assert [] + p == p;
  }

  /** What stands between is what the break spells. */
  lemma AddsThree(m: Mark, ms: seq<Mark>, acc: Doc, mid: Doc, next: Doc, how: How, at: nat, base: nat, columns: int,
                  pick: Picker, n: nat)
    requires m.MBreak? && m.asked == None
    requires var pre := Show(acc, at, base, columns, pick, n);
      var p := SpellOne(m, base, columns, at + |pre.pieces|, false);
      && Show(mid, at + |pre.pieces|, base, columns, pick, pre.next) == Shown(p, pre.next)
      && ShowsMarks(ms, next, how, CutBy(m, how), at + |pre.pieces| + |p|, base, columns, pick, pre.next)
    ensures Adds([m] + ms, Concat([acc, mid, next]), acc, how, false, at, base, columns, pick, n)
  {
    assert PicksOne(m) == [];
    hide Show, Spell, Picks, Chosen, SpellOne, PicksOne, CutBy;
    var d, pre := Concat([acc, mid, next]), Show(acc, at, base, columns, pick, n);
    ShowThree(acc, mid, next, SpellOne(m, base, columns, at + |pre.pieces|, false), at, base, columns, pick, n);
    ChosenNone(pick, pre.next);
    AddsBreak(m, ms, d, acc, how, at, base, columns, pick, n);
  }

  lemma ChosenNone(pick: Picker, n: nat)
    ensures Chosen([], pick, n)
  {
  }

  lemma AddsCut(m: Mark, ms: seq<Mark>, acc: Doc, next: Doc, at: nat, base: nat, columns: int, pick: Picker, n: nat)
    requires m.MBreak? && !m.ends && m.asked == None && m.strength.Cut?
    requires var pre := Show(acc, at, base, columns, pick, n);
      ShowsMarks(ms, next, AsFlat, true, at + |pre.pieces|, base, columns, pick, pre.next)
    ensures Adds([m] + ms, Concat2(acc, next), acc, AsFlat, false, at, base, columns, pick, n)
  {
    hide Show, Spell, Picks, Chosen, Concat2;
    var pre := Show(acc, at, base, columns, pick, n);
    ChosenNone(pick, pre.next);
    ShowConcat(acc, next, at, base, columns, pick, n);
    var q := Spell(ms, AsFlat, base, columns, at + |pre.pieces|, true);
    assert [] + q == q;
    AddsBreak(m, ms, Concat2(acc, next), acc, AsFlat, at, base, columns, pick, n);
  }

  /** A soft break that decides on its own: what follows on the line, or on the next. */
  function ChoiceOf(m: Mark, flat: Doc, next: Doc, room: nat): Doc
    requires m.MBreak?
  {
    IfFlat(Horz(Txt(if m.strength.Space? then " " else ""), flat), Indent(m.columns, Vert([Empty, next])), room)
  }

  function Decided(m: Mark, acc: Doc, flat: Doc, next: Doc, room: nat): Doc
    requires m.MBreak?
  {
    Concat2(acc, ChoiceOf(m, flat, next, room))
  }

  lemma AddsDecidedFlat(m: Mark, ms: seq<Mark>, acc: Doc, flat: Doc, next: Doc, room: nat, at: nat, base: nat,
                        columns: int, pick: Picker, n: nat)
    requires var pre := Show(acc, at, base, columns, pick, n);
      var p := SpellOne(m, base, columns, at + |pre.pieces|, false);
      && m.MBreak? && !m.ends && !Hard(m.strength) && m.asked == Some(room) && pick(pre.next, room)
      && Show(flat, at + |pre.pieces| + |p|, at + |pre.pieces| + |p|, 0, pick, pre.next + 1)
        == Shown(Spell(ms, AsFill, base, columns, at + |pre.pieces| + |p|, false), pre.next + 1)
      && Picks(ms) == []
    ensures Adds([m] + ms, Decided(m, acc, flat, next, room), acc, AsFill, false, at, base, columns, pick, n)
  {
    hide *;
    var pre := Show(acc, at, base, columns, pick, n);
    var at' := at + |pre.pieces|;
    var p := SpellOne(m, base, columns, at', false);
    var q := Spell(ms, AsFill, base, columns, at' + |p|, false);
    var d, choice := Decided(m, acc, flat, next, room), ChoiceOf(m, flat, next, room);
    DecidedFlatIs(m, acc, flat, next, room, base, columns, at');
    ShowKept(m, flat, next, room, at', base, columns, pick, pre.next);
    assert Show(choice, at', base, columns, pick, pre.next) == Shown(p + q, pre.next + 1);
    ShowConcat(acc, choice, at, base, columns, pick, n);
    assert Show(d, at, base, columns, pick, n) == Shown(pre.pieces + (p + q), pre.next + 1);
    ChosenOne(true, room, pick, pre.next);
    ChosenNone(pick, pre.next + 1);
    AddsBreak(m, ms, d, acc, AsFill, at, base, columns, pick, n);
  }

  lemma DecidedFlatIs(m: Mark, acc: Doc, flat: Doc, next: Doc, room: nat, base: nat, columns: int, at: nat)
    requires m.MBreak? && !m.ends && !Hard(m.strength) && m.asked == Some(room)
    ensures Decided(m, acc, flat, next, room) == Concat2(acc, ChoiceOf(m, flat, next, room))
    ensures PicksOne(m) == [(true, room)] && !CutBy(m, AsFill)
  {
  }

  lemma ShowKept(m: Mark, flat: Doc, next: Doc, room: nat, at: nat, base: nat, columns: int, pick: Picker, n: nat)
    requires m.MBreak? && !m.ends && !Hard(m.strength) && pick(n, room)
    ensures var p := SpellOne(m, base, columns, at, false);
      var x := Show(flat, at + |p|, at + |p|, 0, pick, n + 1);
      Show(ChoiceOf(m, flat, next, room), at, base, columns, pick, n) == Shown(p + x.pieces, x.next)
  {
    hide Show;
    var s := if m.strength.Space? then " " else "";
    ShowChoice(Horz(Txt(s), flat), Indent(m.columns, Vert([Empty, next])), room, at, base, columns, pick, n);
    ShowBeside(Txt(s), flat, 0, at, base, columns, pick, n + 1);
    ShowTexts(0, s, at, base, columns, pick, n + 1);
  }

  lemma AddsDecidedEnd(m: Mark, ms: seq<Mark>, acc: Doc, flat: Doc, next: Doc, room: nat, at: nat, base: nat,
                       columns: int, pick: Picker, n: nat)
    requires var pre := Show(acc, at, base, columns, pick, n);
      && m.MBreak? && m.ends && !Hard(m.strength) && m.asked == Some(room) && !pick(pre.next, room)
      && Unbroken(ms)
      && ShowsMarks(ms, next, AsFill, false, at + |pre.pieces| + 1, base, columns + m.columns, pick, pre.next + 1)
    ensures Adds([m] + ms, Decided(m, acc, flat, next, room), acc, AsFill, false, at, base, columns, pick, n)
  {
    hide Show, Spell, Picks, Chosen, Unbroken;
    var pre := Show(acc, at, base, columns, pick, n);
    var at' := at + |pre.pieces|;
    var kept := Horz(Txt(if m.strength.Space? then " " else ""), flat);
    var broken := Indent(m.columns, Vert([Empty, next]));
    ChosenOne(false, room, pick, pre.next);
    ShowConcat(acc, IfFlat(kept, broken, room), at, base, columns, pick, n);
    ShowChoice(kept, broken, room, at', base, columns, pick, pre.next);
    ShowIndented(m.columns, Vert([Empty, next]), at', base, columns, pick, pre.next + 1);
    ShowOnNextLine(next, at', base, columns + m.columns, pick, pre.next + 1);
    UnbrokenAnywhere(ms, AsFill, base, columns + m.columns, at' + 1, false, base, columns);
    AddsBreak(m, ms, Decided(m, acc, flat, next, room), acc, AsFill, at, base, columns, pick, n);
  }

  lemma ShowIndented(more: int, d: Doc, at: nat, base: nat, columns: int, pick: Picker, n: nat)
    ensures Show(Indent(more, d), at, base, columns, pick, n) == Show(d, at, base, columns + more, pick, n)
  {
  }

  ghost predicate Before(b: Body, i: nat, mode: Mode, reserve: nat, n: nat, widths: Widths, more: seq<Mark>) {
    && Good(b, n) && i < |b.brks| && |b.segs| == |b.brks| + 1
    && Bare(more) == Rest(b, i + 1) && Legal(more, HowOf(mode), false, false, reserve, widths)
  }

  /** The marks of a break and the segment after it, in front of the others. */
  ghost predicate Fronts(front: seq<Mark>, more: seq<Mark>, b: Body, i: nat, how: How, reserve: nat, widths: Widths)
    requires |b.segs| == |b.brks| + 1 && i < |b.brks|
  {
    Bare(front) + Rest(b, i + 1) == Rest(b, i) && Legal(front + more, how, false, false, reserve, widths)
  }

  lemma FrontsJoin(m: Mark, ms: seq<Mark>, more: seq<Mark>, b: Body, i: nat, how: How, reserve: nat, widths: Widths)
    requires |b.segs| == |b.brks| + 1 && i < |b.brks|
    requires BareOne(m) == PBreak(b.brks[i].0, b.brks[i].1) && LegalOne(m, Onward(b, i + 1, 0), how, false, false,
        reserve,
      widths)
    requires Bare(ms) == Plains(b.segs[i + 1][0..]) && Bare(more) == Rest(b, i + 1)
    requires Legal(ms + more, how, TightBy(m, how, false), CutBy(m, how), reserve, widths)
    ensures Fronts([m] + ms, more, b, i, how, reserve, widths)
  {
    hide Legal, LegalOne, Bare, BareOne, Rest, Onward, TightBy, CutBy, Plains;
    OnwardIs(b, i + 1, 0);
    RestIs(b, i);
    FrontsBare(m, ms, Rest(b, i + 1), Rest(b, i));
    MarksConcat(ms, more);
    FrontsLegal(m, ms, more, how, reserve, widths);
  }

  lemma RestIs(b: Body, i: nat)
    requires |b.segs| == |b.brks| + 1 && i < |b.brks|
    ensures Rest(b, i) == [PBreak(b.brks[i].0, b.brks[i].1)] + Onward(b, i + 1, 0)
  {
    hide Rest, Onward;
    OnwardEnd(b, i);
  }

  lemma FrontsBare(m: Mark, ms: seq<Mark>, after: seq<Plain>, all: seq<Plain>)
    requires all == [BareOne(m)] + (Bare(ms) + after)
    ensures Bare([m] + ms) + after == all
  {
    hide Bare, BareOne;
    MarksStep(m, ms);
    assert [BareOne(m)] + Bare(ms) + after == [BareOne(m)] + (Bare(ms) + after);
  }

  lemma FrontsLegal(m: Mark, ms: seq<Mark>, more: seq<Mark>, how: How, reserve: nat, widths: Widths)
    requires LegalOne(m, Bare(ms + more), how, false, false, reserve, widths)
    requires Legal(ms + more, how, TightBy(m, how, false), CutBy(m, how), reserve, widths)
    ensures Legal([m] + ms + more, how, false, false, reserve, widths)
  {
    hide Legal, LegalOne, Bare, TightBy, CutBy;
    LegalStep(m, ms + more, how, false, false, reserve, widths);
    assert [m] + ms + more == [m] + (ms + more);
  }

  /** A line ends: at a hard break, where every break ends one, and where what follows cannot
      be on one line. */
  lemma {:induction false} EndShows(b: Body, i: nat, acc: Doc, mode: Mode, reserve: nat, n: nat, widths: Widths,
      at: nat,
      base: nat, columns: int, pick: Picker, k: nat, more: seq<Mark>) returns (front: seq<Mark>)
    requires Before(b, i, mode, reserve, n, widths, more)
    requires Hard(b.brks[i].0) || mode.Brkm? || (mode.Fill? && FlatDoc(b.segs[i + 1], Empty, widths).None?)
    ensures Fronts(front, more, b, i, HowOf(mode), reserve, widths)
    ensures Adds(front, Joined(b, i, acc, mode, reserve, n, widths), acc, HowOf(mode), false, at, base, columns,
        pick, k)
    decreases n, 7, 0
  {
    hide Show, Spell, Picks, SegDoc, FlatDoc, After, Joined, Legal, LegalOne, Rest, Onward, Bare, Plains, Adds, Fronts;
    var (str, ind) := b.brks[i];
    var m := MBreak(str, ind, true, None);
    var next := SegDoc(b, i + 1, 0, Empty, mode, reserve, n, widths);
    var pre := Show(acc, at, base, columns, pick, k);
    var at' := at + |pre.pieces|;
    var p := SpellOne(m, base, columns, at', false);
    JoinedEnd(b, i, acc, mode, reserve, n, widths);
    assert BareOne(m) == PBreak(str, ind) && !TightBy(m, HowOf(mode), false) && !CutBy(m, HowOf(mode));
    EndLegal(b, i, mode, reserve, n, widths);
    ShowLineBreak(ind, str.BlankLine?, at', base, columns, pick, pre.next);
    assert p == if str.BlankLine? then [End(base, columns + ind), End(base, columns + ind)] else [End(base,
      columns + ind)];
    hide *;
    var ms := SegShows(b, i + 1, 0, Empty, mode, reserve, n, widths, at' + |p|, base, columns, pick, pre.next, more);
    front := [m] + ms;
    FrontsJoin(m, ms, more, b, i, HowOf(mode), reserve, widths);
    AddsShows(ms, next, HowOf(mode), false, at' + |p|, base, columns, pick, pre.next);
    AddsThree(m, ms, acc, LineBreak(ind, str.BlankLine?), next, HowOf(mode), at, base, columns, pick, k);
  }

  lemma JoinedEnd(b: Body, i: nat, acc: Doc, mode: Mode, reserve: nat, n: nat, widths: Widths)
    requires Good(b, n) && i < |b.brks|
    requires Hard(b.brks[i].0) || mode.Brkm? || (mode.Fill? && FlatDoc(b.segs[i + 1], Empty, widths).None?)
    ensures Joined(b, i, acc, mode, reserve, n, widths)
         == Concat([acc, LineBreak(b.brks[i].1, b.brks[i].0.BlankLine?), SegDoc(b, i + 1, 0, Empty, mode, reserve, n,
           widths)])
    ensures Bump(b, i + 1, mode) == 0
  {
    hide LineBreak, SegDoc, FlatDoc;
  }

  lemma EndLegal(b: Body, i: nat, mode: Mode, reserve: nat, n: nat, widths: Widths)
    requires Good(b, n) && i < |b.brks|
    requires Hard(b.brks[i].0) || mode.Brkm? || (mode.Fill? && FlatDoc(b.segs[i + 1], Empty, widths).None?)
    ensures LegalOne(MBreak(b.brks[i].0, b.brks[i].1, true, None), Onward(b, i + 1, 0), HowOf(mode), false, false,
        reserve,
              widths)
  {
    hide FlatDoc, FlatAhead, Onward;
    FlatFits(b.segs[i + 1], Empty, widths);
    AheadFits(b, i + 1, 0);
    assert b.segs[i + 1][0..] == b.segs[i + 1];
  }

  /** A soft break in a body laid out flat. */
  lemma {:induction false} KeptShows(b: Body, i: nat, acc: Doc, mode: Mode, reserve: nat, n: nat, widths: Widths,
      at: nat,
      base: nat, columns: int, pick: Picker, k: nat, more: seq<Mark>) returns (front: seq<Mark>)
    requires Before(b, i, mode, reserve, n, widths, more) && mode.Flat? && !Hard(b.brks[i].0)
    ensures Fronts(front, more, b, i, HowOf(mode), reserve, widths)
    ensures Adds(front, Joined(b, i, acc, mode, reserve, n, widths), acc, HowOf(mode), false, at, base, columns,
        pick, k)
    decreases n, 7, 0
  {
    hide Show, Spell, Picks, SegDoc, FlatDoc, After, Joined, Legal, LegalOne, Rest, Onward, Bare, Plains, Adds, Fronts;
    var (str, ind) := b.brks[i];
    var m := MBreak(str, ind, false, None);
    var next := SegDoc(b, i + 1, 0, Empty, mode, reserve, n, widths);
    var pre := Show(acc, at, base, columns, pick, k);
    var p := if str.Space? then [Gap(" ")] else [];
    var at' := at + |pre.pieces|;
    assert p == SpellOne(m, base, columns, at', false) && BareOne(m) == PBreak(str, ind);
    assert !TightBy(m, AsFlat, false) && CutBy(m, AsFlat) == str.Cut? == (Bump(b, i + 1, mode) > 0);
    assert str.Space? || str.Cut?;
    JoinedKept(b, i, acc, mode, reserve, n, widths);
    hide *;
    var ms := SegShows(b, i + 1, 0, Empty, mode, reserve, n, widths, at' + |p|, base, columns, pick, pre.next, more);
    front := [m] + ms;
    FrontsJoin(m, ms, more, b, i, AsFlat, reserve, widths);
    AddsShows(ms, next, AsFlat, str.Cut?, at' + |p|, base, columns, pick, pre.next);
    if str.Space? {
      ShowTexts(0, " ", at', base, columns, pick, pre.next);
      AddsThree(m, ms, acc, Txt(" "), next, AsFlat, at, base, columns, pick, k);
    } else {
      AddsCut(m, ms, acc, next, at, base, columns, pick, k);
    }
  }

  lemma JoinedKept(b: Body, i: nat, acc: Doc, mode: Mode, reserve: nat, n: nat, widths: Widths)
    requires Good(b, n) && i < |b.brks| && mode.Flat? && !Hard(b.brks[i].0)
    ensures var next := SegDoc(b, i + 1, 0, Empty, mode, reserve, n, widths);
      Joined(b, i, acc, mode, reserve, n, widths)
        == if b.brks[i].0.Space? then Concat([acc, Txt(" "), next]) else Concat2(acc, next)
    ensures HowOf(mode) == AsFlat
    ensures LegalOne(MBreak(b.brks[i].0, b.brks[i].1, false, None), Onward(b, i + 1, 0), AsFlat, false, false,
        reserve, widths)
  {
    hide SegDoc, Concat2, Onward;
  }

  /** A soft break that decides on its own, and is kept flat. */
  lemma {:induction false} DecidedFlat(b: Body, i: nat, acc: Doc, reserve: nat, n: nat, widths: Widths, at: nat,
      base: nat, columns: int, pick: Picker, k: nat, more: seq<Mark>) returns (front: seq<Mark>)
    requires Before(b, i, Fill, reserve, n, widths, more) && !Hard(b.brks[i].0)
    requires FlatDoc(b.segs[i + 1], Empty, widths).Some?
    requires pick(Show(acc, at, base, columns, pick, k).next, After(b, i + 1, Fill, reserve, n, widths))
    ensures Fronts(front, more, b, i, AsFill, reserve, widths)
    ensures Adds(front, Joined(b, i, acc, Fill, reserve, n, widths), acc, AsFill, false, at, base, columns, pick, k)
  {
    hide Show, Spell, Picks, SegDoc, FlatDoc, After, Joined, Legal, LegalOne, Rest, Onward, Bare, Plains, Adds, Fronts;
    var (str, ind) := b.brks[i];
    var seg, room := b.segs[i + 1], After(b, i + 1, Fill, reserve, n, widths);
    var m := MBreak(str, ind, false, Some(room));
    var next, flat := SegDoc(b, i + 1, 0, Empty, Fill, reserve, n, widths), FlatDoc(seg, Empty, widths).value;
    var pre := Show(acc, at, base, columns, pick, k);
    var at' := at + |pre.pieces| + |SpellOne(m, base, columns, at + |pre.pieces|, false)|;
    assert BareOne(m) == PBreak(str, ind) && TightBy(m, AsFill, false) && !CutBy(m, AsFill) && NoBreaks(seg);
    assert seg[0..] == seg;
    assert m.MBreak? && !m.ends && m.asked == Some(room) && m.strength == str && m.columns == ind;
    JoinedDecided(b, i, acc, false, reserve, n, widths);
    hide *;
    var ms := FlatShows(seg, Empty, widths, at', at', 0, pick, pre.next + 1);
    front := [m] + ms;
    UnbrokenBare(ms, seg);
    RestBreakFirst(b, i + 1, more);
    TightSegment(ms, more, false, reserve, widths, false, false, 0);
    FrontsJoin(m, ms, more, b, i, AsFill, reserve, widths);
    FlatAnywhere(ms, flat, widths, at', base, columns, pick, pre.next + 1);
    AddsDecidedFlat(m, ms, acc, flat, next, room, at, base, columns, pick, k);
  }

  lemma FlatAnywhere(ms: seq<Mark>, flat: Doc, widths: Widths, at: nat, base: nat, columns: int, pick: Picker, n: nat)
    requires Legal(ms, Whole, false, false, 0, widths)
    requires var none := Show(Empty, at, at, 0, pick, n);
      Show(flat, at, at, 0, pick, n) == Shown(none.pieces + Spell(ms, Whole, at, 0, at + |none.pieces|, false),
        none.next)
    ensures Show(flat, at, at, 0, pick, n) == Shown(Spell(ms, AsFill, base, columns, at, false), n)
  {
    hide Legal, Spell;
    ShowNothing(at, at, 0, pick, n);
    WholeSpelling(ms, false, false, 0, widths, Whole, at, 0, at, AsFill, base, columns);
    var p := Spell(ms, Whole, at, 0, at, false);
    assert [] + p == p;
  }

  lemma JoinedDecided(b: Body, i: nat, acc: Doc, ends: bool, reserve: nat, n: nat, widths: Widths)
    requires Good(b, n) && i < |b.brks| && !Hard(b.brks[i].0) && FlatDoc(b.segs[i + 1], Empty, widths).Some?
    ensures var room := After(b, i + 1, Fill, reserve, n, widths);
      var m := MBreak(b.brks[i].0, b.brks[i].1, ends, Some(room));
      && Joined(b, i, acc, Fill, reserve, n, widths)
        == Decided(m, acc, FlatDoc(b.segs[i + 1], Empty, widths).value,
                   SegDoc(b, i + 1, 0, Empty, Fill, reserve, n, widths), room)
      && LegalOne(m, Onward(b, i + 1, 0), AsFill, false, false, reserve, widths)
    ensures HowOf(Fill) == AsFill && Bump(b, i + 1, Fill) == 0
  {
    hide FlatDoc, FlatAhead, Onward, SegDoc, After, Beyond;
    FlatFits(b.segs[i + 1], Empty, widths);
    AheadFits(b, i + 1, 0);
    BeyondSegment(b, i + 1, 0, reserve, n, widths);
    assert b.segs[i + 1][0..] == b.segs[i + 1];
  }

  /** A soft break that decides on its own, and ends the line. */
  lemma {:induction false} DecidedEnd(b: Body, i: nat, acc: Doc, reserve: nat, n: nat, widths: Widths, at: nat,
      base: nat, columns: int, pick: Picker, k: nat, more: seq<Mark>) returns (front: seq<Mark>)
    requires Before(b, i, Fill, reserve, n, widths, more) && !Hard(b.brks[i].0)
    requires FlatDoc(b.segs[i + 1], Empty, widths).Some?
    requires !pick(Show(acc, at, base, columns, pick, k).next, After(b, i + 1, Fill, reserve, n, widths))
    ensures Fronts(front, more, b, i, AsFill, reserve, widths)
    ensures Adds(front, Joined(b, i, acc, Fill, reserve, n, widths), acc, AsFill, false, at, base, columns, pick, k)
    decreases n, 7, 0
  {
    hide Show, Spell, Picks, SegDoc, FlatDoc, After, Joined, Legal, LegalOne, Rest, Onward, Bare, Plains, Adds, Fronts;
    var (str, ind) := b.brks[i];
    var seg, room := b.segs[i + 1], After(b, i + 1, Fill, reserve, n, widths);
    var m := MBreak(str, ind, true, Some(room));
    var next, flat := SegDoc(b, i + 1, 0, Empty, Fill, reserve, n, widths), FlatDoc(seg, Empty, widths).value;
    var pre := Show(acc, at, base, columns, pick, k);
    var at' := at + |pre.pieces| + 1;
    assert BareOne(m) == PBreak(str, ind) && !TightBy(m, AsFill, false) && !CutBy(m, AsFill) && NoBreaks(seg);
    assert seg[0..] == seg;
    assert m.MBreak? && m.ends && m.asked == Some(room) && m.strength == str && m.columns == ind;
    JoinedDecided(b, i, acc, true, reserve, n, widths);
    hide *;
    var ms := SegShows(b, i + 1, 0, Empty, Fill, reserve, n, widths, at', base, columns + ind, pick, pre.next + 1,
      more);
    front := [m] + ms;
    UnbrokenBare(ms, seg);
    FrontsJoin(m, ms, more, b, i, AsFill, reserve, widths);
    AddsShows(ms, next, AsFill, false, at', base, columns + ind, pick, pre.next + 1);
    AddsDecidedEnd(m, ms, acc, flat, next, room, at, base, columns, pick, k);
  }

  /** A break and the segment after it, given the marks of what comes after them. */
  lemma {:induction false} BreakShows(b: Body, i: nat, acc: Doc, mode: Mode, reserve: nat, n: nat, widths: Widths,
      at: nat, base: nat, columns: int, pick: Picker, k: nat, more: seq<Mark>) returns (front: seq<Mark>)
    requires Before(b, i, mode, reserve, n, widths, more)
    ensures Fronts(front, more, b, i, HowOf(mode), reserve, widths)
    ensures Adds(front, Joined(b, i, acc, mode, reserve, n, widths), acc, HowOf(mode), false, at, base, columns,
        pick, k)
    decreases n, 7, 1
  {
    var soft := !Hard(b.brks[i].0);
    assert HowOf(Fill) == AsFill;
    hide Joined, Fronts, Adds, Before, Show, After, FlatDoc;
    if soft && mode.Flat? {
      front := KeptShows(b, i, acc, mode, reserve, n, widths, at, base, columns, pick, k, more);
    } else if soft && mode.Fill? && FlatDoc(b.segs[i + 1], Empty, widths).Some? {
      if pick(Show(acc, at, base, columns, pick, k).next, After(b, i + 1, Fill, reserve, n, widths)) {
        front := DecidedFlat(b, i, acc, reserve, n, widths, at, base, columns, pick, k, more);
      } else {
        front := DecidedEnd(b, i, acc, reserve, n, widths, at, base, columns, pick, k, more);
      }
    } else {
      front := EndShows(b, i, acc, mode, reserve, n, widths, at, base, columns, pick, k, more);
    }
  }

  // ------------------------------------------------- the spellings, and no others

  lemma {:induction false} BareSize(ms: seq<Mark>)
    ensures |Bare(ms)| == |ms|
    decreases |ms|
  {
    if ms != [] { BareSize(ms[1..]); }
  }

  lemma ChosenParts(a: seq<(bool, nat)>, b: seq<(bool, nat)>, pick: Picker, n: nat)
    requires Chosen(a + b, pick, n)
    ensures Chosen(a, pick, n) && Chosen(b, pick, n + |a|)
  {
    forall i | 0 <= i < |a| ensures a[i].0 == pick(n + i, a[i].1) { assert (a + b)[i] == a[i]; }
    forall i | 0 <= i < |b| ensures b[i].0 == pick(n + |a| + i, b[i].1) { assert (a + b)[|a| + i] == b[i]; }
  }

  /** The choices determine what is legal. */
  lemma {:induction false} Determined(a: seq<Mark>, b: seq<Mark>, how: How, tight: bool, cut: bool, reserve: nat,
                                      widths: Widths, pick: Picker, n: nat)
    requires Bare(a) == Bare(b)
    requires Legal(a, how, tight, cut, reserve, widths) && Legal(b, how, tight, cut, reserve, widths)
    requires Chosen(Picks(a), pick, n) && Chosen(Picks(b), pick, n)
    ensures a == b
    decreases a
  {
    BareSize(a);
    BareSize(b);
    if a != [] {
      assert Bare(a)[0] == BareOne(a[0]) && Bare(b)[0] == BareOne(b[0]);
      assert Bare(a)[1..] == Bare(a[1..]) && Bare(b)[1..] == Bare(b[1..]);
      ChosenParts(PicksOne(a[0]), Picks(a[1..]), pick, n);
      ChosenParts(PicksOne(b[0]), Picks(b[1..]), pick, n);
      OneDetermined(a[0], b[0], Bare(a[1..]), how, tight, cut, reserve, widths, pick, n);
      Determined(a[1..], b[1..], how, TightBy(a[0], how, tight), CutBy(a[0], how), reserve, widths, pick,
        n + |PicksOne(a[0])|);
      assert a == [a[0]] + a[1..] && b == [b[0]] + b[1..];
    }
  }

  lemma {:induction false} OneDetermined(a: Mark, b: Mark, ahead: seq<Plain>, how: How, tight: bool, cut: bool,
                                         reserve: nat, widths: Widths, pick: Picker, n: nat)
    requires BareOne(a) == BareOne(b)
    requires LegalOne(a, ahead, how, tight, cut, reserve, widths) && LegalOne(b, ahead, how, tight, cut, reserve,
        widths)
    requires Chosen(PicksOne(a), pick, n) && Chosen(PicksOne(b), pick, n)
    ensures a == b
    decreases a
  {
    match a
    case MText(_, _, _) =>
    case MBreak(_, _, _, asked) =>
      assert asked == b.asked;
      if asked.Some? { assert PicksOne(a)[0].0 == pick(n, asked.value) == PicksOne(b)[0].0; }
    case MGroup(kind, _, body, _, h, asked, marks) =>
      var room := Trail(ahead, how, reserve, widths);
      assert asked == b.asked;
      if asked.Some? {
        assert PicksOne(a)[0].0 == pick(n, asked.value) == PicksOne(b)[0].0;
        ChosenParts([(h.AsFlat?, asked.value)], Picks(marks), pick, n);
        ChosenParts([(b.how.AsFlat?, asked.value)], Picks(b.marks), pick, n);
        assert h == b.how;
        Determined(marks, b.marks, h, false, false, room, widths, pick, n + 1);
      } else {
        assert [] + Picks(marks) == Picks(marks) && [] + Picks(b.marks) == Picks(b.marks);
        assert h == b.how;
        Determined(marks, b.marks, h, false, false, room, widths, pick, n);
      }
  }

  /** Legal marks of the content of a body. */
  ghost predicate MarksOf(ms: seq<Mark>, items: seq<Node>, mode: Mode, reserve: nat, widths: Widths) {
    Bare(ms) == Content(items, 0, mode.Brkm?, false) && Legal(ms, HowOf(mode), false, false, reserve, widths)
  }

  /** What a document shows is what legal marks spell. */
  ghost predicate Spells(d: Doc, items: seq<Node>, mode: Mode, reserve: nat, widths: Widths, at: nat, base: nat,
                         columns: int, pick: Picker, n: nat)
  {
    exists ms | MarksOf(ms, items, mode, reserve, widths) ::
      ShowsMarks(ms, d, HowOf(mode), false, at, base, columns, pick, n)
  }

  /** The choices that lead to marks. */
  function Choosing(ms: seq<Mark>, n: nat): Picker {
    (i: nat, reserve: nat) => n <= i < n + |Picks(ms)| && Picks(ms)[i - n].0
  }

  /** Whatever is chosen, the document laid out for a body shows what legal marks of its
      content spell; and there are choices for which it shows what any given ones spell. */
  lemma ShowsLegalSpellings(items: seq<Node>, mode: Mode, reserve: nat, widths: Widths, at: nat, base: nat,
      columns: int,
                            n: nat)
    ensures var d := Lay(items, mode, reserve, widths);
      && (forall pick :: Spells(d, items, mode, reserve, widths, at, base, columns, pick, n))
      && forall ms | MarksOf(ms, items, mode, reserve, widths) ::
        ShowsMarks(ms, d, HowOf(mode), false, at, base, columns, Choosing(ms, n), n)
  {
    hide Show, Lay, Spell, Legal, Bare, Content, Picks, HowOf;
    var d, how := Lay(items, mode, reserve, widths), HowOf(mode);
    forall pick: Picker ensures Spells(d, items, mode, reserve, widths, at, base, columns, pick, n) {
      var ms := LayShows(items, mode, reserve, widths, at, base, columns, pick, n);
      assert MarksOf(ms, items, mode, reserve, widths) && ShowsMarks(ms, d, how, false, at, base, columns, pick, n);
    }
    forall ms | MarksOf(ms, items, mode, reserve, widths)
      ensures ShowsMarks(ms, d, how, false, at, base, columns, Choosing(ms, n), n)
    {
      var pick := Choosing(ms, n);
      var shown := LayShows(items, mode, reserve, widths, at, base, columns, pick, n);
      assert Chosen(Picks(ms), pick, n);
      Determined(shown, ms, how, false, false, reserve, widths, pick, n);
    }
  }
}
