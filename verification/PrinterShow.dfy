// What a lowered document shows. A document leaves choices open; for every way of making
// them, what is shown spells out the tree it was lowered from.
module PrinterShow {
  import opened Outcomes
  import opened PrinterTree
  import opened PrinterLower

  // --------------------------------------------------- what a document shows

  /** Text, text written as it is, spaces, or the end of a line: the next line starts at a
      number of columns to the right of where an earlier piece was to begin. */
  datatype Piece = Word(width: nat, text: string) | Verbatim(text: string) | Gap(text: string)
      | End(base: nat, columns: int)

  /** Whether the n-th choice that comes up, with so many columns to be kept free, takes
      the flat side. */
  type Picker = (nat, nat) -> bool

  datatype Shown = Shown(pieces: seq<Piece>, next: nat)

  /** `at` pieces come before, the ambient indent is `columns` to the right of where piece
      `base` begins, and `n` choices have been made. */
  function Show(d: Doc, at: nat, base: nat, columns: int, pick: Picker, n: nat): Shown
    decreases d
  {
    match d
    case Empty => Shown([], n)
    case Txt(s) => Shown(if s == "" then [] else [Gap(s)], n)
    case TxtAs(s, w) => Shown([Word(w, s)], n)
    case TxtRaw(s) => Shown([Verbatim(s)], n)
    case Concat(parts) => ShowAll(parts, at, base, columns, pick, n)
    case Vert(parts) => ShowLines(parts, at, base, columns, pick, n)
    case Indent(more, x) => Show(x, at, base, columns + more, pick, n)
    case Horz(x, y) =>
      var a := Show(x, at, base, columns, pick, n);
      var b := Show(y, at + |a.pieces|, at + |a.pieces|, 0, pick, a.next);
      Shown(a.pieces + b.pieces, b.next)
    case IfFlat(x, y, reserve) => Show(if pick(n, reserve) then x else y, at, base, columns, pick, n + 1)
  }

  function ShowAll(ds: seq<Doc>, at: nat, base: nat, columns: int, pick: Picker, n: nat): Shown
    decreases ds
  {
    if ds == [] then Shown([], n)
    else
      var a := Show(ds[0], at, base, columns, pick, n);
      var b := ShowAll(ds[1..], at + |a.pieces|, base, columns, pick, a.next);
      Shown(a.pieces + b.pieces, b.next)
  }

  function ShowLines(ds: seq<Doc>, at: nat, base: nat, columns: int, pick: Picker, n: nat): Shown
    decreases ds
  {
    if ds == [] then Shown([], n)
    else
      var a := Show(ds[0], at, base, columns, pick, n);
      if |ds| == 1 then a
      else
        var b := ShowLines(ds[1..], at + |a.pieces| + 1, base, columns, pick, a.next);
        Shown(a.pieces + [End(base, columns)] + b.pieces, b.next)
  }

  // ------------------------------------------------- what a tree is to show

  /** The content of a body in order: nests are added up in the breaks they are around, and
      what is for broken groups only is there in those only, hidden from the fit scan. */
  datatype Plain = PText(width: nat, text: string, hidden: bool) | PBreak(strength: Strength, columns: int)
      | PGroup(kind: Kind, id: nat, body: seq<Node>, hidden: bool)

  function Content(items: seq<Node>, columns: int, broken: bool, hidden: bool): seq<Plain> {
    if items == [] then []
    else ContentOf(items[0], columns, broken, hidden) + Content(items[1..], columns, broken, hidden)
  }

  function ContentOf(n: Node, columns: int, broken: bool, hidden: bool): seq<Plain> {
    match n
    case Text(w, s) => [PText(w, s, hidden)]
    case Brk(s) => [PBreak(s, columns)]
    case Group(k, id, body) => [PGroup(k, id, body, hidden)]
    case Nest(i, body) => Content(body, columns + i, broken, hidden)
    case IfBroken(body) => if broken then Content(body, columns, broken, true) else []
    case Nop => []
  }

  /** How a body is laid out: on one line but for hard breaks, with every break a line end,
      with each soft break decided on its own, or all of it on one line. */
  datatype How = AsFlat | AsBroken | AsFill | Whole

  /** Content with what was decided: whether a break ends the line, how a group is laid out,
      and where there was a choice, the columns that were to be kept free. */
  datatype Mark = MText(width: nat, text: string, hidden: bool)
      | MBreak(strength: Strength, columns: int, ends: bool, asked: Option<nat>)
      | MGroup(kind: Kind, id: nat, body: seq<Node>, hidden: bool, how: How, asked: Option<nat>, marks: seq<Mark>)

  function BareOne(m: Mark): Plain {
    match m
    case MText(w, s, hidden) => PText(w, s, hidden)
    case MBreak(s, c, _, _) => PBreak(s, c)
    case MGroup(k, id, body, hidden, _, _, _) => PGroup(k, id, body, hidden)
  }

  function Bare(ms: seq<Mark>): seq<Plain> { if ms == [] then [] else [BareOne(ms[0])] + Bare(ms[1..]) }

  predicate Hard(s: Strength) { s.Newline? || s.BlankLine? }

  /** No line has to end, and no text has lines of its own. */
  predicate CanFlatten(items: seq<Node>) {
    items != [] ==> CanFlattenOne(items[0]) && CanFlatten(items[1..])
  }

  predicate CanFlattenOne(n: Node) {
    match n
    case Text(_, s) => !MultiLine(s)
    case Brk(s) => !Hard(s)
    case Group(_, _, body) => CanFlatten(body)
    case Nest(_, body) => CanFlatten(body)
    case IfBroken(_) => true
    case Nop => true
  }

  predicate FlatPart(p: Plain) {
    match p
    case PText(_, s, _) => !MultiLine(s)
    case PBreak(s, _) => !Hard(s)
    case PGroup(_, _, body, _) => CanFlatten(body)
  }

  /** What comes up to the next break can be on one line. */
  predicate FlatAhead(ps: seq<Plain>) { ps != [] && !ps[0].PBreak? ==> FlatPart(ps[0]) && FlatAhead(ps[1..]) }

  /** The width that the layout library gives to the flat form of a body. */
  function FlatWidth(body: seq<Node>, widths: Widths): Option<nat> {
    match GroupFlat(body, widths) case None => None case Some(d) => widths(d)
  }

  /** The columns that content takes on a line, where it can be on one; the fit scan skips
      what is hidden. */
  function Takes(p: Plain, widths: Widths): Option<nat> {
    match p
    case PText(w, s, hidden) => if hidden then Some(0) else if MultiLine(s) then None else Some(w)
    case PBreak(s, _) => if Hard(s) then None else if s.Space? then Some(1) else Some(0)
    case PGroup(_, _, body, hidden) => if hidden then Some(0) else FlatWidth(body, widths)
  }

  /** How many columns what comes next takes on the line: up to the next break, or in a body
      laid out flat up to its end and past it. Nothing fits beside what cannot be flat. */
  function Trail(ps: seq<Plain>, how: How, reserve: nat, widths: Widths): nat {
    if ps == [] then Cap(reserve)
    else if ps[0].PBreak? && !how.AsFlat? then 0
    else match Takes(ps[0], widths)
      case None => UNFIT
      case Some(w) => Cap(w + Trail(ps[1..], how, reserve, widths))
  }

  /** The columns to be kept free after the content up to the next break. */
  function Beyond(ps: seq<Plain>, reserve: nat): nat {
    if ps == [] then reserve else if ps[0].PBreak? then 0 else Beyond(ps[1..], reserve)
  }

  /** How a group of a kind may be laid out, with so much room to be left after it. There is
      a choice for one kind only, when the layout library gives its flat form a width. */
  predicate Allowed(kind: Kind, body: seq<Node>, how: How, asked: Option<nat>, room: nat, cut: bool, widths: Widths) {
    match kind
    case GH => how.AsFlat? && asked == None
    case GV => how.AsBroken? && asked == None
    case GBox => how.AsFill? && asked == None
    case GHov => how.AsFill? && asked == None
    case GHv =>
      if widths(Lay(body, Flat, room, widths)).None? then how.AsBroken? && asked == None
      else (how.AsFlat? || how.AsBroken?) && asked == Some(Cap(room + if cut then 1 else 0))
  }

  /** The decisions are right. `tight` is whether the last break was decided, and is flat;
      `cut` is whether a cut that was kept flat comes right before. */
  predicate Legal(ms: seq<Mark>, how: How, tight: bool, cut: bool, reserve: nat, widths: Widths)
    decreases ms
  {
    ms != [] ==>
      && LegalOne(ms[0], Bare(ms[1..]), how, tight, cut, reserve, widths)
      && Legal(ms[1..], how, TightBy(ms[0], how, tight), CutBy(ms[0], how), reserve, widths)
  }

  predicate TightBy(m: Mark, how: How, tight: bool) { if m.MBreak? then how.AsFill? && !m.ends else tight }

  predicate CutBy(m: Mark, how: How) { m.MBreak? && m.strength.Cut? && !m.ends && how.AsFlat? }

  /** A hard break always ends the line, a soft one as the body is laid out. Where each soft
      break decides, it is asked exactly when what follows can be on one line; and when it
      then does not end the line, what follows is. */
  predicate LegalOne(m: Mark, ahead: seq<Plain>, how: How, tight: bool, cut: bool, reserve: nat, widths: Widths)
    decreases m
  {
    match m
    case MText(_, s, _) => how.Whole? || tight ==> !MultiLine(s)
    case MBreak(s, _, ends, asked) =>
      (match how
       case Whole => !Hard(s) && !ends && asked == None
       case AsFlat => ends == Hard(s) && asked == None
       case AsBroken => ends && asked == None
       case AsFill =>
         if Hard(s) || !FlatAhead(ahead) then ends && asked == None else asked == Some(Beyond(ahead, reserve)))
    case MGroup(kind, _, body, _, h, asked, marks) =>
      var room := Trail(ahead, how, reserve, widths);
      && Bare(marks) == Content(body, 0, h.AsBroken?, false)
      && (if how.Whole? || tight then h.Whole? && asked == None
          else Allowed(kind, body, h, asked, room, cut, widths))
      && Legal(marks, h, false, false, room, widths)
  }

  /** The choices that were made, in order: the flat side or not, and the columns that were
      to be kept free. */
  function Picks(ms: seq<Mark>): seq<(bool, nat)> { if ms == [] then [] else PicksOne(ms[0]) + Picks(ms[1..]) }

  function PicksOne(m: Mark): seq<(bool, nat)> {
    match m
    case MText(_, _, _) => []
    case MBreak(_, _, ends, asked) => if asked.Some? then [(!ends, asked.value)] else []
    case MGroup(_, _, _, _, how, asked, marks) =>
      (if asked.Some? then [(how.AsFlat?, asked.value)] else []) + Picks(marks)
  }

  predicate Chosen(picks: seq<(bool, nat)>, pick: Picker, n: nat) {
    forall i | 0 <= i < |picks| :: picks[i].0 == pick(n + i, picks[i].1)
  }

  /** What marks spell: texts; an empty line for the strongest break, and a line end for any
      other that ends the line, at its nesting; a space or nothing for one that does not. A
      group's lines start where the group begins, or one column to the right of it when it
      opens after a cut that was kept flat. */
  function Spell(ms: seq<Mark>, how: How, base: nat, columns: int, at: nat, cut: bool): seq<Piece>
    decreases ms
  {
    if ms == [] then []
    else
      var p := SpellOne(ms[0], base, columns, at, cut);
      p + Spell(ms[1..], how, base, columns, at + |p|, CutBy(ms[0], how))
  }

  function SpellOne(m: Mark, base: nat, columns: int, at: nat, cut: bool): seq<Piece>
    decreases m
  {
    match m
    case MText(w, s, _) => [if MultiLine(s) then Verbatim(s) else Word(w, s)]
    case MBreak(s, c, ends, _) =>
      if ends then (if s.BlankLine? then [End(base, columns + c), End(base, columns + c)] else [End(base, columns + c)])
      else if s.Space? then [Gap(" ")] else []
    case MGroup(_, _, _, _, how, _, marks) => Spell(marks, how, at, if cut then 1 else 0, at, false)
  }

  // ------------------------------------------------ the atoms are the content

  function HowOf(mode: Mode): How { match mode case Flat => AsFlat case Brkm => AsBroken case Fill => AsFill }

  function PlainOf(a: Atom): Plain {
    match a.kind
    case ATxt(w, s) => PText(w, s, a.hidden)
    case ABrk(s, ind) => PBreak(s, ind)
    case AGrp(k, id, body) => PGroup(k, id, body, a.hidden)
  }

  function Plains(ats: seq<Atom>): (ps: seq<Plain>)
    ensures |ps| == |ats|
  {
    if ats == [] then [] else [PlainOf(ats[0])] + Plains(ats[1..])
  }

  lemma PlainsStep(a: Atom, ats: seq<Atom>)
    ensures Plains([a] + ats) == [PlainOf(a)] + Plains(ats)
  {
    assert ([a] + ats)[1..] == ats;
  }

  lemma {:induction false} PlainsConcat(a: seq<Atom>, b: seq<Atom>)
    ensures Plains(a + b) == Plains(a) + Plains(b)
  {
    hide PlainOf, Plains;
    if a == [] {
      assert a + b == b && |Plains(a)| == 0;
      assert Plains(a) == [];
    } else {
      var rest := a[1..];
      assert a == [a[0]] + rest && a + b == [a[0]] + (rest + b);
      PlainsConcat(rest, b);
      PlainsStep(a[0], rest);
      PlainsStep(a[0], rest + b);
      assert [PlainOf(a[0])] + (Plains(rest) + Plains(b)) == [PlainOf(a[0])] + Plains(rest) + Plains(b);
    }
  }

  lemma {:induction false} AtomsAreContent(items: seq<Node>, ind: int, mode: Mode, hidden: bool)
    ensures Plains(Atoms(items, ind, mode, hidden)) == Content(items, ind, mode.Brkm?, hidden)
    decreases items
  {
    if items != [] {
      PlainsConcat(AtomsOf(items[0], ind, mode, hidden), Atoms(items[1..], ind, mode, hidden));
      AtomsAreContent(items[1..], ind, mode, hidden);
      NodeIsContent(items[0], ind, mode, hidden);
    }
  }

  lemma {:induction false} NodeIsContent(x: Node, ind: int, mode: Mode, hidden: bool)
    ensures Plains(AtomsOf(x, ind, mode, hidden)) == ContentOf(x, ind, mode.Brkm?, hidden)
    decreases x
  {
    hide Plains, Atoms, Content;
    match x
    case Nop => PlainsFew(Atom(ATxt(0, ""), hidden));
    case Text(w, s) => PlainsFew(Atom(ATxt(w, s), hidden));
    case Brk(s) => PlainsFew(Atom(ABrk(s, ind), hidden));
    case Group(k, id, body) => PlainsFew(Atom(AGrp(k, id, body), hidden));
    case Nest(i, body) => AtomsAreContent(body, ind + i, mode, hidden);
    case IfBroken(body) =>
      PlainsFew(Atom(ATxt(0, ""), hidden));
      AtomsAreContent(body, ind, mode, true);
  }

  lemma PlainsFew(a: Atom)
    ensures Plains([]) == [] && Plains([a]) == [PlainOf(a)]
  {
    assert [a][1..] == [];
  }

  /** What a split body holds from a segment on, and what it holds after it. */
  function From(b: Body, i: nat): seq<Plain>
    requires |b.segs| == |b.brks| + 1 && i <= |b.brks|
    decreases |b.brks| - i, 1
  {
    Plains(b.segs[i]) + Rest(b, i)
  }

  function Rest(b: Body, i: nat): seq<Plain>
    requires |b.segs| == |b.brks| + 1 && i <= |b.brks|
    decreases |b.brks| - i, 0
  {
    if i == |b.brks| then [] else [PBreak(b.brks[i].0, b.brks[i].1)] + From(b, i + 1)
  }

  ghost predicate NoBreaks(ats: seq<Atom>) { forall a | a in ats :: !a.kind.ABrk? }

  lemma {:induction false} FromBreak(b: Body, brk: (Strength, int), i: nat)
    requires |b.segs| == |b.brks| + 1 && i <= |b.brks|
    ensures From(Body(b.segs + [[]], b.brks + [brk]), i) == From(b, i) + [PBreak(brk.0, brk.1)]
    decreases |b.brks| - i
  {
    var c := Body(b.segs + [[]], b.brks + [brk]);
    if i < |b.brks| {
      FromBreak(b, brk, i + 1);
    } else {
      assert From(c, i + 1) == [];
    }
  }

  lemma {:induction false} FromAtom(b: Body, a: Atom, i: nat)
    requires |b.segs| == |b.brks| + 1 && i <= |b.brks|
    ensures From(Body(b.segs[|b.segs| - 1 := b.segs[|b.segs| - 1] + [a]], b.brks), i) == From(b, i) + [PlainOf(a)]
    decreases |b.brks| - i
  {
    if i < |b.brks| {
      FromAtom(b, a, i + 1);
    } else {
      PlainsConcat(b.segs[i], [a]);
    }
  }

  /** Splitting a body loses nothing, and the segments are free of breaks. */
  lemma {:induction false} SplitJoins(ats: seq<Atom>)
    ensures From(SplitBody(ats), 0) == Plains(ats)
    ensures forall i | 0 <= i < |SplitBody(ats).segs| :: NoBreaks(SplitBody(ats).segs[i])
  {
    if ats != [] {
      var last, front := ats[|ats| - 1], ats[..|ats| - 1];
      var b := SplitBody(front);
      SplitJoins(front);
      PlainsConcat(front, [last]);
      assert ats == front + [last];
      if last.kind.ABrk? { FromBreak(b, (last.kind.strength, last.kind.indent), 0); } else { FromAtom(b, last, 0); }
    }
  }

  // ------------------------------------------------- the reserves are the trail

  /** What stands at a place of a segment and after it in the body. */
  function Onward(b: Body, si: nat, j: nat): seq<Plain>
    requires |b.segs| == |b.brks| + 1 && si <= |b.brks| && j <= |b.segs[si]|
  {
    Plains(b.segs[si][j..]) + Rest(b, si)
  }

  lemma OnwardStep(b: Body, si: nat, j: nat)
    requires |b.segs| == |b.brks| + 1 && si <= |b.brks| && j < |b.segs[si]|
    ensures b.segs[si][j..] == [b.segs[si][j]] + b.segs[si][j + 1..]
    ensures Onward(b, si, j) == [PlainOf(b.segs[si][j])] + Onward(b, si, j + 1)
  {
    var seg := b.segs[si];
    assert seg[j..][0] == seg[j] && seg[j..][1..] == seg[j + 1..];
  }

  lemma OnwardEnd(b: Body, si: nat)
    requires |b.segs| == |b.brks| + 1 && si <= |b.brks|
    ensures Onward(b, si, |b.segs[si]|) == Rest(b, si) && b.segs[si][|b.segs[si]|..] == []
    ensures Rest(b, si)
         == if si == |b.brks| then [] else [PBreak(b.brks[si].0, b.brks[si].1)] + Onward(b, si + 1, 0)
  {
    if si < |b.brks| { assert b.segs[si + 1][0..] == b.segs[si + 1]; }
  }

  lemma AtomTakes(a: Atom, widths: Widths)
    requires !a.kind.ABrk?
    ensures AtomWidth(a, widths) == Takes(PlainOf(a), widths)
  {
  }

  lemma CapSums(w: nat, more: nat, after: nat)
    ensures Cap(Cap(w + more) + after) == Cap(w + Cap(more + after)) && Cap(UNFIT + after) == UNFIT
  {
  }

  lemma TrailStep(p: Plain, ps: seq<Plain>, how: How, reserve: nat, widths: Widths)
    ensures Trail([p] + ps, how, reserve, widths)
         == if p.PBreak? && !how.AsFlat? then 0
            else match Takes(p, widths) case None => UNFIT case Some(w) => Cap(w + Trail(ps, how, reserve, widths))
  {
    assert ([p] + ps)[1..] == ps;
  }

  lemma SuffixStep(a: Atom, seg: seq<Atom>, widths: Widths)
    ensures Suffix([], widths) == 0
    ensures Suffix([a] + seg, widths)
         == match AtomWidth(a, widths) case None => UNFIT case Some(w) => Cap(w + Suffix(seg, widths))
  {
    assert ([a] + seg)[1..] == seg;
  }

  /** One atom more in front. */
  lemma TrailAtom(a: Atom, seg: seq<Atom>, ps: seq<Plain>, after: nat, how: How, reserve: nat, widths: Widths)
    requires !a.kind.ABrk? && Cap(Suffix(seg, widths) + after) == Trail(ps, how, reserve, widths)
    ensures Cap(Suffix([a] + seg, widths) + after) == Trail([PlainOf(a)] + ps, how, reserve, widths)
  {
    AtomTakes(a, widths);
    assert !PlainOf(a).PBreak?;
    hide Cap, Takes, AtomWidth, UNFIT, PlainOf, Suffix, Trail;
    SuffixStep(a, seg, widths);
    TrailStep(PlainOf(a), ps, how, reserve, widths);
    match AtomWidth(a, widths)
    case None => CapSums(0, Suffix(seg, widths), after);
    case Some(w) => CapSums(w, Suffix(seg, widths), after);
  }

  lemma {:induction false} TrailSegment(seg: seq<Atom>, rest: seq<Plain>, after: nat, how: How, reserve: nat,
                                        widths: Widths)
    requires NoBreaks(seg) && Cap(after) == Trail(rest, how, reserve, widths)
    ensures Cap(Suffix(seg, widths) + after) == Trail(Plains(seg) + rest, how, reserve, widths)
  {
    hide Trail, Suffix, Cap, PlainOf;
    if seg == [] {
      SuffixStep(Atom(ATxt(0, ""), true), [], widths);
      assert Plains(seg) + rest == rest;
    } else {
      assert seg[0] in seg;
      TrailSegment(seg[1..], rest, after, how, reserve, widths);
      TrailAtom(seg[0], seg[1..], Plains(seg[1..]) + rest, after, how, reserve, widths);
      assert seg == [seg[0]] + seg[1..];
      assert Plains(seg) + rest == [PlainOf(seg[0])] + (Plains(seg[1..]) + rest);
    }
  }

  /** What the scan would still measure after a segment is the trail of what comes after it. */
  lemma {:induction false} AfterIsTrail(b: Body, si: nat, mode: Mode, reserve: nat, n: nat, widths: Widths)
    requires Bounded(b, n) && si < |b.segs| && forall i | 0 <= i < |b.segs| :: NoBreaks(b.segs[i])
    ensures Cap(After(b, si, mode, reserve, n, widths)) == Trail(Rest(b, si), HowOf(mode), reserve, widths)
    decreases |b.segs| - si
  {
    hide After, Trail, Rest, NoBreaks, HowOf, Cap;
    if si + 1 < |b.segs| { AfterIsTrail(b, si + 1, mode, reserve, n, widths); }
    AfterTrails(b, si, mode, reserve, n, widths);
  }

  lemma AfterTrails(b: Body, si: nat, mode: Mode, reserve: nat, n: nat, widths: Widths)
    requires Bounded(b, n) && si < |b.segs| && (si + 1 < |b.segs| ==> NoBreaks(b.segs[si + 1]))
    requires si + 1 < |b.segs| ==>
      Cap(After(b, si + 1, mode, reserve, n, widths)) == Trail(Rest(b, si + 1), HowOf(mode), reserve, widths)
    ensures Cap(After(b, si, mode, reserve, n, widths)) == Trail(Rest(b, si), HowOf(mode), reserve, widths)
  {
    AfterStep(b, si, mode, reserve, n, widths);
    assert |b.segs| == |b.brks| + 1;
    hide *;
    OnwardEnd(b, si);
    if si < |b.brks| {
      var next := After(b, si + 1, mode, reserve, n, widths);
      assert b.segs[si + 1][0..] == b.segs[si + 1];
      OnwardIs(b, si + 1, 0);
      TrailSegment(b.segs[si + 1], Rest(b, si + 1), next, HowOf(mode), reserve, widths);
      TrailBreak(b.brks[si].0, b.brks[si].1, Onward(b, si + 1, 0), Suffix(b.segs[si + 1], widths) + next, mode, reserve,
        widths);
    } else {
      TrailNone(HowOf(mode), reserve, widths);
    }
  }

  lemma TrailBreak(str: Strength, ind: int, ps: seq<Plain>, n: nat, mode: Mode, reserve: nat, widths: Widths)
    requires Cap(n) == Trail(ps, HowOf(mode), reserve, widths)
    ensures Trail([PBreak(str, ind)] + ps, HowOf(mode), reserve, widths)
         == Cap(if !mode.Flat? then 0 else if Hard(str) then UNFIT else Cap((if str.Space? then 1 else 0) + n))
  {
    hide Trail;
    TrailStep(PBreak(str, ind), ps, HowOf(mode), reserve, widths);
  }

  lemma OnwardIs(b: Body, si: nat, j: nat)
    requires |b.segs| == |b.brks| + 1 && si <= |b.brks| && j <= |b.segs[si]|
    ensures Onward(b, si, j) == Plains(b.segs[si][j..]) + Rest(b, si)
  {
  }

  lemma AfterStep(b: Body, si: nat, mode: Mode, reserve: nat, n: nat, widths: Widths)
    requires Bounded(b, n) && si < |b.segs|
    ensures After(b, si, mode, reserve, n, widths)
         == if si == |b.brks| then reserve else if !mode.Flat? then 0 else if Hard(b.brks[si].0) then UNFIT
            else Cap((if b.brks[si].0.Space? then 1 else 0) + (Suffix(b.segs[si + 1], widths)
              + After(b, si + 1, mode, reserve, n, widths)))
  {
    hide Suffix;
  }

  lemma TrailNone(how: How, reserve: nat, widths: Widths)
    ensures Trail([], how, reserve, widths) == Cap(reserve)
  {
  }

  lemma {:induction false} BeyondSegment(b: Body, si: nat, j: nat, reserve: nat, n: nat, widths: Widths)
    requires Bounded(b, n) && si < |b.segs| && j <= |b.segs[si]| && NoBreaks(b.segs[si])
    ensures After(b, si, Fill, reserve, n, widths) == Beyond(Onward(b, si, j), reserve)
    decreases |b.segs[si]| - j
  {
    var seg := b.segs[si];
    if j < |seg| {
      BeyondSegment(b, si, j + 1, reserve, n, widths);
      OnwardStep(b, si, j);
      assert seg[j] in seg;
      assert Onward(b, si, j)[1..] == Onward(b, si, j + 1);
    } else {
      OnwardEnd(b, si);
    }
  }
}
