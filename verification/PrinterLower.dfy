// Lowering a document tree to the documents of a layout library: what the lowering
// is without its tables, and that with them it is the same.
module PrinterLower {
  import opened Outcomes
  import opened PrinterTree

  datatype Mode = Flat | Brkm | Fill

  /** What the layout library builds; how wide a document is flat is up to it. */
  datatype Doc =
    | Empty
    | Txt(text: string) | TxtAs(text: string, width: nat) | TxtRaw(text: string)
    | Concat(parts: seq<Doc>) | Horz(left: Doc, right: Doc) | Vert(parts: seq<Doc>)
    | Indent(columns: int, doc: Doc)
    | IfFlat(flat: Doc, broken: Doc, reserve: nat)

  type Widths = Doc -> Option<nat>

  datatype AtomKind = ATxt(width: nat, text: string) | ABrk(strength: Strength, indent: int)
      | AGrp(kind: Kind, id: nat, body: seq<Node>)
  datatype Atom = Atom(kind: AtomKind, hidden: bool)

  const UNFIT: nat := 0x10_0000

  function Cap(n: nat): nat { if n > UNFIT then UNFIT else n }

  // --------------------------------------------------------------------- atoms

  function Atoms(items: seq<Node>, ind: int, mode: Mode, hidden: bool): seq<Atom> {
    if items == [] then [] else AtomsOf(items[0], ind, mode, hidden) + Atoms(items[1..], ind, mode, hidden)
  }

  function AtomsOf(n: Node, ind: int, mode: Mode, hidden: bool): seq<Atom> {
    match n
    case Nop => []
    case Text(w, s) => [Atom(ATxt(w, s), hidden)]
    case Brk(s) => [Atom(ABrk(s, ind), hidden)]
    case Nest(i, body) => Atoms(body, ind + i, mode, hidden)
    case IfBroken(body) => if mode.Brkm? then Atoms(body, ind, mode, true) else []
    case Group(k, id, body) => [Atom(AGrp(k, id, body), hidden)]
  }

  function Size(items: seq<Node>): nat {
    if items == [] then 0
    else
      (match items[0]
       case Group(_, _, body) => 1 + Size(body)
       case Nest(_, body) => Size(body)
       case IfBroken(body) => Size(body)
       case _ => 0) + Size(items[1..])
  }

  function AtomSize(a: Atom): nat { if a.kind.AGrp? then 1 + Size(a.kind.body) else 0 }

  function AllSize(ats: seq<Atom>): nat { if ats == [] then 0 else AtomSize(ats[0]) + AllSize(ats[1..]) }

  lemma {:induction false} AllSizeConcat(a: seq<Atom>, b: seq<Atom>)
    ensures AllSize(a + b) == AllSize(a) + AllSize(b)
  {
    if a == [] {
      assert a + b == b;
    } else {
      AllSizeConcat(a[1..], b);
      assert (a + b)[0] == a[0] && (a + b)[1..] == a[1..] + b;
    }
  }

  lemma {:induction false} AtomsBounded(items: seq<Node>, ind: int, mode: Mode, hidden: bool)
    ensures AllSize(Atoms(items, ind, mode, hidden)) <= Size(items)
    decreases items
  {
    if items != [] {
      var first := AtomsOf(items[0], ind, mode, hidden);
      AllSizeConcat(first, Atoms(items[1..], ind, mode, hidden));
      AtomsBounded(items[1..], ind, mode, hidden);
      if |first| == 1 { assert first[1..] == []; }
      match items[0]
      case Nest(i, body) => AtomsBounded(body, ind + i, mode, hidden);
      case IfBroken(body) => AtomsBounded(body, ind, mode, true);
      case _ =>
    }
  }

  // ------------------------------------------------------------------- segments

  /** A body split at its own breaks. */
  datatype Body = Body(segs: seq<seq<Atom>>, brks: seq<(Strength, int)>)

  function SplitBody(ats: seq<Atom>): (b: Body)
    ensures |b.segs| == |b.brks| + 1
  {
    if ats == [] then Body([[]], [])
    else
      var last := ats[|ats| - 1];
      var b := SplitBody(ats[..|ats| - 1]);
      if last.kind.ABrk? then Body(b.segs + [[]], b.brks + [(last.kind.strength, last.kind.indent)])
      else Body(b.segs[|b.segs| - 1 := b.segs[|b.segs| - 1] + [last]], b.brks)
  }

  ghost predicate Bounded(b: Body, n: nat) {
    |b.segs| == |b.brks| + 1 && forall i | 0 <= i < |b.segs| :: AllSize(b.segs[i]) <= n
  }

  lemma {:induction false} SplitBounded(ats: seq<Atom>)
    ensures Bounded(SplitBody(ats), AllSize(ats))
  {
    if ats != [] {
      var last := ats[|ats| - 1];
      var b := SplitBody(ats[..|ats| - 1]);
      SplitBounded(ats[..|ats| - 1]);
      assert ats == ats[..|ats| - 1] + [last];
      AllSizeConcat(ats[..|ats| - 1], [last]);
      if !last.kind.ABrk? { LastBounded(b.segs, ats[..|ats| - 1], last); }
    }
  }

  lemma LastBounded(segs: seq<seq<Atom>>, ats: seq<Atom>, last: Atom)
    requires segs != [] && AllSize(segs[|segs| - 1]) <= AllSize(ats)
    ensures AllSize(segs[|segs| - 1] + [last]) <= AllSize(ats + [last])
  {
    AllSizeConcat(segs[|segs| - 1], [last]);
    AllSizeConcat(ats, [last]);
  }

  function BodyOf(items: seq<Node>, mode: Mode): Body { SplitBody(Atoms(items, 0, mode, false)) }

  lemma BodyBounded(items: seq<Node>, mode: Mode)
    ensures Bounded(BodyOf(items, mode), Size(items))
  {
    var ats := Atoms(items, 0, mode, false);
    AtomsBounded(items, 0, mode, false);
    SplitBounded(ats);
  }

  lemma {:induction false} PartSize(ats: seq<Atom>, j: nat)
    requires j <= |ats|
    ensures AllSize(ats[j..]) <= AllSize(ats)
    ensures j < |ats| ==> AtomSize(ats[j]) <= AllSize(ats)
  {
    if j > 0 { PartSize(ats[1..], j - 1); assert ats[1..][j - 1..] == ats[j..]; } else { assert ats[0..] == ats; }
  }

  // ------------------------------------------------------ the lowering, plainly

  /** A string with a line feed in it. */
  predicate MultiLine(s: string) { '\n' in s }

  function TxtOf(w: nat, s: string): Doc { if MultiLine(s) then TxtRaw(s) else TxtAs(s, w) }

  function Concat2(a: Doc, b: Doc): Doc { Concat([a, b]) }

  function LineBreak(ind: int, blank: bool): Doc {
    Indent(ind, if blank then Vert([Empty, Empty, Empty]) else Vert([Empty, Empty]))
  }

  function GroupFlat(body: seq<Node>, widths: Widths): Option<Doc>
    decreases Size(body), 2, 0
  {
    AtomsBounded(body, 0, Flat, false);
    FlatDoc(Atoms(body, 0, Flat, false), Empty, widths)
  }

  function FlatDoc(ats: seq<Atom>, d: Doc, widths: Widths): Option<Doc>
    decreases AllSize(ats), 1, |ats|
  {
    if ats == [] then Some(d)
    else match Flattened(ats[0], d, widths) case None => None case Some(e) => FlatDoc(ats[1..], e, widths)
  }

  /** One atom more on the line. */
  function Flattened(a: Atom, d: Doc, widths: Widths): Option<Doc>
    decreases AtomSize(a), 1, 0
  {
    match a.kind
    case ATxt(w, s) => if MultiLine(s) then None else Some(Concat2(d, TxtAs(s, w)))
    case ABrk(str, _) => if str.Space? then Some(Concat2(d, Txt(" "))) else if str.Cut? then Some(d) else None
    case AGrp(_, _, body) => match GroupFlat(body, widths) case None => None case Some(g) => Some(Concat2(d, g))
  }

  function AtomWidth(a: Atom, widths: Widths): Option<nat>
    decreases AtomSize(a), 3, 0
  {
    if a.hidden then Some(0)
    else match a.kind
      case ATxt(w, s) => if MultiLine(s) then None else Some(w)
      case ABrk(_, _) => Some(0)
      case AGrp(_, _, body) => match GroupFlat(body, widths) case None => None case Some(d) => widths(d)
  }

  /** How wide the rest of a segment is, flat, for the fit scan. */
  function Suffix(seg: seq<Atom>, widths: Widths): nat
    decreases AllSize(seg), 4, |seg|
  {
    if seg == [] then 0
    else match AtomWidth(seg[0], widths)
      case None => UNFIT
      case Some(w) => Cap(w + Suffix(seg[1..], widths))
  }

  /** What the scan would still measure after a segment. */
  function After(b: Body, si: nat, mode: Mode, reserve: nat, n: nat, widths: Widths): nat
    requires Bounded(b, n) && si < |b.segs|
    decreases n, 5, |b.segs| - si
  {
    if si == |b.segs| - 1 then reserve
    else if !mode.Flat? then 0
    else match b.brks[si].0
      case Newline => UNFIT
      case BlankLine => UNFIT
      case Space => Cap(1 + Suffix(b.segs[si + 1], widths) + After(b, si + 1, mode, reserve, n, widths))
      case Cut => Cap(0 + Suffix(b.segs[si + 1], widths) + After(b, si + 1, mode, reserve, n, widths))
  }

  function Bump(b: Body, si: nat, mode: Mode): nat
    requires |b.segs| == |b.brks| + 1 && si < |b.segs|
  {
    if si > 0 && mode.Flat? && b.brks[si - 1].0.Cut? then 1 else 0
  }

  function SegDoc(b: Body, si: nat, j: nat, d: Doc, mode: Mode, reserve: nat, n: nat, widths: Widths): Doc
    requires Bounded(b, n) && si < |b.segs| && j <= |b.segs[si]|
    decreases n, 6, |b.segs[si]| - j
  {
    if j == |b.segs[si]| then d
    else SegDoc(b, si, j + 1, Attached(b, si, j, d, mode, reserve, n, widths), mode, reserve, n, widths)
  }

  /** One atom more of a segment. */
  function Attached(b: Body, si: nat, j: nat, d: Doc, mode: Mode, reserve: nat, n: nat, widths: Widths): Doc
    requires Bounded(b, n) && si < |b.segs| && j < |b.segs[si]|
    decreases n, 6, 0
  {
    var seg := b.segs[si];
    PartSize(seg, j);
    PartSize(seg, j + 1);
    var extra := if j == 0 then Bump(b, si, mode) else 0;
    match seg[j].kind
    case ATxt(w, s) => Concat2(d, TxtOf(w, s))
    case ABrk(_, _) => d
    case AGrp(k, _, body) =>
      var g := GroupDoc(k, body, Cap(Suffix(seg[j + 1..], widths) + After(b, si, mode, reserve, n, widths)), extra,
        widths);
      Horz(d, if extra > 0 then Indent(extra, g) else g)
  }

  /** What is laid out before a break, the break, and the segment after it. */
  function Joined(b: Body, i: nat, acc: Doc, mode: Mode, reserve: nat, n: nat, widths: Widths): Doc
    requires Bounded(b, n) && i < |b.brks|
    decreases n, 7, 0
  {
    var (str, ind) := b.brks[i];
    var next := SegDoc(b, i + 1, 0, Empty, mode, reserve, n, widths);
    if str.Newline? then Concat([acc, LineBreak(ind, false), next])
    else if str.BlankLine? then Concat([acc, LineBreak(ind, true), next])
    else if mode.Flat? then (if str.Space? then Concat([acc, Txt(" "), next]) else Concat2(acc, next))
    else if mode.Brkm? then Concat([acc, LineBreak(ind, false), next])
    else
      match FlatDoc(b.segs[i + 1], Empty, widths)
      case Some(flat) =>
        Concat2(acc, IfFlat(Horz(Txt(if str.Space? then " " else ""), flat), Indent(ind, Vert([Empty, next])),
                            After(b, i + 1, mode, reserve, n, widths)))
      case None => Concat([acc, LineBreak(ind, false), next])
  }

  function LayFrom(b: Body, i: nat, acc: Doc, mode: Mode, reserve: nat, n: nat, widths: Widths): Doc
    requires Bounded(b, n) && i <= |b.brks|
    decreases n, 8, |b.brks| - i
  {
    if i == |b.brks| then acc
    else LayFrom(b, i + 1, Joined(b, i, acc, mode, reserve, n, widths), mode, reserve, n, widths)
  }

  function Lay(items: seq<Node>, mode: Mode, reserve: nat, widths: Widths): Doc
    decreases Size(items), 9, 0
  {
    BodyBounded(items, mode);
    var b := BodyOf(items, mode);
    LayFrom(b, 0, SegDoc(b, 0, 0, Empty, mode, reserve, Size(items), widths), mode, reserve, Size(items), widths)
  }

  function GroupDoc(kind: Kind, body: seq<Node>, reserve: nat, bump: nat, widths: Widths): Doc
    decreases Size(body), 10, 0
  {
    match kind
    case GH => Lay(body, Flat, reserve, widths)
    case GV => Lay(body, Brkm, reserve, widths)
    case GBox => Lay(body, Fill, reserve, widths)
    case GHov => Lay(body, Fill, reserve, widths)
    case GHv =>
      var flat := Lay(body, Flat, reserve, widths);
      if widths(flat).Some? then IfFlat(flat, Lay(body, Brkm, reserve, widths), Cap(reserve + bump))
      else Lay(body, Brkm, reserve, widths)
  }

  // -------------------------------------------------------- what a suffix means

  predicate Unflattenable(seg: seq<Atom>, widths: Widths) {
    exists a :: a in seg && AtomWidth(a, widths).None?
  }

  function Sum(seg: seq<Atom>, widths: Widths): nat {
    if seg == [] then 0 else (match AtomWidth(seg[0], widths) case None => 0 case Some(w) => w) + Sum(seg[1..], widths)
  }

  /** A suffix is the capped sum of the widths from there on, or what nothing fits
      beside when something from there on cannot be flattened. */
  lemma {:induction false} SuffixMeans(seg: seq<Atom>, widths: Widths)
    ensures Suffix(seg, widths) == if Unflattenable(seg, widths) then UNFIT else Cap(Sum(seg, widths))
  {
    if seg != [] {
      SuffixMeans(seg[1..], widths);
      assert seg[0] in seg;
      if Unflattenable(seg[1..], widths) {
        var a :| a in seg[1..] && AtomWidth(a, widths).None?;
        assert a in seg;
      } else if Unflattenable(seg, widths) {
        var a :| a in seg && AtomWidth(a, widths).None?;
        assert a == seg[0] || a in seg[1..];
      }
    }
  }
}
