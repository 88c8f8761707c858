// The lowering as it runs, with tables of what it has built already.
module PrinterMemo {
  import opened Outcomes
  import opened PrinterTree
  import L = PrinterLower
  import opened PrinterLower
  import opened PrinterShow
  import opened PrinterSpelling

  /** The group that each identity belongs to. */
  type Groups = map<nat, (Kind, seq<Node>)>

  ghost predicate Known(ns: seq<Node>, groups: Groups) {
    ns != [] ==>
      && (match ns[0]
          case Group(k, id, body) => id in groups && groups[id] == (k, body) && Known(body, groups)
          case Nest(_, body) => Known(body, groups)
          case IfBroken(body) => Known(body, groups)
          case _ => true)
      && Known(ns[1..], groups)
  }

  ghost predicate KnownAtom(a: Atom, groups: Groups) {
    a.kind.AGrp? ==>
      && a.kind.id in groups && groups[a.kind.id] == (a.kind.kind, a.kind.body)
      && Known(a.kind.body, groups)
  }

  ghost predicate KnownAtoms(ats: seq<Atom>, groups: Groups) {
    forall a | a in ats :: KnownAtom(a, groups)
  }

  lemma {:induction false} AtomsKnown(items: seq<Node>, ind: int, mode: Mode, hidden: bool, groups: Groups)
    requires Known(items, groups)
    ensures KnownAtoms(Atoms(items, ind, mode, hidden), groups)
    decreases items
  {
    if items != [] {
      AtomsKnown(items[1..], ind, mode, hidden, groups);
      match items[0]
      case Nest(i, body) => AtomsKnown(body, ind + i, mode, hidden, groups);
      case IfBroken(body) => AtomsKnown(body, ind, mode, true, groups);
      case _ =>
    }
  }

  lemma {:induction false} SegsKnown(ats: seq<Atom>, groups: Groups)
    requires KnownAtoms(ats, groups)
    ensures forall i | 0 <= i < |SplitBody(ats).segs| :: KnownAtoms(SplitBody(ats).segs[i], groups)
  {
    if ats != [] { SegsKnown(ats[..|ats| - 1], groups); }
  }

  // ------------------------------------------------- what identities determine

  function GroupsOf(ns: seq<Node>): Groups {
    if ns == [] then map[]
    else
      (match ns[0]
       case Group(k, id, body) => GroupsOf(body)[id := (k, body)]
       case Nest(_, body) => GroupsOf(body)
       case IfBroken(body) => GroupsOf(body)
       case _ => map[]) + GroupsOf(ns[1..])
  }

  ghost predicate Apart(ids: seq<nat>) {
    forall i, j | 0 <= i < j < |ids| :: ids[i] != ids[j]
  }

  lemma {:induction false} GroupsHaveIds(ns: seq<Node>)
    ensures forall id :: id in GroupsOf(ns) <==> id in Ids(ns)
    decreases ns
  {
    if ns != [] {
      GroupsHaveIds(ns[1..]);
      match ns[0]
      case Group(_, _, body) => GroupsHaveIds(body);
      case Nest(_, body) => GroupsHaveIds(body);
      case IfBroken(body) => GroupsHaveIds(body);
      case _ =>
    }
  }

  ghost predicate Within(a: Groups, b: Groups) {
    forall id | id in a :: id in b && b[id] == a[id]
  }

  lemma {:induction false} KnownGrows(ns: seq<Node>, a: Groups, b: Groups)
    requires Known(ns, a) && Within(a, b)
    ensures Known(ns, b)
    decreases ns
  {
    if ns != [] {
      KnownGrows(ns[1..], a, b);
      match ns[0]
      case Group(_, _, body) => KnownGrows(body, a, b);
      case Nest(_, body) => KnownGrows(body, a, b);
      case IfBroken(body) => KnownGrows(body, a, b);
      case _ =>
    }
  }

  lemma ApartParts(a: seq<nat>, b: seq<nat>)
    requires Apart(a + b)
    ensures Apart(a) && Apart(b) && forall id | id in a :: id !in b
  {
    var ids := a + b;
    forall i, j | 0 <= i < j < |a| ensures a[i] != a[j] { assert ids[i] == a[i] && ids[j] == a[j]; }
    forall i, j | 0 <= i < j < |b| ensures b[i] != b[j] { assert ids[|a| + i] == b[i] && ids[|a| + j] == b[j]; }
    forall id | id in a ensures id !in b {
      var i :| 0 <= i < |a| && a[i] == id;
      forall j | 0 <= j < |b| ensures b[j] != id { assert ids[i] == a[i] && ids[|a| + j] == b[j]; }
    }
  }

  /** When no identity is used twice, each determines its group. */
  lemma {:induction false} IdsDetermine(ns: seq<Node>)
    requires Apart(Ids(ns))
    ensures Known(ns, GroupsOf(ns))
    decreases ns
  {
    if ns != [] {
      var rest, groups := ns[1..], GroupsOf(ns);
      assert Ids(ns) == IdsOf(ns[0]) + Ids(rest);
      match ns[0]
      case Group(k, id, body) =>
        ApartParts(Ids(body) + [id], Ids(rest));
        ApartParts(Ids(body), [id]);
        IdsDetermine(body);
        IdsDetermine(rest);
        GroupsHaveIds(body);
        GroupsHaveIds(rest);
        assert id in [id];
        assert id in Ids(body) + [id];
        KnownGrows(body, GroupsOf(body), groups);
        KnownGrows(rest, GroupsOf(rest), groups);
      case Nest(_, body) =>
        ApartParts(Ids(body), Ids(rest));
        IdsDetermine(body);
        IdsDetermine(rest);
        KnownTogether(body, rest);
      case IfBroken(body) =>
        ApartParts(Ids(body), Ids(rest));
        IdsDetermine(body);
        IdsDetermine(rest);
        KnownTogether(body, rest);
      case _ =>
        ApartParts([], Ids(rest));
        IdsDetermine(rest);
        KnownGrows(rest, GroupsOf(rest), groups);
    }
  }

  lemma {:induction false} KnownTogether(body: seq<Node>, rest: seq<Node>)
    requires Known(body, GroupsOf(body)) && Known(rest, GroupsOf(rest)) && forall id | id in Ids(body) ::
      id !in Ids(rest)
    ensures Known(body, GroupsOf(body) + GroupsOf(rest)) && Known(rest, GroupsOf(body) + GroupsOf(rest))
  {
    GroupsHaveIds(body);
    GroupsHaveIds(rest);
    KnownGrows(body, GroupsOf(body), GroupsOf(body) + GroupsOf(rest));
    KnownGrows(rest, GroupsOf(rest), GroupsOf(body) + GroupsOf(rest));
  }

  // ----------------------------------------------------------------- the tables

  function ModeCode(m: Mode): nat { match m case Flat => 0 case Brkm => 1 case Fill => 2 }

  function ModeCodeOf(k: Kind): nat {
    match k
    case GH => ModeCode(Flat)
    case GV => ModeCode(Brkm)
    case GBox => ModeCode(Fill)
    case GHov => ModeCode(Fill)
    case GHv => 3
  }

  class Memo {
    var flat: map<nat, Option<Doc>>
    var docs: map<(nat, nat, nat), Doc>
    const widths: Widths
    ghost const groups: Groups

    constructor (widths: Widths, ghost groups: Groups)
      ensures this.widths == widths && this.groups == groups && Valid()
    {
      this.widths := widths;
      this.groups := groups;
      flat, docs := map[], map[];
    }

    /** A table entry holds what would be built for the group it is the entry of. */
    ghost predicate Right(key: (nat, nat, nat), d: Doc) {
      && key.0 in groups
      && var (kind, body) := groups[key.0];
         && 0 <= key.1 - 2 * ModeCodeOf(kind) <= 1
         && d == L.GroupDoc(kind, body, key.2, key.1 - 2 * ModeCodeOf(kind), widths)
    }

    ghost predicate Valid()
      reads this
    {
      && (forall id | id in flat :: id in groups && flat[id] == L.GroupFlat(groups[id].1, widths))
      && (forall key | key in docs :: Right(key, docs[key]))
    }

    method GroupFlat(id: nat, body: seq<Node>) returns (r: Option<Doc>)
      requires Valid() && id in groups && groups[id].1 == body && Known(body, groups)
      modifies this
      ensures Valid() && r == L.GroupFlat(body, widths)
      decreases Size(body), 2, 0
    {
      if id in flat { return flat[id]; }
      var ats := Atoms(body, 0, Flat, false);
      AtomsBounded(body, 0, Flat, false);
      AtomsKnown(body, 0, Flat, false, groups);
      r := FlatDoc(ats);
      flat := flat[id := r];
    }

    method FlatDoc(ats: seq<Atom>) returns (r: Option<Doc>)
      requires Valid() && KnownAtoms(ats, groups)
      modifies this
      ensures Valid() && r == L.FlatDoc(ats, Empty, widths)
      decreases AllSize(ats), 1, |ats|
    {
      var d := Empty;
      assert ats[0..] == ats;
      for i := 0 to |ats|
        invariant Valid() && L.FlatDoc(ats, Empty, widths) == L.FlatDoc(ats[i..], d, widths)
      {
        assert ats[i..][0] == ats[i] && ats[i..][1..] == ats[i + 1..];
        assert ats[i] in ats;
        PartSize(ats, i);
        match ats[i].kind {
          case ATxt(w, s) =>
            if MultiLine(s) { return None; }
            d := Concat2(d, TxtAs(s, w));
          case ABrk(str, _) =>
            if str.Space? { d := Concat2(d, Txt(" ")); }
            else if !str.Cut? { return None; }
          case AGrp(_, id, body) =>
            var g := GroupFlat(id, body);
            if g.None? { return None; }
            d := Concat2(d, g.value);
        }
      }
      assert ats[|ats|..] == [];
      return Some(d);
    }

    method AtomWidth(a: Atom) returns (w: Option<nat>)
      requires Valid() && KnownAtom(a, groups)
      modifies this
      ensures Valid() && w == L.AtomWidth(a, widths)
      decreases AtomSize(a), 3, 0
    {
      if a.hidden { return Some(0); }
      match a.kind
      case ATxt(n, s) => w := if MultiLine(s) then None else Some(n);
      case ABrk(_, _) => w := Some(0);
      case AGrp(_, id, body) =>
        var d := GroupFlat(id, body);
        w := if d.Some? then widths(d.value) else None;
    }

    /** The suffixes of a segment, from its end. */
    method Suffixes(seg: seq<Atom>) returns (s: seq<nat>)
      requires Valid() && KnownAtoms(seg, groups)
      modifies this
      ensures Valid() && |s| == |seg| + 1 && forall j | 0 <= j <= |seg| :: s[j] == L.Suffix(seg[j..], widths)
      decreases AllSize(seg), 4, 0
    {
      s := seq(|seg| + 1, _ => 0);
      var j := |seg|;
      assert seg[|seg|..] == [];
      while j > 0
        invariant Valid() && 0 <= j <= |seg| && |s| == |seg| + 1
        invariant forall i | j <= i <= |seg| :: s[i] == L.Suffix(seg[i..], widths)
      {
        j := j - 1;
        assert seg[j..][0] == seg[j] && seg[j..][1..] == seg[j + 1..];
        assert seg[j] in seg;
        PartSize(seg, j);
        var w := AtomWidth(seg[j]);
        s := s[j := if w.Some? then Cap(w.value + s[j + 1]) else UNFIT];
      }
    }

    method Lay(items: seq<Node>, mode: Mode, reserve: nat) returns (d: Doc)
      requires Valid() && Known(items, groups)
      modifies this
      ensures Valid() && d == L.Lay(items, mode, reserve, widths)
      decreases Size(items), 8, 0
    {
      var ats := Atoms(items, 0, mode, false);
      AtomsKnown(items, 0, mode, false, groups);
      SegsKnown(ats, groups);
      BodyBounded(items, mode);
      var b := Cut(ats);
      var suffix := AllSuffixes(b.segs, Size(items));
      var after := Afters(b, mode, reserve, suffix, Size(items));
      d := SegDoc(b, 0, mode, reserve, suffix, after, Size(items));
      for i := 0 to |b.brks|
        invariant Valid()
        invariant L.Lay(items, mode, reserve, widths) == L.LayFrom(b, i, d, mode, reserve, Size(items), widths)
      {
        d := Separate(b, i, d, mode, reserve, suffix, after, Size(items));
      }
    }

    /** One break and the segment after it. */
    method Separate(b: Body, i: nat, acc: Doc, mode: Mode, ghost reserve: nat, suffix: seq<seq<nat>>, after: seq<nat>,
        ghost n: nat) returns (d: Doc)
      requires Valid() && Ready(b, mode, reserve, suffix, after, n) && i < |b.brks|
      modifies this
      ensures Valid() && d == L.Joined(b, i, acc, mode, reserve, n, widths)
      decreases n, 7, 0
    {
      hide L.SegDoc, L.FlatDoc, L.After, L.Suffix;
      var (str, ind) := b.brks[i];
      if str.Newline? || str.BlankLine? || mode.Brkm? {
        var next := SegDoc(b, i + 1, mode, reserve, suffix, after, n);
        d := Concat([acc, LineBreak(ind, str.BlankLine?), next]);
      } else if mode.Flat? {
        var next := SegDoc(b, i + 1, mode, reserve, suffix, after, n);
        d := if str.Space? then Concat([acc, Txt(" "), next]) else Concat2(acc, next);
      } else {
        var flat := FlatDoc(b.segs[i + 1]);
        var next := SegDoc(b, i + 1, mode, reserve, suffix, after, n);
        if flat.Some? {
          d := Concat2(acc, IfFlat(Horz(Txt(if str.Space? then " " else ""), flat.value),
              Indent(ind, Vert([Empty, next])), after[i + 1]));
        } else {
          d := Concat([acc, LineBreak(ind, false), next]);
        }
      }
    }

    /** The arrays hold what they were filled with. */
    ghost predicate Ready(b: Body, mode: Mode, reserve: nat, suffix: seq<seq<nat>>, after: seq<nat>, n: nat) {
      && Bounded(b, n) && |suffix| == |after| == |b.segs|
      && (forall i | 0 <= i < |b.segs| :: KnownAtoms(b.segs[i], groups))
      && (forall i | 0 <= i < |b.segs| :: RightSuffix(b.segs[i], suffix[i]))
      && (forall i | 0 <= i < |b.segs| :: after[i] == L.After(b, i, mode, reserve, n, widths))
    }

    ghost predicate RightSuffix(seg: seq<Atom>, s: seq<nat>) {
      |s| == |seg| + 1 && forall j | 0 <= j <= |seg| :: s[j] == L.Suffix(seg[j..], widths)
    }

    method Cut(ats: seq<Atom>) returns (b: Body)
      ensures b == SplitBody(ats)
    {
      b := Body([[]], []);
      for i := 0 to |ats|
        invariant b == SplitBody(ats[..i])
      {
        assert ats[..i + 1][..i] == ats[..i];
        var a := ats[i];
        if a.kind.ABrk? {
          b := Body(b.segs + [[]], b.brks + [(a.kind.strength, a.kind.indent)]);
        } else {
          b := b.(segs := b.segs[|b.segs| - 1 := b.segs[|b.segs| - 1] + [a]]);
        }
      }
      assert ats[..|ats|] == ats;
    }

    method AllSuffixes(segs: seq<seq<Atom>>, ghost n: nat) returns (suffix: seq<seq<nat>>)
      requires Valid() && forall i | 0 <= i < |segs| :: KnownAtoms(segs[i], groups) && AllSize(segs[i]) <= n
      modifies this
      ensures Valid() && |suffix| == |segs| && forall i | 0 <= i < |segs| :: RightSuffix(segs[i], suffix[i])
      decreases n, 5, 0
    {
      suffix := [];
      for i := 0 to |segs|
        invariant Valid() && |suffix| == i && forall k | 0 <= k < i :: RightSuffix(segs[k], suffix[k])
      {
        var s := Suffixes(segs[i]);
        suffix := suffix + [s];
      }
    }

    method Afters(b: Body, mode: Mode, reserve: nat, suffix: seq<seq<nat>>, ghost n: nat) returns (after: seq<nat>)
      requires Bounded(b, n) && |suffix| == |b.segs| && forall i | 0 <= i < |b.segs| ::
        RightSuffix(b.segs[i], suffix[i])
      ensures |after| == |b.segs| && forall i | 0 <= i < |b.segs| :: after[i] == L.After(b, i, mode, reserve, n, widths)
    {
      hide L.Suffix, L.After, Cap;
      AfterStep(b, |b.segs| - 1, mode, reserve, n, widths);
      after := seq(|b.segs|, _ => reserve);
      var si := |b.segs| - 1;
      while si > 0
        invariant 0 <= si < |b.segs| == |after|
        invariant forall i | si <= i < |b.segs| :: after[i] == L.After(b, i, mode, reserve, n, widths)
      {
        si := si - 1;
        assert b.segs[si + 1][0..] == b.segs[si + 1];
        AfterStep(b, si, mode, reserve, n, widths);
        var str := b.brks[si].0;
        after := after[si :=
          if !mode.Flat? then 0
          else if str.Newline? || str.BlankLine? then UNFIT
          else Cap((if str.Space? then 1 else 0) + suffix[si + 1][0] + after[si + 1])];
        assert after[si] == L.After(b, si, mode, reserve, n, widths);
      }
    }

    /** A segment between two breaks. */
    method SegDoc(b: Body, si: nat, mode: Mode, ghost reserve: nat, suffix: seq<seq<nat>>, after: seq<nat>,
        ghost n: nat) returns (d: Doc)
      requires Valid() && Ready(b, mode, reserve, suffix, after, n) && si < |b.segs|
      modifies this
      ensures Valid() && d == L.SegDoc(b, si, 0, Empty, mode, reserve, n, widths)
      decreases n, 6, 0
    {
      hide L.Suffix, L.After;
      var seg := b.segs[si];
      var bump := Bump(b, si, mode);
      d := Empty;
      for j := 0 to |seg|
        invariant Valid()
        invariant L.SegDoc(b, si, 0, Empty, mode, reserve, n, widths) == L.SegDoc(b, si, j, d, mode, reserve, n, widths)
      {
        assert seg[j] in seg;
        PartSize(seg, j);
        var extra := if j == 0 then bump else 0;
        match seg[j].kind {
          case ATxt(w, s) => d := Concat2(d, TxtOf(w, s));
          case ABrk(_, _) =>
          case AGrp(k, id, body) =>
            var g := GroupDoc(k, id, body, Cap(suffix[si][j + 1] + after[si]), extra);
            d := Horz(d, if extra > 0 then Indent(extra, g) else g);
        }
      }
    }

    method GroupDoc(kind: Kind, id: nat, body: seq<Node>, reserve: nat, bump: nat) returns (d: Doc)
      requires Valid() && id in groups && groups[id] == (kind, body) && Known(body, groups) && bump <= 1
      modifies this
      ensures Valid() && d == L.GroupDoc(kind, body, reserve, bump, widths)
      decreases Size(body), 9, 0
    {
      var key := (id, ModeCodeOf(kind) * 2 + bump, reserve);
      if key in docs {
        assert Right(key, docs[key]);
        return docs[key];
      }
      match kind {
        case GH => d := Lay(body, Flat, reserve);
        case GV => d := Lay(body, Brkm, reserve);
        case GBox => d := Lay(body, Fill, reserve);
        case GHov => d := Lay(body, Fill, reserve);
        case GHv =>
          var flat := Lay(body, Flat, reserve);
          var broken := Lay(body, Brkm, reserve);
          d := if widths(flat).Some? then IfFlat(flat, broken, Cap(reserve + bump)) else broken;
      }
      docs := docs[key := d];
    }
  }

  /** Whatever the tables fill with on the way, the document of a tree whose groups
      have identities of their own is the one the plain recursion gives, and shows legal
      spellings of the tree. */
  method LowerTree(items: seq<Node>, mode: Mode, reserve: nat, widths: Widths) returns (d: Doc)
    requires Apart(Ids(items))
    ensures d == L.Lay(items, mode, reserve, widths)
    ensures forall pick :: Spells(d, items, mode, reserve, widths, 0, 0, 0, pick, 0)
  {
    IdsDetermine(items);
    ShowsLegalSpellings(items, mode, reserve, widths, 0, 0, 0, 0);
    var memo := new Memo(widths, GroupsOf(items));
    d := memo.Lay(items, mode, reserve);
  }
}
