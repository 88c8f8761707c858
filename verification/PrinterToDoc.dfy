// The three passes together: tree, prune, lay.
module PrinterToDoc {
  import opened Outcomes
  import opened PrinterTree
  import opened PrinterPrune
  import L = PrinterLower
  import opened PrinterSpelling
  import opened PrinterMemo

  /** Pruning leaves every group its identity. */
  lemma {:induction false} PruningKeepsIds(ns: seq<Node>, n: nat, cells: seq<Cell>)
    ensures Ids(Filled(Skeleton(ns, n), cells)) == Ids(ns)
    decreases ns
  {
    hide SkeletonOf, FilledOf, IdsOf, CellsOf;
    if ns != [] {
      var k, rest := SkeletonOf(ns[0], n), Skeleton(ns[1..], n + |CellsOf(ns[0])|);
      var x, more := FilledOf(k, cells), Filled(rest, cells);
      assert ([k] + rest)[1..] == rest && ([x] + more)[1..] == more;
      PruningKeepsIds(ns[1..], n + |CellsOf(ns[0])|, cells);
      NodeKeepsIds(ns[0], n, cells);
    }
  }

  lemma {:induction false} NodeKeepsIds(x: Node, n: nat, cells: seq<Cell>)
    ensures IdsOf(FilledOf(SkeletonOf(x, n), cells)) == IdsOf(x)
    decreases x
  {
    match x
    case Group(_, _, body) => PruningKeepsIds(body, n, cells);
    case Nest(_, body) => PruningKeepsIds(body, n, cells);
    case IfBroken(body) => PruningKeepsIds(body, n, cells);
    case _ =>
  }

  /** `to_doc`: with the tables or without them, the document is the plain lowering of
      the pruned tree of the tokens, and whatever is chosen, it shows a legal spelling of it. */
  method ToDoc(tokens: seq<Token>, widths: L.Widths) returns (d: L.Doc, ghost after: seq<Cell>)
    ensures var root := TreeOf(tokens);
      && Pruned(Leaves(Skeleton(root, 0)), Indents(Skeleton(root, 0), 0, 0, None).indents, Cells(root), after)
      && d == L.Lay(Filled(Skeleton(root, 0), after), L.Brkm, 0, widths)
      && forall pick :: Spells(d, Filled(Skeleton(root, 0), after), L.Brkm, 0, widths, 0, 0, 0, pick, 0)
  {
    var root := Tree(tokens);
    var pruned;
    pruned, after := Prune(root);
    TreeIds(tokens);
    PruningKeepsIds(root, 0, after);
    d := LowerTree(pruned, L.Brkm, 0, widths);
  }
}
