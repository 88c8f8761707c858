// Structural values as keys of the hash map that sets of values are made of.
module ValueKeys {
  import opened Bits
  import opened Outcomes
  import opened Hamt
  import M = HashMap
  import opened StructuralValues

  type Good = v: StructuralValues.Value | Wf(v) witness Null

  /** The hashing module gives 32-bit words. */
  ghost predicate Words(f: Hashing) {
    && (forall n :: f.tag(n) < WORD) && (forall x, s :: f.seeded(x, s) < WORD)
    && (forall s, x :: f.add(s, x) < WORD) && (forall s, n :: f.finalize(s, n) < WORD)
  }

  function KeysOf(f: Hashing): Keys<Good> {
    Keys((k: Good) => Hash(k, f), (a: Good, b: Good) => Equal(a, b))
  }

  lemma HashIsWord(v: StructuralValues.Value, f: Hashing)
    requires Words(f)
    ensures Hash(v, f) < WORD
  {
    hide HashInOrder, HashPairsInOrder;
  }

  /** Structural equality and hashing are what the hash map asks for. */
  lemma KeysAreLawful(f: Hashing)
    requires Words(f)
    ensures Lawful(KeysOf(f))
  {
    hide Equal, Hash, Wf;
    var keys := KeysOf(f);
    forall k: Good ensures keys.hash(k) < WORD && keys.equal(k, k) {
      HashIsWord(k, f);
      Reflexive(k);
    }
    forall j: Good, k: Good | keys.equal(j, k) ensures keys.equal(k, j) && keys.hash(j) == keys.hash(k) {
      Symmetric(j, k);
      HashSame(j, k, f);
    }
    forall i: Good, j: Good, k: Good | keys.equal(i, j) && keys.equal(j, k) ensures keys.equal(i, k) {
      Transitive(i, j, k);
    }
  }

  function KeyList<V>(e: seq<(Good, V)>): seq<StructuralValues.Value> { seq(|e|, i requires 0 <= i < |e| => e[i].0) }

  /** What a set's trie holds is a well-formed set value, whose items it finds exactly
      when the list of them has an equal one. */
  lemma SetLookup<V>(m: M.Map<Good, V>, x: Good, f: Hashing)
    requires M.Sound(m) && m.keys == KeysOf(f)
    ensures var items := KeyList(RestEntries(m.root));
      Wf(Set(items)) && (M.Get(m, Some(x)).Some? <==> HasItem(items, x))
  {
    hide Equal, M.Get;
    var e := RestEntries(m.root);
    var items := KeyList(e);
    M.GetFinds(m, x);
    FindNone(e, x, m.keys);
    if HasItem(items, x) {
      var j :| 0 <= j < |items| && Equal(items[j], x);
      assert e[j] in e && m.keys.equal(e[j].0, x);
    } else {
      forall p | p in e ensures !m.keys.equal(p.0, x) {
        var j :| 0 <= j < |e| && e[j] == p;
        assert items[j] == p.0;
      }
    }
    forall i, j | 0 <= i < |items| && 0 <= j < |items| && i != j ensures !Equal(items[i], items[j]) {
      assert !m.keys.equal(e[i].0, e[j].0);
    }
  }
}
