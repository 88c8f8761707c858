// Insertion-ordered storage: a hash map from keys to slots, and a vector of entries
// in which a removed entry leaves a tombstone.
module OrderedStore {
  import opened Sequences
  import opened Arithmetic
  import opened Bits
  import opened Outcomes
  import opened Hamt
  import M = HashMap
  import T = TrieVector
  import opened VectorHeap

  datatype Entry<K, V> = Entry(key: K, value: V)
  datatype Store<!K, V> = Store(index: M.Map<K, int>, entries: T.Vector<Eq<Entry<K, V>>>)

  /** A slot number as it is stored, in 31 bits. */
  function I31(slot: nat): int { if slot < MAX_SLOTS then slot else slot - 2 * MAX_SLOTS }

  const MAX_SLOTS: nat := 0x4000_0000

  // ------------------------------------------------------------- what it holds

  /** The pairs of the slots that are not tombstones, in order. */
  function Live<K, V>(slots: seq<Eq<Entry<K, V>>>): seq<(K, V)> {
    if slots == [] then []
    else (if slots[0].Obj? then [(slots[0].value.key, slots[0].value.value)] else []) + Live(slots[1..])
  }

  function Slots<K, V>(s: Store<K, V>): seq<Eq<Entry<K, V>>> { T.View(s.entries) }

  function Pairs<K, V>(s: Store<K, V>): seq<(K, V)> { Live(Slots(s)) }

  /** The index and the slots agree: a key is found where its entry is, every entry
      is found, and there are as many as the index says. */
  ghost predicate Indexed<K(!new), V>(index: M.Map<K, int>, slots: seq<Eq<Entry<K, V>>>) {
    && M.ValidMap(index) && index.nullValue.None?
    && (forall i | 0 <= i < |slots| :: !slots[i].Ref?)
    && (forall k {:trigger M.Get(index, Some(k))} :: M.Get(index, Some(k)).Some? ==>
        Holds(slots, M.Get(index, Some(k)).value, k, index.keys))
    && (forall i | 0 <= i < |slots| && slots[i].Obj? :: M.Get(index, Some(slots[i].value.key)) == Some(i))
    && index.count == |Live(slots)|
  }

  predicate Holds<K, V>(slots: seq<Eq<Entry<K, V>>>, i: int, k: K, f: Keys<K>) {
    0 <= i < |slots| && slots[i].Obj? && f.equal(slots[i].value.key, k)
  }

  /** The invariant but for tombstones at the end. */
  ghost predicate Sound<K(!new), V>(s: Store<K, V>) {
    T.Valid(s.entries) && |Slots(s)| <= MAX_SLOTS && Indexed(s.index, Slots(s))
  }

  predicate NoTrailing<K, V>(slots: seq<Eq<Entry<K, V>>>) {
    slots != [] ==> slots[|slots| - 1].Obj?
  }

  ghost predicate Valid<K(!new), V>(s: Store<K, V>) {
    Sound(s) && NoTrailing(Slots(s))
  }

  /** Fewer than 32 slots, or less than half of them tombstones. */
  predicate Dense<K, V>(s: Store<K, V>) {
    |Slots(s)| < 32 || |Slots(s)| < 2 * |Pairs(s)|
  }

  // ------------------------------------------------------------- live entries

  lemma {:induction false} LiveConcat<K, V>(a: seq<Eq<Entry<K, V>>>, b: seq<Eq<Entry<K, V>>>)
    ensures Live(a + b) == Live(a) + Live(b)
  {
    if a == [] {
      assert a + b == b;
    } else {
      LiveConcat(a[1..], b);
      assert (a + b)[0] == a[0] && (a + b)[1..] == a[1..] + b;
      var head := if a[0].Obj? then [(a[0].value.key, a[0].value.value)] else [];
      ConcatAssociates(head, Live(a[1..]), Live(b));
    }
  }

  lemma LiveOne<K, V>(x: Eq<Entry<K, V>>)
    ensures Live([x]) == if x.Obj? then [(x.value.key, x.value.value)] else []
  {
    assert [x][1..] == [] && Live<K, V>([]) == [];
  }

  lemma {:induction false} LiveSplit<K, V>(slots: seq<Eq<Entry<K, V>>>, i: nat)
    requires i < |slots|
    ensures Live(slots) == Live(slots[..i]) + Live([slots[i]]) + Live(slots[i + 1..])
  {
    assert slots == slots[..i] + [slots[i]] + slots[i + 1..];
    LiveConcat(slots[..i] + [slots[i]], slots[i + 1..]);
    LiveConcat(slots[..i], [slots[i]]);
  }

  lemma {:induction false} LiveUpdate<K, V>(slots: seq<Eq<Entry<K, V>>>, i: nat, x: Eq<Entry<K, V>>)
    requires i < |slots|
    ensures Live(slots[i := x]) == Live(slots[..i]) + Live([x]) + Live(slots[i + 1..])
  {
    LiveSplit(slots[i := x], i);
    assert slots[i := x][..i] == slots[..i] && slots[i := x][i + 1..] == slots[i + 1..];
  }

  /** Where in the order the entry of a slot is. */
  function Place<K, V>(slots: seq<Eq<Entry<K, V>>>, i: nat): nat
    requires i <= |slots|
  {
    |Live(slots[..i])|
  }

  lemma {:induction false} LiveAt<K, V>(slots: seq<Eq<Entry<K, V>>>, i: nat)
    requires i < |slots| && slots[i].Obj?
    ensures Place(slots, i) < |Live(slots)|
      && Live(slots)[Place(slots, i)] == (slots[i].value.key, slots[i].value.value)
  {
    LiveSplit(slots, i);
    LiveOne(slots[i]);
  }

  /** Every pair of the order comes from a slot. */
  lemma {:induction false} LiveFrom<K, V>(slots: seq<Eq<Entry<K, V>>>, p: nat) returns (i: nat)
    requires p < |Live(slots)|
    ensures i < |slots| && slots[i].Obj? && Live(slots)[p] == (slots[i].value.key, slots[i].value.value)
      && Place(slots, i) == p
  {
    var head := if slots[0].Obj? then 1 else 0;
    if p < head {
      assert slots[..0] == [];
      return 0;
    }
    i := LiveFrom(slots[1..], p - head);
    assert slots[..i + 1][0] == slots[0] && slots[..i + 1][1..] == slots[1..][..i];
    i := i + 1;
  }

  // ------------------------------------------------------------ equal keys

  lemma {:induction false} FindSame<K(!new), V>(e: seq<(K, V)>, j: K, k: K, f: Keys<K>)
    requires Lawful(f) && f.equal(j, k)
    ensures Find(e, j, f) == Find(e, k, f)
  {
    if e != [] {
      assert f.equal(e[0].0, j) <==> f.equal(e[0].0, k);
      FindSame(e[1..], j, k, f);
    }
  }

  lemma GetSame<K(!new)>(m: M.Map<K, int>, j: K, k: K)
    requires M.Sound(m) && m.keys.equal(j, k)
    ensures M.Get(m, Some(j)) == M.Get(m, Some(k))
  {
    M.GetFinds(m, j);
    M.GetFinds(m, k);
    FindSame(RestEntries(m.root), j, k, m.keys);
  }

  /** The order has no two equal keys. */
  lemma {:induction false} PairsDistinct<K(!new), V>(index: M.Map<K, int>, slots: seq<Eq<Entry<K, V>>>)
    requires Indexed(index, slots)
    ensures M.Distinct(Live(slots), index.keys)
  {
    hide M.Get;
    var e := Live(slots);
    forall p, q | 0 <= p < |e| && 0 <= q < |e| && p != q ensures !index.keys.equal(e[p].0, e[q].0) {
      var i := LiveFrom(slots, p);
      var j := LiveFrom(slots, q);
      if index.keys.equal(e[p].0, e[q].0) { GetSame(index, e[p].0, e[q].0); }
    }
  }

  /** What the index finds is what a search of the order would find. */
  lemma {:induction false} LookupFinds<K(!new), V>(index: M.Map<K, int>, slots: seq<Eq<Entry<K, V>>>, key: K)
    requires Indexed(index, slots)
    ensures var r := M.Get(index, Some(key));
      && (r.None? ==> NoneEqual(Live(slots), key, index.keys) && Find(Live(slots), key, index.keys) == None)
      && (r.Some? ==>
           && Holds(slots, r.value, key, index.keys)
           && Find(Live(slots), key, index.keys) == Some(slots[r.value].value.value))
  {
    hide M.Get;
    var e, f := Live(slots), index.keys;
    var r := M.Get(index, Some(key));
    if r.None? {
      forall p | p in e ensures !f.equal(p.0, key) {
        var n :| 0 <= n < |e| && e[n] == p;
        var i := LiveFrom(slots, n);
        if f.equal(p.0, key) { GetSame(index, p.0, key); }
      }
      FindNone(e, key, f);
    } else {
      assert Holds(slots, r.value, key, f);
      LiveAt(slots, r.value);
      PairsDistinct(index, slots);
      M.FindAt(e, Place(slots, r.value), key, f);
    }
  }

  // --------------------------------------------------------- steps that agree

  /** A new key, and a new entry at the end. */
  lemma {:induction false} AppendAgrees<K(!new), V>(index: M.Map<K, int>, slots: seq<Eq<Entry<K, V>>>, key: K, value: V)
    requires Indexed(index, slots) && M.Get(index, Some(key)).None? && |slots| < MAX_I32
    ensures var r := M.Assoc(index, Some(key), |slots|);
      && r.Done? && Indexed(r.value, slots + [Obj(Entry(key, value))]) && r.value.keys == index.keys
    ensures Live(slots + [Obj(Entry(key, value))]) == Live(slots) + [(key, value)]
  {
    hide M.Get, M.Assoc, Live;
    var x := Obj(Entry(key, value));
    LiveConcat(slots, [x]);
    LiveOne(x);
    LiveBound(slots);
    M.AssocLaw(index, Some(key), |slots|);
    M.AssocStep(index, Some(key), |slots|);
    var index' := M.Assoc(index, Some(key), |slots|).value;
    var f := index.keys;
    forall k | M.Get(index', Some(k)).Some? ensures Holds(slots + [x], M.Get(index', Some(k)).value, k, f) {
      if !M.SameKey(Some(key), Some(k), f) { assert Holds(slots, M.Get(index, Some(k)).value, k, f); }
    }
    forall i | 0 <= i < |slots| && slots[i].Obj? ensures M.Get(index', Some(slots[i].value.key)) == Some(i) {
      var k := slots[i].value.key;
      assert M.Get(index, Some(k)) == Some(i);
      if f.equal(key, k) { GetSame(index, key, k); }
    }
  }

  lemma {:induction false} LiveBound<K, V>(slots: seq<Eq<Entry<K, V>>>)
    ensures |Live(slots)| <= |slots|
  {
    if slots != [] { LiveBound(slots[1..]); }
  }

  /** A new value for a key that is there: the entry keeps its key and its place. */
  lemma {:induction false} ReplaceAgrees<K(!new), V>(index: M.Map<K, int>, slots: seq<Eq<Entry<K, V>>>, i: nat,
      value: V)
    requires Indexed(index, slots) && i < |slots| && slots[i].Obj?
    ensures var p, x := Place(slots, i), Obj(Entry(slots[i].value.key, value));
      && Indexed(index, slots[i := x]) && p < |Live(slots)|
      && Live(slots[i := x]) == Live(slots)[p := (slots[i].value.key, value)]
  {
    hide M.Get;
    var x := Obj(Entry(slots[i].value.key, value));
    LiveAt(slots, i);
    LiveSplit(slots, i);
    LiveUpdate(slots, i, x);
    LiveOne(slots[i]);
    LiveOne(x);
    forall k | M.Get(index, Some(k)).Some? ensures Holds(slots[i := x], M.Get(index, Some(k)).value, k, index.keys) {
      assert Holds(slots, M.Get(index, Some(k)).value, k, index.keys);
    }
  }

  lemma {:induction false} LiveRemoved<K, V>(slots: seq<Eq<Entry<K, V>>>, i: nat)
    requires i < |slots| && slots[i].Obj?
    ensures Place(slots, i) < |Live(slots)|
    ensures Live(slots[i := Null]) == RemoveAt(Live(slots), Place(slots, i))
    ensures |Live(slots[i := Null])| == |Live(slots)| - 1
  {
    LiveAt(slots, i);
    LiveSplit(slots, i);
    LiveUpdate(slots, i, Null);
    LiveOne(slots[i]);
    LiveOne<K, V>(Null);
  }

  /** A key removed from the index, and a tombstone where its entry was. */
  lemma {:induction false} RemoveAgrees<K(!new), V>(index: M.Map<K, int>, slots: seq<Eq<Entry<K, V>>>, key: K)
    requires Indexed(index, slots) && M.Get(index, Some(key)).Some?
    ensures var i := M.Get(index, Some(key)).value;
      && Holds(slots, i, key, index.keys) && Place(slots, i) < |Live(slots)|
      && Indexed(M.Dissoc(index, Some(key)), slots[i := Null]) && M.Dissoc(index, Some(key)).keys == index.keys
      && Live(slots[i := Null]) == RemoveAt(Live(slots), Place(slots, i))
  {
    hide M.Get, M.Dissoc, Live, Place, RemoveAt;
    var i, f := M.Get(index, Some(key)).value, index.keys;
    assert Holds(slots, i, key, f);
    var slots' := slots[i := Null];
    LiveRemoved(slots, i);
    M.DissocLaw(index, Some(key));
    M.DissocStep(index, Some(key));
    var index' := M.Dissoc(index, Some(key));
    forall k | M.Get(index', Some(k)).Some? ensures Holds(slots', M.Get(index', Some(k)).value, k, f) {
      assert Holds(slots, M.Get(index, Some(k)).value, k, f);
    }
    forall j | 0 <= j < |slots'| && slots'[j].Obj? ensures M.Get(index', Some(slots'[j].value.key)) == Some(j) {
      var k := slots[j].value.key;
      assert M.Get(index, Some(k)) == Some(j);
      if f.equal(key, k) { GetSame(index, key, k); }
    }
  }

  /** A tombstone dropped from the end. */
  lemma {:induction false} TrimAgrees<K(!new), V>(index: M.Map<K, int>, slots: seq<Eq<Entry<K, V>>>)
    requires Indexed(index, slots) && slots != [] && slots[|slots| - 1].Null?
    ensures Indexed(index, slots[..|slots| - 1]) && Live(slots[..|slots| - 1]) == Live(slots)
  {
    hide M.Get, Live;
    var n := |slots| - 1;
    assert slots == slots[..n] + [slots[n]];
    LiveConcat(slots[..n], [slots[n]]);
    LiveOne(slots[n]);
    forall k | M.Get(index, Some(k)).Some? ensures Holds(slots[..n], M.Get(index, Some(k)).value, k, index.keys) {
      assert Holds(slots, M.Get(index, Some(k)).value, k, index.keys);
    }
    forall i | 0 <= i < n && slots[..n][i].Obj? ensures M.Get(index, Some(slots[..n][i].value.key)) == Some(i) {
      assert slots[i].Obj?;
    }
  }

  // -------------------------------------------------------------- operations

  function Empty<K, V>(f: Keys<K>): Store<K, V> { Store(M.Empty(f), T.Empty()) }

  lemma EmptyIsValid<K(!new), V>(f: Keys<K>)
    requires Lawful(f)
    ensures Valid(Empty<K, V>(f)) && Slots(Empty<K, V>(f)) == [] && Pairs(Empty<K, V>(f)) == []
  {
    T.EmptyIsValid<Eq<Entry<K, V>>>();
  }

  /** `store_slot`: the slot of a key, if it has one. */
  method Slot<K(!new), V>(s: Store<K, V>, key: K) returns (r: Option<nat>)
    requires Sound(s)
    ensures M.Get(s.index, Some(key)) == match r case None => None case Some(i) => Some(i)
    ensures r.Some? ==> Holds(Slots(s), r.value, key, s.index.keys)
    ensures r.None? ==> NoneEqual(Pairs(s), key, s.index.keys)
  {
    LookupFinds(s.index, Slots(s), key);
    var found := M.Get(s.index, Some(key));
    r := match found case None => None case Some(i) => Some(i as nat);
  }

  /** `store_get` finds what a search of the order would find, and never traps. */
  method Get<K(!new), V>(s: Store<K, V>, key: K) returns (r: Option<V>)
    requires Sound(s)
    ensures r == Find(Pairs(s), key, s.index.keys)
  {
    hide T.Valid, T.Packed;
    LookupFinds(s.index, Slots(s), key);
    var slot := Slot(s, key);
    if slot.None? { return None; }
    var e := T.Get(s.entries, slot.value);
    return Some(e.value.value.value);
  }

  /** `store_assoc`: a key that is there keeps its place and its entry's key, and a
      new key goes last. The result is sound if and only if the new key's slot, if it
      needs one, fits where it is stored. */
  method Assoc<K(!new, ==), V(==)>(s: Store<K, V>, key: K, value: V) returns (s': Store<K, V>, ghost added: nat)
    requires Valid(s)
    ensures added == if Find(Pairs(s), key, s.index.keys).Some? then 0 else 1
    ensures s'.index.keys == s.index.keys && T.Valid(s'.entries)
    ensures exists at ::
      && Put(Pairs(s), Pairs(s'), at, key, value, added, s.index.keys)
      && (added == 1 ==> at == |Pairs(s)|)
    ensures Valid(s') <==> added == 0 || |Slots(s)| < MAX_SLOTS
    ensures Indexed(s'.index, Slots(s')) <==> added == 0 || |Slots(s)| < MAX_SLOTS
  {
    hide T.Valid, T.Packed, M.Get, M.Assoc, Indexed;
    LookupFinds(s.index, Slots(s), key);
    var slot := Slot(s, key);
    if slot.Some? {
      s' := Replace(s, slot.value, key, value);
      added := 0;
    } else {
      s' := Append(s, key, value);
      added := 1;
      assert Put(Pairs(s), Pairs(s'), |Pairs(s)|, key, value, 1, s.index.keys);
    }
  }

  method Replace<K(!new, ==), V(==)>(s: Store<K, V>, slot: nat, ghost key: K, value: V) returns (s': Store<K, V>)
    requires Valid(s) && Holds(Slots(s), slot, key, s.index.keys)
    ensures Valid(s') && s'.index == s.index
    ensures exists at :: Put(Pairs(s), Pairs(s'), at, key, value, 0, s.index.keys)
  {
    hide T.Valid, T.Packed, M.Get, M.Assoc, Indexed;
    ReplaceAgrees(s.index, Slots(s), slot, value);
    LiveAt(Slots(s), slot);
    T.ViewSize(s.entries);
    ghost var at := Place(Slots(s), slot);
    var entry := T.Get(s.entries, slot).value.value;
    if entry.value == value {
      assert Pairs(s)[at := (entry.key, value)] == Pairs(s);
      assert Put(Pairs(s), Pairs(s), at, key, value, 0, s.index.keys);
      return s;
    }
    s' := Store(s.index, T.Assoc(s.entries, slot, Obj(Entry(entry.key, value))).value);
    assert Put(Pairs(s), Pairs(s'), at, key, value, 0, s.index.keys);
  }

  method Append<K(!new, ==), V>(s: Store<K, V>, key: K, value: V) returns (s': Store<K, V>)
    requires Sound(s) && M.Get(s.index, Some(key)).None?
    ensures s'.index.keys == s.index.keys && T.Valid(s'.entries)
    ensures Slots(s') == Slots(s) + [Obj(Entry(key, value))] && Pairs(s') == Pairs(s) + [(key, value)]
    ensures Valid(s') <==> |Slots(s)| < MAX_SLOTS
    ensures Indexed(s'.index, Slots(s')) <==> |Slots(s)| < MAX_SLOTS
  {
    hide T.Valid, T.Packed, M.Get, M.Assoc;
    T.ViewSize(s.entries);
    var n := s.entries.count;
    var x := Obj(Entry(key, value));
    LiveConcat(Slots(s), [x]);
    LiveOne(x);
    LiveBound(Slots(s));
    M.AssocLaw(s.index, Some(key), I31(n));
    M.AssocStep(s.index, Some(key), I31(n));
    var index := M.Assoc(s.index, Some(key), I31(n)).value;
    s' := Store(index, T.Push(s.entries, x).value);
    if n < MAX_SLOTS {
      AppendAgrees(s.index, Slots(s), key, value);
    } else {
      assert M.Get(index, Some(key)) == Some(I31(n)) && !Holds(Slots(s'), I31(n), key, index.keys);
    }
  }

  /** `store_dissoc`: the pair goes and all others stay in order. What is left has no
      tombstone at its end, and is dense if anything was removed. */
  method Dissoc<K(!new, ==), V(==)>(s: Store<K, V>, key: K) returns (s': Store<K, V>, ghost removed: bool)
    requires Valid(s)
    ensures Valid(s') && s'.index.keys == s.index.keys
    ensures removed == Find(Pairs(s), key, s.index.keys).Some?
    ensures exists at :: Cut(Pairs(s), Pairs(s'), at, key, removed, s.index.keys)
    ensures removed ==> Dense(s')
    ensures !removed ==> s' == s
  {
    hide T.Valid, T.Packed, M.Get, M.Dissoc, Indexed;
    LookupFinds(s.index, Slots(s), key);
    var slot := Slot(s, key);
    if slot.None? {
      assert Cut(Pairs(s), Pairs(s), 0, key, false, s.index.keys);
      return s, false;
    }
    CountIs(s.index, Slots(s));
    RemoveAgrees(s.index, Slots(s), key);
    LiveAt(Slots(s), slot.value);
    T.ViewSize(s.entries);
    var index := M.Dissoc(s.index, Some(key));
    var cleared := T.Assoc(s.entries, slot.value, Null).value;
    var entries := Trim(index, cleared);
    s' := Compact(Store(index, entries));
    removed := true;
    assert Cut(Pairs(s), Pairs(s'), Place(Slots(s), slot.value), key, true, s.index.keys);
  }

  /** The loop that drops trailing tombstones. */
  method Trim<K(!new), V>(ghost index: M.Map<K, int>, entries: T.Vector<Eq<Entry<K, V>>>)
    returns (trimmed: T.Vector<Eq<Entry<K, V>>>)
    requires T.Valid(entries) && Indexed(index, T.View(entries))
    ensures T.Valid(trimmed) && Indexed(index, T.View(trimmed)) && NoTrailing(T.View(trimmed))
    ensures Live(T.View(trimmed)) == Live(T.View(entries)) && |T.View(trimmed)| <= |T.View(entries)|
  {
    hide T.Valid, T.Packed, M.Get, Indexed;
    trimmed := entries;
    var trailing := HasTrailingTombstone(trimmed);
    while trailing
      invariant T.Valid(trimmed) && Indexed(index, T.View(trimmed)) && |T.View(trimmed)| <= |T.View(entries)|
      invariant Live(T.View(trimmed)) == Live(T.View(entries))
      invariant trailing <==> T.View(trimmed) != [] && T.View(trimmed)[|T.View(trimmed)| - 1].Null?
      decreases |T.View(trimmed)|
    {
      TrimAgrees(index, T.View(trimmed));
      T.ViewSize(trimmed);
      trimmed := T.Pop(trimmed).value;
      trailing := HasTrailingTombstone(trimmed);
    }
    NoRefs(index, T.View(trimmed));
  }

  lemma NoRefs<K(!new), V>(index: M.Map<K, int>, slots: seq<Eq<Entry<K, V>>>)
    requires Indexed(index, slots)
    ensures forall i | 0 <= i < |slots| :: !slots[i].Ref?
  {}

  method HasTrailingTombstone<K, V>(entries: T.Vector<Eq<Entry<K, V>>>) returns (r: bool)
    requires T.Valid(entries)
    ensures r <==> T.View(entries) != [] && T.View(entries)[|T.View(entries)| - 1].Null?
  {
    T.ViewSize(entries);
    if entries.count == 0 { return false; }
    return T.Get(entries, entries.count - 1).value.Null?;
  }

  /** Twice a count, in 32 bits. */
  function TwiceI32(count: nat): int { if 2 * count > MAX_I32 then 2 * count - WORD else 2 * count }

  /** `store_compact` changes nothing that can be observed, and leaves a dense store. */
  method Compact<K(!new, ==), V>(s: Store<K, V>) returns (s': Store<K, V>)
    requires Valid(s)
    ensures Valid(s') && Dense(s') && Pairs(s') == Pairs(s) && s'.index.keys == s.index.keys
  {
    hide T.Valid, T.Packed, M.Get, Indexed;
    T.ViewSize(s.entries);
    CountIs(s.index, Slots(s));
    LiveBound(Slots(s));
    var slots, count := s.entries.count, s.index.count;
    if slots < 32 { return s; }
    if slots < TwiceI32(count) { return s; }
    s' := Rebuild(s);
  }

  lemma CountIs<K(!new), V>(index: M.Map<K, int>, slots: seq<Eq<Entry<K, V>>>)
    requires Indexed(index, slots)
    ensures index.count == |Live(slots)| && Lawful(index.keys) && M.Sound(index)
  {}

  method Rebuild<K(!new, ==), V>(s: Store<K, V>) returns (s': Store<K, V>)
    requires Sound(s)
    ensures Valid(s') && Pairs(s') == Pairs(s) && s'.index.keys == s.index.keys && |Slots(s')| == |Pairs(s')|
  {
    hide T.Valid, T.Packed, M.Get, M.Assoc, Indexed, Carried, Live, Pairs;
    T.ViewSize(s.entries);
    CountIs(s.index, Slots(s));
    s' := Empty(s.index.keys);
    CarriedNone(s);
    for cursor := 0 to s.entries.count
      invariant Carried(s', s, cursor)
    {
      ghost var before := s';
      CarryReady(s', s, cursor);
      var raw := T.Get(s.entries, cursor).value;
      if raw.Obj? { s' := Append(s', raw.value.key, raw.value.value); }
      CarriedMore(before, s', s, cursor);
    }
    CarriedAll(s', s);
  }

  /** A new store holds what is live in the first `n` slots of an old one. */
  ghost predicate Carried<K(!new), V>(s': Store<K, V>, s: Store<K, V>, n: nat) {
    && n <= |Slots(s)| && Valid(s') && s'.index.keys == s.index.keys
    && Pairs(s') == Live(Slots(s)[..n]) && |Slots(s')| == |Pairs(s')|
  }

  lemma CarriedNone<K(!new), V>(s: Store<K, V>)
    requires Lawful(s.index.keys)
    ensures Carried(Empty<K, V>(s.index.keys), s, 0)
  {
    EmptyIsValid<K, V>(s.index.keys);
    assert Slots(s)[..0] == [];
  }

  lemma CarryReady<K(!new), V>(s': Store<K, V>, s: Store<K, V>, cursor: nat)
    requires Sound(s) && cursor < |Slots(s)| && Carried(s', s, cursor)
    ensures Valid(s') && Sound(s') && !Slots(s)[cursor].Ref? && |Slots(s')| < MAX_SLOTS
    ensures Slots(s)[cursor].Obj? ==> M.Get(s'.index, Some(Slots(s)[cursor].value.key)).None?
  {
    hide M.Get, T.Valid, Live;
    LiveBound(Slots(s)[..cursor]);
    NoRefs(s.index, Slots(s));
    if Slots(s)[cursor].Obj? { NotYet(s.index, Slots(s), cursor, s'.index, Slots(s')); }
  }

  lemma CarriedMore<K(!new), V>(before: Store<K, V>, s': Store<K, V>, s: Store<K, V>, cursor: nat)
    requires Sound(s) && cursor < |Slots(s)| && Carried(before, s, cursor)
    requires var x := Slots(s)[cursor];
      if x.Obj? then
        && Valid(s') && Slots(s') == Slots(before) + [x] && Pairs(s') == Pairs(before) + [(x.value.key, x.value.value)]
        && s'.index.keys == before.index.keys
      else s' == before
    ensures Carried(s', s, cursor + 1)
  {
    hide M.Get, T.Valid, Live, Indexed;
    var slots := Slots(s);
    assert slots[..cursor + 1] == slots[..cursor] + [slots[cursor]];
    LiveConcat(slots[..cursor], [slots[cursor]]);
    LiveOne(slots[cursor]);
  }

  lemma CarriedAll<K(!new), V>(s': Store<K, V>, s: Store<K, V>)
    requires Carried(s', s, |Slots(s)|)
    ensures Valid(s') && s'.index.keys == s.index.keys && Pairs(s') == Pairs(s) && |Slots(s')| == |Pairs(s')|
  {
    assert Slots(s)[..|Slots(s)|] == Slots(s);
  }

  /** No entry before the cursor has a key equal to the one at the cursor. */
  lemma {:induction false} NotYet<K(!new), V>(index: M.Map<K, int>, slots: seq<Eq<Entry<K, V>>>, cursor: nat,
                                              index': M.Map<K, int>, slots': seq<Eq<Entry<K, V>>>)
    requires Indexed(index, slots) && Indexed(index', slots') && index.keys == index'.keys
    requires cursor < |slots| && slots[cursor].Obj? && Live(slots') == Live(slots[..cursor])
    ensures M.Get(index', Some(slots[cursor].value.key)).None?
  {
    hide M.Get;
    var key, f := slots[cursor].value.key, index.keys;
    LookupFinds(index', slots', key);
    var r := M.Get(index', Some(key));
    if r.Some? {
      LiveAt(slots', r.value);
      var p := Place(slots', r.value);
      var i := LiveFrom(slots[..cursor], p);
      assert slots[i].Obj? && f.equal(slots[i].value.key, key);
      GetSame(index, slots[i].value.key, key);
    }
  }

  // ------------------------------------------------------------------- cursor

  /** `store_next`: the first entry at or after a slot, and where to resume. */
  method Next<K(!new), V>(s: Store<K, V>, start: nat) returns (next: nat, entry: Option<Entry<K, V>>)
    requires Sound(s) && start <= |Slots(s)|
    ensures start <= next <= |Slots(s)|
    ensures Live(Slots(s)[start..]) ==
      (if entry.Some? then [(entry.value.key, entry.value.value)] else []) + Live(Slots(s)[next..])
    ensures entry.None? ==> next == |Slots(s)|
    ensures entry.Some? ==> start < next
  {
    hide T.Valid, T.Packed, Indexed;
    ghost var slots := Slots(s);
    T.ViewSize(s.entries);
    NoRefs(s.index, slots);
    next := start;
    while next < s.entries.count
      invariant start <= next <= |slots| && Live(slots[start..]) == Live(slots[next..])
    {
      var raw := T.Get(s.entries, next).value;
      assert slots[next..][0] == slots[next] && slots[next..][1..] == slots[next + 1..];
      next := next + 1;
      if raw.Obj? { return next, Some(raw.value); }
    }
    assert slots[next..] == [];
    return next, None;
  }

  /** Following the cursor from the start meets every pair once, in order. */
  method Each<K(!new), V>(s: Store<K, V>) returns (seen: seq<(K, V)>)
    requires Sound(s)
    ensures seen == Pairs(s)
  {
    hide Sound;
    var cursor, entry := 0, None;
    seen := [];
    assert Slots(s)[0..] == Slots(s);
    cursor, entry := Next(s, 0);
    while entry.Some?
      invariant cursor <= |Slots(s)| && (entry.None? ==> cursor == |Slots(s)|)
      invariant Pairs(s) == seen + (if entry.Some? then [(entry.value.key, entry.value.value)] else [])
        + Live(Slots(s)[cursor..])
      decreases |Slots(s)| - cursor, if entry.Some? then 1 else 0
    {
      seen := seen + [(entry.value.key, entry.value.value)];
      cursor, entry := Next(s, cursor);
    }
    assert Slots(s)[cursor..] == [];
  }

  // ------------------------------------ the end of the slots is within reach

  /** Stores of every size up to the last slot can be built. */
  lemma {:induction false} FullStore(n: nat) returns (s: Store<int, int>)
    requires n <= MAX_SLOTS
    ensures Valid(s) && |Slots(s)| == n && s.index.keys == M.IntKeys()
    ensures forall i | 0 <= i < n :: Slots(s)[i] == Obj(Entry(i, 0))
  {
    hide T.Valid, T.Packed, M.Get, M.Assoc, Indexed, Live;
    if n == 0 {
      s := Empty(M.IntKeys());
      EmptyIsValid<int, int>(M.IntKeys());
    } else {
      var last := FullStore(n - 1);
      NotIn(last, n - 1);
      CountIs(last.index, Slots(last));
      AppendAgrees(last.index, Slots(last), n - 1, 0);
      T.ViewSize(last.entries);
      var x := Obj(Entry(n - 1, 0));
      s := Store(M.Assoc(last.index, Some(n - 1), n - 1).value, T.Push(last.entries, x).value);
    }
  }

  lemma NotIn(s: Store<int, int>, key: int)
    requires Valid(s) && s.index.keys == M.IntKeys()
    requires forall i | 0 <= i < |Slots(s)| :: Slots(s)[i] == Obj(Entry(i, 0)) && i != key
    ensures M.Get(s.index, Some(key)).None?
  {
    hide M.Get;
    LookupFinds(s.index, Slots(s), key);
  }

  /** There is a valid store, and a key it does not hold, for which the slot that
      `store_assoc` records is negative: the index no longer agrees with the entries. */
  lemma {:induction false} SlotsRunOut() returns (s: Store<int, int>)
    ensures Valid(s) && |Slots(s)| == MAX_SLOTS && M.Get(s.index, Some(MAX_SLOTS)).None?
    ensures M.Sound(s.index) && M.Assoc(s.index, Some(MAX_SLOTS), I31(MAX_SLOTS)).Done?
    ensures var index := M.Assoc(s.index, Some(MAX_SLOTS), I31(MAX_SLOTS)).value;
      M.Sound(index) && M.Get(index, Some(MAX_SLOTS)) == Some(-0x4000_0000)
      && !Indexed(index, Slots(s) + [Obj(Entry(MAX_SLOTS, 0))])
  {
    hide M.Get, M.Assoc;
    s := FullStore(MAX_SLOTS);
    NotIn(s, MAX_SLOTS);
    LiveBound(Slots(s));
    M.AssocLaw(s.index, Some(MAX_SLOTS), I31(MAX_SLOTS));
    var index := M.Assoc(s.index, Some(MAX_SLOTS), I31(MAX_SLOTS)).value;
    assert M.Get(index, Some(MAX_SLOTS)) == Some(I31(MAX_SLOTS));
    assert !Holds(Slots(s) + [Obj(Entry(MAX_SLOTS, 0))], I31(MAX_SLOTS), MAX_SLOTS, index.keys);
  }
}
