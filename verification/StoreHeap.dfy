// The transient store: a map builder and a vector builder, kept in agreement while
// both write in place.
module StoreHeap {
  import opened Arithmetic
  import opened Outcomes
  import opened Ownership
  import opened Hamt
  import M = HashMap
  import T = TrieVector
  import H = HamtHeap
  import VH = VectorHeap
  import opened OrderedStore

  class TransientStore<K(!new), V(==)> {
    const index: H.Transient<K, int>
    const entries: VH.Transient<Entry<K, V>>

    ghost function Writable(): set<object>
      reads index, if index.root == null || index.root in index.F then {} else {index.root}
      reads entries, if entries.root.edit == entries.edit then {entries.root} else {}
    {
      index.Writable() + entries.Writable()
    }

    predicate Active()
      reads index.edit, entries.edit
    {
      index.edit.active && entries.edit.active
    }

    /** The two builders are frozen together. */
    predicate Together()
      reads index.edit, entries.edit
    {
      index.edit.active == entries.edit.active
    }

    /** Both builders are in order, and share nothing. */
    ghost predicate Ready()
      reads index, index.edit, index.F
      reads if index.root == null || index.root in index.F then {} else {index.root}
      reads if index.root == null || index.root in index.F then {} else index.root.repr
      reads entries, entries.edit, entries.tail, entries.F
      reads if entries.root.edit == entries.edit then {entries.root} else {}
      reads if entries.root.edit == entries.edit then entries.root.repr else {}
    {
      && index.Valid() && entries.Valid() && index.F == entries.F
      && index.Writable() !! entries.Writable()
      && {index.edit, entries.edit} !! Writable() && index.edit != entries.edit
    }

    /** The store the builder stands for. */
    ghost function Value(): Store<K, V>
      requires Ready()
      reads index, index.edit, index.F
      reads if index.root == null || index.root in index.F then {} else {index.root}
      reads if index.root == null || index.root in index.F then {} else index.root.repr
      reads entries, entries.edit, entries.tail, entries.F
      reads if entries.root.edit == entries.edit then {entries.root} else {}
      reads if entries.root.edit == entries.edit then entries.root.repr else {}
    {
      Store(index.value, entries.Value())
    }

    constructor (index: H.Transient<K, int>, entries: VH.Transient<Entry<K, V>>)
      ensures this.index == index && this.entries == entries
    {
      this.index := index;
      this.entries := entries;
    }

    method Count() returns (trapped: bool, n: int)
      requires Together() && (Active() ==> Ready() && OrderedStore.Valid(Value()))
      ensures trapped <==> !Active()
      ensures !trapped ==> n == |Pairs(Value())|
    {
      if !index.edit.active { return true, 0; }
      trapped := false;
      n := index.count;
      CountIs(Value().index, Slots(Value()));
    }

    /** `t_store_get`: what `store_get` finds; a frozen builder traps. */
    method Get(key: K) returns (trapped: bool, r: Option<V>)
      requires Together() && (Active() ==> Ready() && Sound(Value()))
      ensures trapped <==> !Active()
      ensures !trapped ==> r == Find(Pairs(Value()), key, index.keys)
    {
      if !index.edit.active { return true, None; }
      trapped := false;
      r := Lookup(key);
    }

    /** `t_store_slot`: the slot of a key, if it has one. */
    method Slot(key: K) returns (r: Option<nat>)
      requires Active() && Ready() && Sound(Value())
      ensures M.Get(Value().index, Some(key)) == match r case None => None case Some(i) => Some(i)
      ensures Find(Pairs(Value()), key, index.keys).Some? == r.Some?
      ensures r.Some? ==>
        && OrderedStore.Holds(Slots(Value()), r.value, key, index.keys)
        && Find(Pairs(Value()), key, index.keys) == Some(Slots(Value())[r.value].value.value)
      ensures r.None? ==>
        && NoneEqual(Pairs(Value()), key, index.keys)
        && Cut(Pairs(Value()), Pairs(Value()), 0, key, false, index.keys)
    {
      hide T.Valid, VH.Live, VH.LiveTree, Indexed, Hamt.Valid, H.Live, M.Get;
      LookupFinds(Value().index, Slots(Value()), key);
      var _, found := index.Get(Some(key));
      r := match found case None => None case Some(i) => Some(i as nat);
    }

    method Lookup(key: K) returns (r: Option<V>)
      requires Active() && Ready() && Sound(Value())
      ensures r == Find(Pairs(Value()), key, index.keys)
    {
      hide T.Valid, VH.Live, VH.LiveTree, Indexed, Hamt.Valid, H.Live;
      var slot := Slot(key);
      if slot.None? { return None; }
      var _, e := entries.Get(slot.value);
      return Some(e.value.value.value);
    }

    /** Steps on one builder, which leave the other as it is. */
    method IndexAssoc(key: K, slot: int)
      requires Active() && Ready() && M.Assoc(Value().index, Some(key), slot).Done?
      modifies index.Writable()
      ensures Active() && Ready() && fresh(index.Writable() - old(index.Writable()))
        && unchanged(old(entries.Writable()))
      ensures Done(Value().index) == M.Assoc(old(Value()).index, Some(key), slot)
        && Value().entries == old(Value()).entries
    {
      hide T.Valid, VH.Live, VH.LiveTree, H.Live, M.Sound, M.Assoc;
      IndexApart(index);
      var _ := index.Assoc(Some(key), slot);
      IndexApart(index);
    }

    method IndexDissoc(key: K)
      requires Active() && Ready()
      modifies index.Writable()
      ensures Active() && Ready() && fresh(index.Writable() - old(index.Writable()))
        && unchanged(old(entries.Writable()))
      ensures Value().index == M.Dissoc(old(Value()).index, Some(key)) && Value().entries == old(Value()).entries
    {
      hide T.Valid, VH.Live, VH.LiveTree, H.Live, M.Sound, M.Dissoc;
      IndexApart(index);
      var _ := index.Dissoc(Some(key));
      IndexApart(index);
    }

    method EntriesStep(op: T.Op<VH.Eq<Entry<K, V>>>)
      requires Active() && Ready() && T.Step(Value().entries, op).Done?
      modifies entries.Writable()
      ensures Active() && Ready() && fresh(entries.Writable() - old(entries.Writable()))
        && unchanged(old(index.Writable()))
      ensures Done(Value().entries) == T.Step(old(Value()).entries, op) && Value().index == old(Value()).index
    {
      hide T.Valid, VH.Live, VH.LiveTree, H.Live, M.Sound;
      EntriesApart(entries);
      var _ := VH.Apply(entries, op);
      EntriesApart(entries);
    }

    /** `t_store_assoc`: what `store_assoc` does, in place; a frozen builder traps and
        is not written. */
    method Assoc(key: K, value: V) returns (trapped: bool, ghost added: nat)
      requires Together() && (Active() ==> Ready() && OrderedStore.Valid(Value()))
      modifies if Active() then Writable() else {}
      ensures trapped <==> !old(Active())
      ensures Active() == old(Active())
      ensures !trapped ==> Ready() && fresh(Writable() - old(Writable()))
      ensures !trapped ==> added == if Find(old(Pairs(Value())), key, index.keys).Some? then 0 else 1
      ensures !trapped ==> exists at ::
        && Put(old(Pairs(Value())), Pairs(Value()), at, key, value, added, index.keys)
        && (added == 1 ==> at == |old(Pairs(Value()))|)
      ensures !trapped ==> (OrderedStore.Valid(Value()) <==> added == 0 || |old(Slots(Value()))| < MAX_SLOTS)
    {
      if !index.edit.active { return true, 0; }
      trapped := false;
      added := Bind(key, value);
    }

    method Bind(key: K, value: V) returns (ghost added: nat)
      requires Active() && Ready() && OrderedStore.Valid(Value())
      modifies Writable()
      ensures Active() && Ready() && fresh(Writable() - old(Writable()))
      ensures added == if Find(old(Pairs(Value())), key, index.keys).Some? then 0 else 1
      ensures exists at :: Put(old(Pairs(Value())), Pairs(Value()), at, key, value, added, index.keys)
                           && (added == 1 ==> at == |old(Pairs(Value()))|)
      ensures OrderedStore.Valid(Value()) <==> added == 0 || |old(Slots(Value()))| < MAX_SLOTS
    {
      hide VH.Transient.Valid, T.Valid, T.Packed, VH.Live, VH.LiveTree, Indexed, Hamt.Valid, H.Live, M.Get, M.Assoc;
      hide TransientStore.Ready, TransientStore.Value, H.Transient.Valid, M.Sound, Put, Cut, NoneEqual, Find, Pairs,
          Slots, Sound;
      var slot := Slot(key);
      if slot.Some? {
        Replace(slot.value, key, value);
        added := 0;
      } else {
        Append(key, value);
        added := 1;
      }
    }

    method Replace(slot: nat, ghost key: K, value: V)
      requires Active() && Ready() && OrderedStore.Valid(Value()) && Holds(Slots(Value()), slot, key, index.keys)
      modifies Writable()
      ensures Active() && Ready() && fresh(Writable() - old(Writable())) && OrderedStore.Valid(Value())
      ensures exists at :: Put(old(Pairs(Value())), Pairs(Value()), at, key, value, 0, index.keys)
    {
      hide T.Valid, T.Packed, VH.Live, VH.LiveTree, Indexed, Hamt.Valid, H.Live, M.Get, M.Sound, VH.Transient.Valid,
          H.Transient.Valid;
      ghost var s := Value();
      ReplaceAgrees(s.index, Slots(s), slot, value);
      LiveAt(Slots(s), slot);
      T.ViewSize(s.entries);
      ghost var at := Place(Slots(s), slot);
      var _, e := entries.Get(slot);
      var entry := e.value.value;
      if entry.value == value {
        assert Pairs(s)[at := (entry.key, value)] == Pairs(s);
        assert Put(Pairs(s), Pairs(Value()), at, key, value, 0, index.keys);
        return;
      }
      EntriesStep(T.OpAssoc(slot, VH.Obj(Entry(entry.key, value))));
      assert Put(Pairs(s), Pairs(Value()), at, key, value, 0, index.keys);
    }

    method Append(key: K, value: V)
      requires Active() && Ready() && OrderedStore.Valid(Value()) && M.Get(Value().index, Some(key)).None?
      modifies Writable()
      ensures Active() && Ready() && fresh(Writable() - old(Writable()))
      ensures Slots(Value()) == old(Slots(Value())) + [VH.Obj(Entry(key, value))]
      ensures Pairs(Value()) == old(Pairs(Value())) + [(key, value)] && Value().index.keys == old(Value()).index.keys
      ensures OrderedStore.Valid(Value()) <==> |old(Slots(Value()))| < MAX_SLOTS
      ensures NoneEqual(old(Pairs(Value())), key, index.keys) ==>
        Put(old(Pairs(Value())), Pairs(Value()), |old(Pairs(Value()))|, key, value, 1, index.keys)
    {
      hide T.Valid, T.Packed, VH.Live, VH.LiveTree, Hamt.Valid, H.Live, M.Get, M.Assoc, M.Sound, T.Push;
      ghost var s := Value();
      T.ViewSize(s.entries);
      var n := entries.count;
      var x := VH.Obj(Entry(key, value));
      AppendStep(s, key, value);
      IndexAssoc(key, I31(n));
      EntriesStep(T.OpPush(x));
    }

    /** `t_store_dissoc`: what `store_dissoc` does, in place, but for compaction; a
        frozen builder traps and is not written. */
    method Dissoc(key: K) returns (trapped: bool, ghost removed: bool)
      requires Together() && (Active() ==> Ready() && OrderedStore.Valid(Value()))
      modifies if Active() then Writable() else {}
      ensures trapped <==> !old(Active())
      ensures Active() == old(Active())
      ensures !trapped ==> Ready() && fresh(Writable() - old(Writable())) && OrderedStore.Valid(Value())
      ensures !trapped ==> removed == Find(old(Pairs(Value())), key, index.keys).Some?
      ensures !trapped ==> exists at :: Cut(old(Pairs(Value())), Pairs(Value()), at, key, removed, index.keys)
    {
      if !index.edit.active { return true, false; }
      trapped := false;
      removed := Unbind(key);
    }

    method Unbind(key: K) returns (ghost removed: bool)
      requires Active() && Ready() && OrderedStore.Valid(Value())
      modifies Writable()
      ensures Active() && Ready() && fresh(Writable() - old(Writable())) && OrderedStore.Valid(Value())
      ensures removed == Find(old(Pairs(Value())), key, index.keys).Some?
      ensures exists at :: Cut(old(Pairs(Value())), Pairs(Value()), at, key, removed, index.keys)
    {
      hide T.Valid, T.Packed, VH.Live, VH.LiveTree, Indexed, Hamt.Valid, H.Live, M.Get, M.Dissoc, M.Sound;
      hide TransientStore.Ready, VH.Transient.Valid, H.Transient.Valid, TransientStore.Value, Sound, Pairs, Slots,
          Place, Cut, Find;
      ghost var mine := Writable();
      var slot := Slot(key);
      if slot.None? { return false; }
      Remove(slot.value, key);
      Trim();
      assert fresh(Writable() - mine);
      removed := true;
    }

    /** The key leaves the index, and a tombstone takes the place of its entry. */
    method Remove(slot: nat, key: K)
      requires Active() && Ready() && Sound(Value()) && M.Get(Value().index, Some(key)) == Some(slot)
      modifies Writable()
      ensures Active() && Ready() && fresh(Writable() - old(Writable())) && Sound(Value())
      ensures exists at :: Cut(old(Pairs(Value())), Pairs(Value()), at, key, true, index.keys)
    {
      hide T.Valid, T.Packed, VH.Live, VH.LiveTree, Indexed, Hamt.Valid, H.Live, M.Get, M.Dissoc, M.Sound,
          VH.Transient.Valid;
      ghost var s := Value();
      CountIs(s.index, Slots(s));
      RemoveAgrees(s.index, Slots(s), key);
      LiveAt(Slots(s), slot);
      T.ViewSize(s.entries);
      IndexDissoc(key);
      EntriesStep(T.OpAssoc(slot, VH.Null));
      assert Cut(Pairs(s), Pairs(Value()), Place(Slots(s), slot), key, true, index.keys);
    }

    /** The loop that drops trailing tombstones. */
    method Trim()
      requires Active() && Ready() && Sound(Value())
      modifies Writable()
      ensures Active() && Ready() && fresh(Writable() - old(Writable())) && OrderedStore.Valid(Value())
      ensures Pairs(Value()) == old(Pairs(Value()))
    {
      hide TransientStore.Value, TransientStore.Ready, Holds, Place, Find, Cut, OrderedStore.Valid, Pairs, Slots,
          Sound, NoTrailing, T.Valid, T.Packed, VH.Live, VH.LiveTree, Indexed, Hamt.Valid, H.Live, M.Get, M.Sound,
          VH.Transient.Valid, H.Transient.Valid;
      ghost var before, mine := Pairs(Value()), Writable();
      var trailing := HasTrailingTombstone();
      while trailing
        invariant Active() && Ready() && fresh(Writable() - mine) && Sound(Value())
        invariant Pairs(Value()) == before
        invariant trailing <==> Slots(Value()) != [] && Slots(Value())[|Slots(Value())| - 1].Null?
        decreases |Slots(Value())|
      {
        DropLast();
        assert fresh(Writable() - mine);
        trailing := HasTrailingTombstone();
      }
      NoRefsIn(Value());
    }

    method DropLast()
      requires Active() && Ready() && Sound(Value())
      requires Slots(Value()) != [] && Slots(Value())[|Slots(Value())| - 1].Null?
      modifies Writable()
      ensures Active() && Ready() && fresh(Writable() - old(Writable())) && Sound(Value())
      ensures Pairs(Value()) == old(Pairs(Value())) && |Slots(Value())| < old(|Slots(Value())|)
    {
      hide T.Valid, T.Packed, VH.Live, VH.LiveTree, Indexed, Hamt.Valid, H.Live, M.Get, M.Sound, VH.Transient.Valid,
          H.Transient.Valid;
      TrimAgrees(Value().index, Slots(Value()));
      T.ViewSize(Value().entries);
      EntriesStep(T.OpPop);
    }

    method HasTrailingTombstone() returns (r: bool)
      requires Active() && Ready()
      ensures r <==> Slots(Value()) != [] && Slots(Value())[|Slots(Value())| - 1].Null?
    {
      hide T.Valid, T.Packed, VH.Live, VH.LiveTree, Hamt.Valid, H.Live, M.Sound;
      T.ViewSize(Value().entries);
      if entries.count == 0 { return false; }
      var _, e := entries.Get(entries.count - 1);
      return e.value.Null?;
    }

    /** `t_store_persistent`: freezes both builders, and what they stand for is compacted.
        The pairs are those the builder held, in its order. */
    method Persistent()
      returns (trapped: bool, r: Option<(H.HMap<K, int>, VH.Vec<Entry<K, V>>)>, ghost s: Store<K, V>,
          ghost F': set<object>)
      requires Together() && (Active() ==> Ready() && OrderedStore.Valid(Value()))
      modifies index.edit, entries.edit
      ensures trapped <==> !old(Active())
      ensures !index.edit.active && !entries.edit.active
      ensures !trapped ==> r.Some? && index.F <= F' && Keeps(r.value.0, r.value.1, s, F')
      ensures !trapped ==>
        && OrderedStore.Valid(s) && Dense(s) && Pairs(s) == old(Pairs(Value()))
        && s.index.keys == index.keys
    {
      hide T.Valid, T.Packed, VH.Live, VH.LiveTree, Hamt.Valid, H.Live, M.Sound, Indexed;
      ghost var was := if Active() then Value() else Empty(index.keys);
      s := was;
      var m, v;
      trapped, r, F' := Freeze();
      if trapped { return; }
      m, v, s, F' := Compacted(r.value.0, r.value.1, was, F');
      r := Some((m, v));
    }

    /** Freezes both builders as they stand. */
    method Freeze() returns (trapped: bool, r: Option<(H.HMap<K, int>, VH.Vec<Entry<K, V>>)>, ghost F': set<object>)
      requires Together() && (Active() ==> Ready())
      modifies index.edit, entries.edit
      ensures trapped <==> !old(index.edit.active)
      ensures !index.edit.active && !entries.edit.active
      ensures !trapped ==> fresh(F' - index.F - old(Writable()) - {index.edit, entries.edit})
      ensures !trapped ==> r.Some? && index.F <= F' && Keeps(r.value.0, r.value.1, old(Value()), F')
    {
      hide T.Valid, T.Packed, VH.Live, VH.LiveTree, Hamt.Valid, H.Live, M.Sound;
      if !index.edit.active { return true, None, {}; }
      var _, m, F1 := index.Persistent();
      var _, v, F2 := entries.Persistent();
      F' := F1 + F2;
      if m.value.root != null { H.FrozenGrows(m.value.root, index.value.root.value, F1, F'); }
      VH.VecGrows(v.value, F2, F');
      return false, Some((m.value, v.value)), F';
    }
  }

  lemma NoRefsIn<K(!new), V>(s: Store<K, V>)
    requires Sound(s)
    ensures (Slots(s) != [] ==> !Slots(s)[|Slots(s)| - 1].Null?) ==> OrderedStore.Valid(s)
  {
    NoRefs(s.index, Slots(s));
  }

  /** A builder writes nothing that is frozen. */
  lemma IndexApart<K(!new)>(t: H.Transient<K, int>)
    requires t.Valid()
    ensures t.Writable() !! t.F
  {
    if t.root != null { H.LiveHead(t.root, t.value.root.value, t.edit, t.F); }
  }

  lemma EntriesApart<X>(t: VH.Transient<X>)
    requires t.Valid()
    ensures t.Writable() !! t.F
  {}

  /** What a new key does to a valid store. */
  lemma {:induction false} AppendStep<K(!new), V>(s: Store<K, V>, key: K, value: V)
    requires OrderedStore.Valid(s) && M.Get(s.index, Some(key)).None?
    ensures var n := |Slots(s)|;
      var r, e := M.Assoc(s.index, Some(key), I31(n)), T.Push(s.entries, VH.Obj(Entry(key, value)));
      && r.Done? && e.Done? && Slots(Store(r.value, e.value)) == Slots(s) + [VH.Obj(Entry(key, value))]
      && Pairs(Store(r.value, e.value)) == Pairs(s) + [(key, value)] && r.value.keys == s.index.keys
      && (OrderedStore.Valid(Store(r.value, e.value)) <==> n < MAX_SLOTS)
  {
    hide T.Valid, T.Packed, M.Get, M.Assoc;
    var n, x := |Slots(s)|, VH.Obj(Entry(key, value));
    T.ViewSize(s.entries);
    LiveConcat(Slots(s), [x]);
    LiveOne(x);
    LiveBound(Slots(s));
    M.AssocLaw(s.index, Some(key), I31(n));
    M.AssocStep(s.index, Some(key), I31(n));
    if n < MAX_SLOTS { AppendAgrees(s.index, Slots(s), key, value); }
  }

  method AsTransient<K(!new), V(==)>(m: H.HMap<K, int>, v: VH.Vec<Entry<K, V>>, ghost s: Store<K, V>,
      ghost F: set<object>)
    returns (t: TransientStore<K, V>)
    requires H.Stands(m, s.index, F) && VH.FrozenVec(v, F) && VH.VecValue(v, F) == s.entries && M.Sound(s.index)
    ensures fresh(t) && t.Active() && t.Ready() && t.Value() == s && fresh(t.Writable()) && t.index.F == F
    ensures fresh(t.index.edit) && fresh(t.entries.edit)
  {
    hide T.Valid, T.Packed, VH.Live, VH.LiveTree, Hamt.Valid, H.Live, M.Sound;
    var index := H.AsTransient(m, s.index, F);
    var entries := VH.AsTransient(v, F);
    t := new TransientStore(index, entries);
  }

  /** A store in the heap, with nothing outside `F`, stands for the store value `s`. */
  ghost predicate Keeps<K(!new), V>(m: H.HMap<K, int>, v: VH.Vec<Entry<K, V>>, s: Store<K, V>, F: set<object>)
    reads F
  {
    H.Stands(m, s.index, F) && Reads(v, s, F)
  }

  /** `store_compact` of a store in the heap: nothing that can be observed changes, and
      what is left is dense. */
  method Compacted<K(!new), V(==)>(m: H.HMap<K, int>, v: VH.Vec<Entry<K, V>>, ghost s: Store<K, V>,
      ghost F: set<object>)
    returns (m': H.HMap<K, int>, v': VH.Vec<Entry<K, V>>, ghost s': Store<K, V>, ghost F': set<object>)
    requires Keeps(m, v, s, F) && OrderedStore.Valid(s)
    ensures F <= F' && fresh(F' - F) && Keeps(m', v', s', F')
    ensures OrderedStore.Valid(s') && Dense(s') && Pairs(s') == Pairs(s) && s'.index.keys == s.index.keys
  {
    hide T.Valid, T.Packed, VH.Live, VH.LiveTree, Hamt.Valid, H.Live, H.Frozen, VH.Frozen, VH.FrozenTree, M.Sound,
        M.Get, Indexed;
    T.ViewSize(s.entries);
    CountIs(s.index, Slots(s));
    LiveBound(Slots(s));
    m', v', s', F' := m, v, s, F;
    if v.count < 32 { return; }
    if v.count < TwiceI32(m.count) { return; }
    m', v', s', F' := Rebuilt(m, v, s, F);
  }

  method Rebuilt<K(!new), V(==)>(m: H.HMap<K, int>, v: VH.Vec<Entry<K, V>>, ghost s: Store<K, V>, ghost F: set<object>)
    returns (m': H.HMap<K, int>, v': VH.Vec<Entry<K, V>>, ghost s': Store<K, V>, ghost F': set<object>)
    requires Keeps(m, v, s, F) && Sound(s)
    ensures F <= F' && fresh(F' - F) && Keeps(m', v', s', F')
    ensures OrderedStore.Valid(s') && Pairs(s') == Pairs(s) && s'.index.keys == s.index.keys
      && |Slots(s')| == |Pairs(s')|
  {
    hide T.Valid, T.Packed, VH.Live, VH.LiveTree, Hamt.Valid, H.Live, H.Frozen, VH.Frozen, VH.FrozenTree, M.Sound,
        M.Get,
      Indexed, Reads, VH.Transient.Valid, H.Transient.Valid, TransientStore.Ready, TransientStore.Value, Carried,
      Pairs, Slots, OrderedStore.Valid;
    CountIs(s.index, Slots(s));
    var t, F1 := NewBuilder<K, V>(m.keys, F);
    ReadsStore(v, s, F, F1);
    assert Carried(t.Value(), s, 0) by { CarriedNone(s); }
    for cursor := 0 to v.count
      invariant t.Active() && t.Ready() && fresh(t.Writable()) && t.index.F == F1
      invariant Reads(v, s, F1)
      invariant Carried(t.Value(), s, cursor)
    {
      Carry(t, v, cursor, s, F1);
    }
    s' := t.Value();
    CarriedAll(s', s);
    var _, r, F2 := t.Freeze();
    m', v', F' := r.value.0, r.value.1, F2;
  }

  /** A vector in the heap holds the slots of `s`. */
  ghost predicate Reads<K(!new), V>(v: VH.Vec<Entry<K, V>>, s: Store<K, V>, F: set<object>)
    reads F
  {
    VH.FrozenVec(v, F) && VH.VecValue(v, F) == s.entries
  }

  lemma ReadsStore<K(!new), V>(v: VH.Vec<Entry<K, V>>, s: Store<K, V>, F: set<object>, F': set<object>)
    requires Reads(v, s, F) && F <= F'
    ensures Reads(v, s, F') && v.count == |Slots(s)|
  {
    VH.VecGrows(v, F, F');
    T.ViewSize(s.entries);
  }

  /** A builder of a new store. */
  method NewBuilder<K(!new), V(==)>(keys: Keys<K>, ghost F: set<object>)
    returns (t: TransientStore<K, V>, ghost F': set<object>)
    requires Lawful(keys)
    ensures F <= F' && fresh(F' - F) && t.index.F == F'
    ensures fresh(t) && t.Active() && t.Ready() && t.Value() == Empty<K, V>(keys)
    ensures fresh(t.Writable()) && fresh(t.index.edit) && fresh(t.entries.edit)
  {
    hide T.Valid, T.Packed, VH.Live, VH.LiveTree, Hamt.Valid, H.Live, H.Frozen, VH.Frozen, VH.FrozenTree, M.Sound,
        M.Get, Indexed;
    EmptyIsValid<K, V>(keys);
    CountIs<K, V>(Empty<K, V>(keys).index, []);
    var none;
    none, F' := VH.EmptyVec<Entry<K, V>>(F);
    t := AsTransient(H.HMap(0, null, None, keys), none, Empty(keys), F');
  }

  method Carry<K(!new), V(==)>(t: TransientStore<K, V>, v: VH.Vec<Entry<K, V>>, cursor: nat, ghost s: Store<K, V>,
      ghost F: set<object>)
    requires t.Active() && t.Ready() && t.index.F == F && Sound(s)
    requires Reads(v, s, F) && cursor < v.count
    requires Carried(t.Value(), s, cursor)
    modifies t.Writable()
    ensures t.Active() && t.Ready() && fresh(t.Writable() - old(t.Writable()))
    ensures Reads(v, s, F)
    ensures Carried(t.Value(), s, cursor + 1)
  {
    hide T.Valid, T.Packed, VH.Live, VH.LiveTree, Hamt.Valid, H.Live, H.Frozen, VH.Frozen, VH.FrozenTree, M.Sound,
        M.Get,
      M.Assoc, Indexed, T.Push, VH.Transient.Valid, H.Transient.Valid, Live, Carried,
      OrderedStore.Valid, NoTrailing;
    ghost var before := t.Value();
    T.ViewSize(s.entries);
    CarryReady(before, s, cursor);
    var got := VH.VecGet(v, cursor, F);
    var raw := got.value;
    IndexApart(t.index);
    EntriesApart(t.entries);
    if raw.Obj? { t.Append(raw.value.key, raw.value.value); }
    CarriedMore(before, t.Value(), s, cursor);
  }
}
