// Maps and sets of the Wisp runtime: a hash map from keys to slots over a vector of
// entries with tombstones, rebuilt when a new key finds it too sparse.
module WispMaps {
  import opened Arithmetic
  import opened Bits
  import opened Outcomes
  import opened Hamt
  import M = HashMap
  import T = TrieVector
  import VH = VectorHeap
  import V = WispValues
  import R = WispRuntime
  import opened WispMeters
  import opened OrderedStore

  /** A value in which maps have no key twice. */
  type Good = v: V.Value | V.Wf(v) witness V.Nil

  /** What a map or set is made of. */
  type Rep = Store<Good, Good>

  function KeyHash(k: Good, fold: V.FoldBits): nat {
    match V.Hash(k, fold) case Some(h) => h case None => 0
  }

  function WispKeys(fold: V.FoldBits): Keys<Good> {
    Keys((k: Good) => KeyHash(k, fold), (a: Good, b: Good) => V.Equal(a, b))
  }

  ghost predicate Folds(fold: V.FoldBits) { forall n :: fold(n) < WORD }

  lemma {:induction false} MixBytesBound(h: nat, bytes: V.Bytes)
    requires h < WORD
    ensures V.MixBytes(h, bytes) < WORD
    decreases |bytes|
  {
    if bytes != [] { MixBytesBound(V.Mix(h, bytes[0]), bytes[1..]); }
  }

  lemma {:induction false} OrderBound(xs: seq<V.Value>, h: nat, fold: V.FoldBits)
    requires h < WORD
    ensures var r := V.HashInOrder(xs, h, fold); r.Some? ==> r.value < WORD
    decreases |xs|
  {
    if xs != [] && V.Hash(xs[0], fold).Some? { OrderBound(xs[1..], V.Mix(h, V.Hash(xs[0], fold).value), fold); }
  }

  lemma HashBound(v: V.Value, fold: V.FoldBits)
    requires Folds(fold)
    ensures V.Hash(v, fold).Some? ==> V.Hash(v, fold).value < WORD
  {
    match v
    case Text(k, bytes) => MixBytesBound(if k then 5 else 4, bytes);
    case Record(name, xs) =>
      MixBytesBound(13, name);
      OrderBound(xs, V.MixBytes(13, name), fold);
    case Sequence(_, xs) => OrderBound(xs, 1, fold);
    case _ =>
  }

  /** Wisp's equality and hash are what the hash map asks for. */
  lemma KeysAreLawful(fold: V.FoldBits)
    requires Folds(fold)
    ensures Lawful(WispKeys(fold))
  {
    var f := WispKeys(fold);
    forall k: Good ensures f.hash(k) < WORD && f.equal(k, k) {
      HashBound(k, fold);
      V.Reflexive(k);
    }
    forall j: Good, k: Good | f.equal(j, k) ensures f.equal(k, j) && f.hash(j) == f.hash(k) {
      V.Symmetric(j, k);
      V.HashSame(j, k, fold);
    }
    forall i: Good, j: Good, k: Good | f.equal(i, j) && f.equal(j, k) ensures f.equal(i, k) {
      V.Transitive(i, j, k);
    }
  }

  // ------------------------------------------------------- what a map contains

  /** The pairs with one key bound: in place if it is there, else at the end. */
  function Assigned(e: seq<(Good, Good)>, k: Good, item: Good, f: Keys<Good>): seq<(Good, Good)> {
    var i := IndexOf(e, k, f);
    if i < |e| then e[i := (e[i].0, item)] else e + [(k, item)]
  }

  function Removed(e: seq<(Good, Good)>, k: Good, f: Keys<Good>): seq<(Good, Good)> {
    var i := IndexOf(e, k, f);
    if i < |e| then RemoveAt(e, i) else e
  }

  ghost predicate Sound(s: Rep, set_: bool, fold: V.FoldBits) {
    && T.Valid(s.entries) && Indexed(s.index, Slots(s)) && s.index.keys == WispKeys(fold)
    && (set_ ==> Twins(Pairs(s)))
  }

  /** An item of a set is bound to itself. */
  predicate Twins(e: seq<(Good, Good)>) { forall i | 0 <= i < |e| :: e[i].0 == e[i].1 }

  /** More than twice as many slots as entries, and 32 more. */
  predicate Sparse(s: Rep) { s.entries.count > s.index.count * 2 + 32 }

  lemma {:induction false} IndexIsAt(e: seq<(Good, Good)>, i: nat, k: Good, f: Keys<Good>)
    requires Lawful(f) && M.Distinct(e, f) && i < |e| && f.equal(e[i].0, k)
    ensures IndexOf(e, k, f) == i
  {
    if i > 0 {
      assert !f.equal(e[0].0, e[i].0);
      assert !f.equal(e[0].0, k);
      forall j, l | 0 <= j < |e[1..]| && 0 <= l < |e[1..]| && j != l ensures !f.equal(e[1..][j].0, e[1..][l].0) {
        assert e[1..][j] == e[j + 1] && e[1..][l] == e[l + 1];
      }
      IndexIsAt(e[1..], i - 1, k, f);
    }
  }

  lemma {:induction false} IndexIsNone(e: seq<(Good, Good)>, k: Good, f: Keys<Good>)
    requires NoneEqual(e, k, f)
    ensures IndexOf(e, k, f) == |e|
  {
    if e != [] {
      assert e[0] in e;
      forall p | p in e[1..] ensures !f.equal(p.0, k) { assert p in e; }
      IndexIsNone(e[1..], k, f);
    }
  }

  // ------------------------------------------------------------------- lookup

  function KeysIn(e: seq<(Good, Good)>): (ks: seq<V.Value>)
    ensures |ks| == |e| && forall i | 0 <= i < |e| :: ks[i] == e[i].0
  {
    seq(|e|, i requires 0 <= i < |e| => e[i].0)
  }

  /** Every key has a hash, as every key of a map that a run can reach has. */
  ghost predicate Hashed(e: seq<(Good, Good)>, fold: V.FoldBits) { AllHashed(KeysIn(e), fold) }

  /** `find`, of a map or set: the slot of a key, or -1. */
  method FindSlot(c: R.Context, s: Rep, ghost set_: bool, k: Good) returns (ok: bool, slot: int)
    requires c.Valid() && Sound(s, set_, c.fold)
    modifies c
    ensures ok ==> c.Within(old(c.fuel) - 1, old(c.allocation), old(c.depth))
    ensures ok ==> slot == match M.Get(s.index, Some(k)) case None => -1 case Some(i) => i
    ensures ok ==> slot < |Slots(s)| && (slot < 0 <==> NoneEqual(Pairs(s), k, s.index.keys))
    ensures ok && slot >= 0 ==> Holds(Slots(s), slot, k, s.index.keys)
    ensures var n := FindNeed(KeysIn(Pairs(s)), k, c.probe);
      old(c.Covers(n)) && Hashed(Pairs(s), c.fold) ==>
        if V.Hash(k, c.fold).Some? then ok && c.Took(old(c.fuel), old(c.allocation), n)
        else !ok && c.error == R.NO_HASH
  {
    hide T.Valid, Indexed, V.Hash, FindNeed;
    LookupFinds(s.index, Slots(s), k);
    var at;
    ok, at := c.Find(KeysIn(Pairs(s)), k);
    if !ok { return false, -1; }
    CountIs(s.index, Slots(s));
    slot := match M.Get(s.index, Some(k)) case None => -1 case Some(i) => i;
    if slot >= 0 {
      LiveAt(Slots(s), slot);
      var p := Place(Slots(s), slot);
      assert Pairs(s)[p] in Pairs(s);
    }
  }

  // --------------------------------------------------------- out to an array

  /** Keys and items one after another, or items alone. */
  function Flat(e: seq<(Good, Good)>, set_: bool): seq<Good> {
    if e == [] then [] else (if set_ then [e[0].0] else [e[0].0, e[0].1]) + Flat(e[1..], set_)
  }

  function Width(set_: bool): nat { if set_ then 1 else 2 }

  lemma {:induction false} FlatSize(e: seq<(Good, Good)>, set_: bool)
    ensures |Flat(e, set_)| == |e| * Width(set_)
  {
    if e != [] { FlatSize(e[1..], set_); }
  }

  function ValuesNeed(s: Rep, set_: bool): Need {
    Then(ArrayNeed(|Pairs(s)| * Width(set_), 8), Ticks(8 * |Slots(s)|))
  }

  /** `seq_values`: the array is filled exactly. */
  method SeqValues(c: R.Context, s: Rep, set_: bool) returns (ok: bool, out: array<Good>)
    requires c.Valid() && Sound(s, set_, c.fold)
    modifies c
    ensures fresh(out)
    ensures ok ==> c.Within(old(c.fuel), old(c.allocation), old(c.depth)) && out[..] == Flat(Pairs(s), set_)
    ensures old(c.Covers(ValuesNeed(s, set_))) ==> ok && c.Took(old(c.fuel), old(c.allocation), ValuesNeed(s, set_))
  {
    hide T.Valid, Indexed, Flat;
    CountIs(s.index, Slots(s));
    FlatSize(Pairs(s), set_);
    out := new Good[0];
    ok := c.Allocate(s.index.count * Width(set_), 8);
    if !ok { return; }
    out := new Good[s.index.count * Width(set_)](_ => V.Nil);
    ok := CopyOut(c, s, set_, out);
  }

  /** The loop of `seq_values`. */
  method CopyOut(c: R.Context, s: Rep, set_: bool, out: array<Good>) returns (ok: bool)
    requires c.Valid() && Sound(s, set_, c.fold) && out.Length == |Flat(Pairs(s), set_)|
    modifies c, out
    ensures ok ==> c.Within(old(c.fuel), old(c.allocation), old(c.depth)) && out[..] == Flat(Pairs(s), set_)
    ensures old(c.fuel) >= 8 * |Slots(s)| ==> ok && c.fuel >= old(c.fuel) - 8 * |Slots(s)|
    ensures c.allocation == old(c.allocation)
  {
    hide T.Valid, Indexed, Flat, Live, T.Get;
    ghost var slots := Slots(s);
    T.ViewSize(s.entries);
    NoRefs(s.index, slots);
    var at: nat := 0;
    FlatNothing(slots, set_);
    for i := 0 to s.entries.count
      invariant c.Within(old(c.fuel), old(c.allocation), old(c.depth))
      invariant at <= out.Length && out[..at] == Flat(Live(slots[..i]), set_)
      invariant c.fuel == old(c.fuel) - 8 * i && c.allocation == old(c.allocation)
    {
      ok := c.Tick(8);
      if !ok { return; }
      var slot := SlotAt(s, i);
      RoomFor(slots, i, set_);
      if slot.Obj? {
        at := PutPair(out, at, slot.value.key, slot.value.value, set_);
      }
    }
    assert slots[..s.entries.count] == slots;
    assert at == |out[..at]| == out.Length && out[..at] == out[..];
    ok := true;
  }

  method SlotAt(s: Rep, i: nat) returns (x: VH.Eq<Entry<Good, Good>>)
    requires T.Valid(s.entries) && i < |Slots(s)|
    ensures x == Slots(s)[i]
  {
    x := T.Get(s.entries, i).value;
  }

  method PutPair(out: array<Good>, at: nat, key: Good, item: Good, set_: bool) returns (next: nat)
    requires at + Width(set_) <= out.Length
    modifies out
    ensures next == at + Width(set_) && out[..next] == old(out[..at]) + if set_ then [key] else [key, item]
  {
    out[at] := key;
    if !set_ { out[at + 1] := item; }
    next := at + Width(set_);
  }

  /** There is room for the next entry, and it is written where it belongs. */
  lemma RoomFor(slots: seq<VH.Eq<Entry<Good, Good>>>, i: nat, set_: bool)
    requires i < |slots|
    ensures slots[i].Obj? ==>
      && |Flat(Live(slots[..i]), set_)| + Width(set_) <= |Flat(Live(slots), set_)|
      && Flat(Live(slots[..i + 1]), set_) ==
           Flat(Live(slots[..i]), set_) + if set_ then [slots[i].value.key]
               else [slots[i].value.key, slots[i].value.value]
    ensures !slots[i].Obj? ==> Live(slots[..i + 1]) == Live(slots[..i])
  {
    hide Flat, Live;
    LiveStep(slots, i);
    var before := Live(slots[..i]);
    FlatSize(before, set_);
    FlatSize(Live(slots), set_);
    if slots[i].Obj? {
      FlatMore(before, (slots[i].value.key, slots[i].value.value), set_);
      Grows(|before|, |Live(slots)|, Width(set_));
    }
  }

  lemma FlatNothing(slots: seq<VH.Eq<Entry<Good, Good>>>, set_: bool)
    ensures Live(slots[..0]) == [] && Flat([], set_) == []
  {}

  lemma {:induction false} FlatMore(e: seq<(Good, Good)>, p: (Good, Good), set_: bool)
    ensures Flat(e + [p], set_) == Flat(e, set_) + if set_ then [p.0] else [p.0, p.1]
  {
    if e == [] {
      assert [p][1..] == [] && Flat([], set_) == [];
    } else {
      assert (e + [p])[0] == e[0] && (e + [p])[1..] == e[1..] + [p];
      FlatMore(e[1..], p, set_);
    }
  }

  lemma Grows(n: nat, m: nat, w: nat)
    requires n < m
    ensures (n + 1) * w <= m * w && (n + 1) * w == n * w + w
  {}

  lemma LiveStep<K, X>(slots: seq<VH.Eq<Entry<K, X>>>, i: nat)
    requires i < |slots|
    ensures Live(slots[..i + 1]) == Live(slots[..i])
      + (if slots[i].Obj? then [(slots[i].value.key, slots[i].value.value)] else [])
    ensures slots[i].Obj? ==> |Live(slots[..i])| < |Live(slots)|
  {
    assert slots[..i + 1] == slots[..i] + [slots[i]];
    LiveConcat(slots[..i], [slots[i]]);
    LiveOne(slots[i]);
    if slots[i].Obj? { LiveAt(slots, i); }
  }

  // ------------------------------------------------------------------ charges

  const VECTOR_NEED: Need := Need(256, 8192, 0, 0)

  function TrieNeed(count: nat): Need { Need(count + 512, count * 32 + 16384, 0, 0) }

  /** To bind a key in a map of `count` entries, once it has been looked for. */
  function BindNeed(count: nat): Need { Then(Then(TrieNeed(count), VECTOR_NEED), ArrayNeed(1, 8)) }

  /** To look for a key: it is tried, and tried again by the search. */
  ghost function SoughtNeed(e: seq<(Good, Good)>, k: Good, probe: Probe): Need {
    Then(KeyNeed(k), FindNeed(KeysIn(e), k, probe))
  }

  /** To assign to a key where nothing has to be rebuilt. */
  ghost function AssignNeed(e: seq<(Good, Good)>, k: Good, probe: Probe): Need {
    Then(SoughtNeed(e, k, probe), BindNeed(|e|))
  }

  /** To assign pairs one after another. */
  ghost function AssignsNeed(e: seq<(Good, Good)>, ps: seq<(Good, Good)>, set_: bool, f: Keys<Good>,
      probe: Probe): Need
    decreases |ps|
  {
    if ps == [] then NOTHING
    else Then(AssignNeed(e, ps[0].0, probe), AssignsNeed(Bound(e, set_, ps[0].0, ps[0].1, f), ps[1..], set_, f, probe))
  }

  ghost function SeqNeed(ps: seq<(Good, Good)>, set_: bool, f: Keys<Good>, probe: Probe): Need {
    Then(VECTOR_NEED, AssignsNeed([], ps, set_, f, probe))
  }

  ghost function RebuildNeed(s: Rep, set_: bool, f: Keys<Good>, probe: Probe): Need {
    Then(ValuesNeed(s, set_), SeqNeed(Pairs(s), set_, f, probe))
  }

  /** What `map_assoc` may take, from what the map holds, the key, and the keys the trie
      leads it to. */
  ghost function AssocNeed(s: Rep, set_: bool, k: Good, f: Keys<Good>, probe: Probe): Need {
    var direct := AssignNeed(Pairs(s), k, probe);
    if Sparse(s) then Then(Then(SoughtNeed(Pairs(s), k, probe), RebuildNeed(s, set_, f, probe)), direct) else direct
  }

  ghost function DissocNeed(s: Rep, k: Good, probe: Probe): Need {
    Then(FindNeed(KeysIn(Pairs(s)), k, probe), Then(TrieNeed(|Pairs(s)|), VECTOR_NEED))
  }

  method ReserveVector(c: R.Context) returns (ok: bool)
    requires c.Valid()
    modifies c
    ensures ok ==> c.Within(old(c.fuel) - 256, old(c.allocation) - 8192, old(c.depth))
    ensures old(c.Covers(VECTOR_NEED)) ==> ok && c.Took(old(c.fuel), old(c.allocation), VECTOR_NEED)
  {
    if c.allocation < 8192 {
      c.error := R.TOO_LARGE;
      return false;
    }
    c.allocation := c.allocation - 8192;
    ok := c.Tick(256);
  }

  method ReserveMap(c: R.Context, count: nat) returns (ok: bool)
    requires c.Valid()
    modifies c
    ensures ok ==> c.Within(old(c.fuel) - 512, old(c.allocation) - 16384, old(c.depth))
    ensures old(c.Covers(TrieNeed(count))) ==> ok && c.Took(old(c.fuel), old(c.allocation), TrieNeed(count))
  {
    var bytes := count * 32 + 16384;
    if c.allocation < bytes {
      c.error := R.TOO_LARGE;
      return false;
    }
    c.allocation := c.allocation - bytes;
    ok := c.Tick(count + 512);
  }

  // --------------------------------------------------------------- operations

  /** The pairs after an assignment; a set keeps what it has. */
  function Bound(e: seq<(Good, Good)>, set_: bool, k: Good, item: Good, f: Keys<Good>): seq<(Good, Good)> {
    if set_ && IndexOf(e, k, f) < |e| then e else Assigned(e, k, item, f)
  }

  /** A new key, and no room for it: the map is full, or its slots are used up and are
      not so many that it will be rebuilt. */
  ghost predicate Crowded(s: Rep, set_: bool, k: Good, c: R.Context) {
    && IndexOf(Pairs(s), k, WispKeys(c.fold)) == |Pairs(s)|
    && (|Pairs(s)| >= c.maxSize / Width(set_) || (!Sparse(s) && |Slots(s)| >= c.maxSize))
  }

  /** `map_assoc`: binds a key where it is or at the end. A store too sparse for a new
      key is rebuilt first, and what is rebuilt is not too sparse: the call of itself
      cannot rebuild again. Where the meters cover it, it is refused only for a key
      without a hash, or for a new key there is no room for. */
  method MapAssoc(c: R.Context, s: Rep, set_: bool, k: Good, item: Good) returns (ok: bool, s': Rep)
    requires c.Valid() && Folds(c.fold) && Sound(s, set_, c.fold) && c.maxSize <= MAX_I32 && (set_ ==> item == k)
    modifies c
    ensures ok ==> c.Within(old(c.fuel) - 1, old(c.allocation), old(c.depth)) && Sound(s', set_, c.fold)
    ensures ok ==> Pairs(s') == Bound(Pairs(s), set_, k, item, WispKeys(c.fold))
    ensures ok && !Sparse(s) ==> |Slots(s')| - |Slots(s)| == |Pairs(s')| - |Pairs(s)|
    ensures ok && IndexOf(Pairs(s), k, WispKeys(c.fold)) == |Pairs(s)| ==> |Pairs(s)| < c.maxSize / Width(set_)
    ensures ok && Hashed(Pairs(s), c.fold) ==> Hashed(Pairs(s'), c.fold)
    ensures var n := AssocNeed(s, set_, k, WispKeys(c.fold), c.probe);
      old(c.Covers(n)) && Hashed(Pairs(s), c.fold) ==>
        if V.Hash(k, c.fold).None? then !ok && c.error == R.NO_HASH
        else if Crowded(s, set_, k, c) then !ok && c.error == R.TOO_LARGE
        else ok && c.Took(old(c.fuel), old(c.allocation), n)
    decreases if Sparse(s) then 1 else 0, 0
  {
    hide V.Hash, SoughtNeed, RebuildNeed, BindNeed, IndexOf, Bound, Hashed, NoneEqual, Holds, M.Get, Sound, Pairs,
      Slots;
    s' := s;
    Counts(s, set_, c.fold);
    var slot;
    ok, slot := Seek(c, s, set_, k);
    if !ok { return; }
    var length := s.index.count;
    if slot < 0 && length >= c.maxSize / Width(set_) {
      c.error := R.TOO_LARGE;
      return false, s;
    }
    if slot >= 0 && set_ {
      BoundAlready(Pairs(s), set_, k, item, WispKeys(c.fold));
      return true, s;
    }
    if slot < 0 && s.entries.count > length * 2 + 32 {
      ok, s' := Rebuild(c, s, set_);
      if !ok { return; }
      WidthDivides(c.maxSize, set_);
      ok, s' := MapAssoc(c, s', set_, k, item);
      return;
    }
    ok, s' := Bind(c, s, set_, k, item, slot);
    BoundHashed(Pairs(s), set_, k, item, WispKeys(c.fold), c.fold);
  }

  lemma Counts(s: Rep, set_: bool, fold: V.FoldBits)
    requires Sound(s, set_, fold)
    ensures s.index.count == |Pairs(s)| && s.entries.count == |Slots(s)| && s.index.keys == WispKeys(fold)
  {
    hide T.Valid, Indexed;
    T.ViewSize(s.entries);
    CountIs(s.index, Slots(s));
  }

  /** How `map_assoc` begins: the key is tried, and looked for. */
  method Seek(c: R.Context, s: Rep, set_: bool, k: Good) returns (ok: bool, slot: int)
    requires c.Valid() && Folds(c.fold) && Sound(s, set_, c.fold)
    modifies c
    ensures ok ==> c.Within(old(c.fuel) - 1, old(c.allocation), old(c.depth)) && V.Hash(k, c.fold).Some?
    ensures ok ==> slot == match M.Get(s.index, Some(k)) case None => -1 case Some(i) => i
    ensures ok ==> (IndexOf(Pairs(s), k, WispKeys(c.fold)) < |Pairs(s)| <==> slot >= 0)
    ensures ok && slot < 0 ==>
      NoneEqual(Pairs(s), k, s.index.keys) && IndexOf(Pairs(s), k, WispKeys(c.fold)) == |Pairs(s)|
    ensures ok && slot >= 0 ==> Holds(Slots(s), slot, k, s.index.keys)
    ensures var n := SoughtNeed(Pairs(s), k, c.probe);
      old(c.Covers(n)) && Hashed(Pairs(s), c.fold) ==>
        if V.Hash(k, c.fold).Some? then ok && c.Took(old(c.fuel), old(c.allocation), n)
        else !ok && c.error == R.NO_HASH
  {
    hide V.Hash, KeyNeed, FindNeed, IndexOf, NoneEqual, Holds, M.Get, Hashed, Sound;
    slot := -1;
    ok := c.Key(k);
    if !ok { return; }
    ok, slot := FindSlot(c, s, set_, k);
    if !ok { return; }
    SoughtIs(s, slot, k, set_, c.fold);
  }

  /** `seq(c, kind(v), seq_values(c, v))`: the same pairs, without tombstones. */
  method Rebuild(c: R.Context, s: Rep, set_: bool) returns (ok: bool, s': Rep)
    requires c.Valid() && Folds(c.fold) && Sound(s, set_, c.fold) && c.maxSize <= MAX_I32
    modifies c
    ensures ok ==> c.Within(old(c.fuel), old(c.allocation), old(c.depth)) && Sound(s', set_, c.fold)
    ensures ok ==> Pairs(s') == Pairs(s) && |Slots(s')| == |Pairs(s')| && !Sparse(s')
    ensures var n := RebuildNeed(s, set_, WispKeys(c.fold), c.probe);
      old(c.Covers(n)) && Hashed(Pairs(s), c.fold) && |Pairs(s)| <= c.maxSize / Width(set_) ==>
        ok && c.Took(old(c.fuel), old(c.allocation), n)
    decreases 0, 3
  {
    hide T.Valid, Indexed, ValuesNeed, SeqNeed, BoundFrom, PairsIn, Flat;
    s' := s;
    var values;
    ok, values := SeqValues(c, s, set_);
    if !ok { return; }
    PairsDistinct(s.index, Slots(s));
    KeysAreLawful(c.fold);
    FlatSize(Pairs(s), set_);
    FlatPairs(Pairs(s), set_);
    assert [] + Pairs(s) == Pairs(s);
    BoundDistinct([], Pairs(s), set_, WispKeys(c.fold));
    ok, s' := Seq(c, set_, values[..]);
  }

  /** The pairs of an array of keys and items, or of items. */
  function PairsIn(values: seq<Good>, set_: bool): seq<(Good, Good)>
    decreases |values|
  {
    if |values| < Width(set_) then []
    else [(values[0], if set_ then values[0] else values[1])] + PairsIn(values[Width(set_)..], set_)
  }

  predicate Whole(values: seq<Good>, set_: bool)
    decreases |values|
  {
    values == [] || (|values| >= Width(set_) && Whole(values[Width(set_)..], set_))
  }

  /** Pairs bound one after another, over what is there. */
  function BoundFrom(e: seq<(Good, Good)>, ps: seq<(Good, Good)>, set_: bool, f: Keys<Good>): seq<(Good, Good)>
    decreases |ps|
  {
    if ps == [] then e else BoundFrom(Bound(e, set_, ps[0].0, ps[0].1, f), ps[1..], set_, f)
  }

  lemma {:induction false} BoundDistinct(e: seq<(Good, Good)>, ps: seq<(Good, Good)>, set_: bool, f: Keys<Good>)
    requires Lawful(f) && M.Distinct(e + ps, f)
    ensures BoundFrom(e, ps, set_, f) == e + ps
    decreases |ps|
  {
    if ps == [] {
      assert e + ps == e;
    } else {
      var all := e + ps;
      forall p | p in e ensures !f.equal(p.0, ps[0].0) {
        var i :| 0 <= i < |e| && e[i] == p;
        assert all[i] == p && all[|e|] == ps[0];
      }
      IndexIsNone(e, ps[0].0, f);
      assert e + [ps[0]] + ps[1..] == all;
      BoundDistinct(e + [ps[0]], ps[1..], set_, f);
    }
  }

  lemma {:induction false} FlatPairs(e: seq<(Good, Good)>, set_: bool)
    requires set_ ==> Twins(e)
    ensures Whole(Flat(e, set_), set_) && PairsIn(Flat(e, set_), set_) == e
  {
    if e != [] {
      FlatPairs(e[1..], set_);
      assert Flat(e, set_)[Width(set_)..] == Flat(e[1..], set_);
      assert [e[0]] + e[1..] == e;
    }
  }

  /** `seq` of a map or set: its pairs bound one after another. */
  method Seq(c: R.Context, set_: bool, values: seq<Good>) returns (ok: bool, out: Rep)
    requires c.Valid() && Folds(c.fold) && c.maxSize <= MAX_I32 && Whole(values, set_)
    modifies c
    ensures ok ==> c.Within(old(c.fuel), old(c.allocation), old(c.depth)) && Sound(out, set_, c.fold)
    ensures ok ==> Pairs(out) == BoundFrom([], PairsIn(values, set_), set_, WispKeys(c.fold))
    ensures ok ==> |Slots(out)| == |Pairs(out)| && !Sparse(out)
    ensures var ps := PairsIn(values, set_);
      var n := SeqNeed(ps, set_, WispKeys(c.fold), c.probe);
      old(c.Covers(n)) && Hashed(ps, c.fold) && |ps| <= c.maxSize / Width(set_) ==>
        ok && c.Took(old(c.fuel), old(c.allocation), n)
    decreases 0, 2
  {
    hide Bound, BoundFrom, PairsIn, AssignNeed, AssignsNeed, V.Hash, IndexOf, Sparse, Sound, Pairs, Slots, Hashed;
    ghost var ps := PairsIn(values, set_);
    ghost var total := SeqNeed(ps, set_, WispKeys(c.fold), c.probe);
    ghost var enough := c.Covers(total) && Hashed(ps, c.fold) && |ps| <= c.maxSize / Width(set_);
    var f := WispKeys(c.fold);
    NothingBound(f, set_);
    EmptySound(set_, c.fold);
    out := Empty(f);
    ok := ReserveVector(c);
    if !ok { return; }
    var i: nat := 0;
    assert values[0..] == values;
    if enough { SetOut(c, old(c.fuel), old(c.allocation), ps, set_, total); }
    while i < |values|
      invariant i <= |values| && Whole(values[i..], set_)
      invariant c.Within(old(c.fuel), old(c.allocation), old(c.depth))
      invariant Sound(out, set_, c.fold) && |Slots(out)| == |Pairs(out)| && !Sparse(out)
      invariant BoundFrom(Pairs(out), PairsIn(values[i..], set_), set_, f)
        == BoundFrom([], PairsIn(values, set_), set_, f)
      invariant enough ==> OnTheWay(c, old(c.fuel), old(c.allocation), Pairs(out), PairsIn(values[i..], set_), set_,
        total)
      decreases |values| - i
    {
      ghost var rest := values[i..];
      var item := if set_ then values[i] else values[i + 1];
      assert rest[Width(set_)..] == values[i + Width(set_)..];
      BoundStep(Pairs(out), rest, set_, f);
      PairsStep(rest, set_);
      ok, out := AssignNext(c, out, set_, values[i], item, enough, old(c.fuel), old(c.allocation),
                            PairsIn(rest, set_), total);
      if !ok { return; }
      DenseIsNotSparse(out, set_, c.fold);
      i := i + Width(set_);
    }
    assert values[i..] == [];
    ok := true;
  }

  /** There is enough on the meters for what is left to assign, and not more has been taken
      than `total` without that. */
  ghost predicate OnTheWay(c: R.Context, fuel: int, allocation: int, e: seq<(Good, Good)>, left: seq<(Good, Good)>,
      set_: bool, total: Need)
    reads c
  {
    var n := AssignsNeed(e, left, set_, WispKeys(c.fold), c.probe);
    && c.Covers(n) && c.fuel - n.fuel >= fuel - total.fuel
    && c.allocation - n.allocation >= allocation - total.allocation
    && Hashed(e, c.fold) && Hashed(left, c.fold) && |e| + |left| <= c.maxSize / Width(set_)
  }

  lemma SetOut(c: R.Context, fuel: int, allocation: int, ps: seq<(Good, Good)>, set_: bool, total: Need)
    requires total == SeqNeed(ps, set_, WispKeys(c.fold), c.probe) && Hashed(ps, c.fold)
    requires fuel >= total.fuel && allocation >= total.allocation && c.maxDepth - c.depth >= total.depth
      && c.maxSize >= total.size
    requires c.fuel >= fuel - 256 && c.allocation >= allocation - 8192 && |ps| <= c.maxSize / Width(set_)
    ensures OnTheWay(c, fuel, allocation, [], ps, set_, total)
  {
    hide AssignsNeed;
  }

  lemma PairsStep(values: seq<Good>, set_: bool)
    requires |values| >= Width(set_)
    ensures PairsIn(values, set_) != []
    ensures PairsIn(values, set_)[0] == (values[0], if set_ then values[0] else values[1])
    ensures PairsIn(values, set_)[1..] == PairsIn(values[Width(set_)..], set_)
  {}

  /** One assignment of `seq`, into what is not sparse. */
  method AssignNext(c: R.Context, s: Rep, set_: bool, k: Good, item: Good, ghost enough: bool, ghost fuel: int,
      ghost allocation: int, ghost left: seq<(Good, Good)>, ghost total: Need) returns (ok: bool, s': Rep)
    requires c.Valid() && Folds(c.fold) && Sound(s, set_, c.fold) && c.maxSize <= MAX_I32 && (set_ ==> item == k)
    requires !Sparse(s) && |Slots(s)| == |Pairs(s)| && left != [] && left[0] == (k, item)
    requires enough ==> OnTheWay(c, fuel, allocation, Pairs(s), left, set_, total)
    modifies c
    ensures ok ==> c.Within(old(c.fuel) - 1, old(c.allocation), old(c.depth)) && Sound(s', set_, c.fold)
    ensures ok ==> Pairs(s') == Bound(Pairs(s), set_, k, item, WispKeys(c.fold)) && |Slots(s')| == |Pairs(s')|
    ensures enough ==> ok && OnTheWay(c, fuel, allocation, Pairs(s'), left[1..], set_, total)
    decreases 0, 1
  {
    hide V.Hash, KeyNeed, FindNeed, BindNeed, IndexOf, Bound, Sound, Pairs, Slots;
    assert enough ==> V.Hash(left[0].0, c.fold).Some? && !Crowded(s, set_, k, c) by {
      if enough {
        assert KeysIn(left)[0] == k;
        WidthDivides(c.maxSize, set_);
      }
    }
    ok, s' := MapAssoc(c, s, set_, k, item);
    BoundSize(Pairs(s), set_, k, item, WispKeys(c.fold));
    assert enough ==> Hashed(left[1..], c.fold) by {
      if enough { forall i | 0 <= i < |left[1..]| ensures V.Hash(KeysIn(left[1..])[i], c.fold).Some? {
        assert KeysIn(left)[i + 1] == KeysIn(left[1..])[i];
      } }
    }
  }

  lemma WidthDivides(n: int, set_: bool)
    ensures n / Width(set_) > 0 ==> n / Width(set_) <= n
  {}

  lemma BoundSize(e: seq<(Good, Good)>, set_: bool, k: Good, item: Good, f: Keys<Good>)
    ensures |e| <= |Bound(e, set_, k, item, f)| <= |e| + 1
  {}

  lemma BoundAlready(e: seq<(Good, Good)>, set_: bool, k: Good, item: Good, f: Keys<Good>)
    requires set_ && IndexOf(e, k, f) < |e|
    ensures Bound(e, set_, k, item, f) == e
  {}

  /** What `find` has found is where the key is among the pairs. */
  lemma SoughtIs(s: Rep, slot: int, k: Good, set_: bool, fold: V.FoldBits)
    requires Folds(fold) && Sound(s, set_, fold)
    requires slot < 0 ==> NoneEqual(Pairs(s), k, s.index.keys)
    requires slot >= 0 ==> Holds(Slots(s), slot, k, s.index.keys)
    ensures IndexOf(Pairs(s), k, WispKeys(fold)) < |Pairs(s)| <==> slot >= 0
    ensures IndexOf(Pairs(s), k, WispKeys(fold)) <= |Pairs(s)|
  {
    hide T.Valid, Indexed;
    if slot < 0 { IndexIsNone(Pairs(s), k, WispKeys(fold)); } else { FoundAt(s, slot, k, set_, fold); }
  }

  /** A key that is bound has a hash, and the others are bound already. */
  lemma BoundHashed(e: seq<(Good, Good)>, set_: bool, k: Good, item: Good, f: Keys<Good>, fold: V.FoldBits)
    requires V.Hash(k, fold).Some?
    ensures Hashed(e, fold) ==> Hashed(Bound(e, set_, k, item, f), fold)
  {
    hide V.Hash;
    var e' := Bound(e, set_, k, item, f);
    if Hashed(e, fold) {
      forall i | 0 <= i < |e'| ensures V.Hash(KeysIn(e')[i], fold).Some? {
        if i < |e| { assert KeysIn(e)[i] == KeysIn(e')[i]; } else { assert KeysIn(e')[i] == k; }
      }
    }
  }

  lemma NothingBound(f: Keys<Good>, set_: bool)
    ensures forall e :: BoundFrom(e, [], set_, f) == e
    ensures PairsIn([], set_) == []
  {}

  lemma BoundStep(e: seq<(Good, Good)>, values: seq<Good>, set_: bool, f: Keys<Good>)
    requires |values| >= Width(set_)
    ensures BoundFrom(e, PairsIn(values, set_), set_, f) ==
      BoundFrom(Bound(e, set_, values[0], if set_ then values[0] else values[1], f),
          PairsIn(values[Width(set_)..], set_), set_, f)
  {
    var ps := PairsIn(values, set_);
    assert ps[1..] == PairsIn(values[Width(set_)..], set_);
  }

  lemma DenseIsNotSparse(s: Rep, set_: bool, fold: V.FoldBits)
    requires Sound(s, set_, fold) && |Slots(s)| == |Pairs(s)|
    ensures !Sparse(s)
  {
    CountIs(s.index, Slots(s));
    T.ViewSize(s.entries);
  }

  lemma FoundAt(s: Rep, slot: nat, k: Good, set_: bool, fold: V.FoldBits)
    requires Folds(fold) && Sound(s, set_, fold) && Holds(Slots(s), slot, k, s.index.keys)
    ensures Place(Slots(s), slot) < |Pairs(s)| && Pairs(s)[Place(Slots(s), slot)].0 == Slots(s)[slot].value.key
    ensures IndexOf(Pairs(s), k, WispKeys(fold)) == Place(Slots(s), slot)
  {
    hide T.Valid, Indexed;
    LiveAt(Slots(s), slot);
    PairsDistinct(s.index, Slots(s));
    KeysAreLawful(fold);
    IndexIsAt(Pairs(s), Place(Slots(s), slot), k, WispKeys(fold));
  }

  /** The end of `map_assoc`, when nothing has to be rebuilt. */
  method Bind(c: R.Context, s: Rep, set_: bool, k: Good, item: Good, slot: int) returns (ok: bool, s': Rep)
    requires c.Valid() && Folds(c.fold) && Sound(s, set_, c.fold) && c.maxSize <= MAX_I32
      && (set_ ==> item == k && slot < 0)
    requires slot == match M.Get(s.index, Some(k)) case None => -1 case Some(i) => i
    requires slot < 0 ==> NoneEqual(Pairs(s), k, s.index.keys)
    requires slot >= 0 ==> Holds(Slots(s), slot, k, s.index.keys)
    modifies c
    ensures ok ==> c.Within(old(c.fuel), old(c.allocation), old(c.depth)) && Sound(s', set_, c.fold)
    ensures ok ==> Pairs(s') == Bound(Pairs(s), set_, k, item, WispKeys(c.fold))
    ensures ok ==> |Slots(s')| - |Slots(s)| == |Pairs(s')| - |Pairs(s)|
    ensures old(c.Covers(BindNeed(|Pairs(s)|))) ==>
      if slot < 0 && |Slots(s)| >= c.maxSize then !ok && c.error == R.TOO_LARGE
      else ok && c.Took(old(c.fuel), old(c.allocation), BindNeed(|Pairs(s)|))
  {
    hide V.Hash, IndexOf, Bound, Sound, Pairs, Slots, M.Get, NoneEqual, Holds;
    s' := s;
    Counts(s, set_, c.fold);
    ok := ReserveMap(c, s.index.count);
    if !ok { return; }
    ok := ReserveVector(c);
    if !ok { return; }
    if slot >= 0 {
      s' := Rebind(s, set_, k, item, slot, c.fold);
    } else {
      if s.entries.count >= c.maxSize {
        c.error := R.TOO_LARGE;
        return false, s;
      }
      ok := c.Allocate(1, 8);
      if !ok { return; }
      s' := BindLast(s, set_, k, item, c.fold);
    }
  }

  /** A new item for a key that is there. */
  method Rebind(s: Rep, set_: bool, k: Good, item: Good, slot: nat, ghost fold: V.FoldBits) returns (s': Rep)
    requires Folds(fold) && Sound(s, set_, fold) && !set_ && Holds(Slots(s), slot, k, s.index.keys)
    ensures Sound(s', set_, fold) && Pairs(s') == Bound(Pairs(s), set_, k, item, WispKeys(fold))
    ensures |Slots(s')| == |Slots(s)| && |Pairs(s')| == |Pairs(s)|
  {
    hide T.Valid, Indexed, M.Get, M.Assoc, Live, IndexOf;
    T.ViewSize(s.entries);
    CountIs(s.index, Slots(s));
    FoundAt(s, slot, k, set_, fold);
    ReplaceAgrees(s.index, Slots(s), slot, item);
    var entry := T.Get(s.entries, slot).value.value;
    s' := Store(s.index, T.Assoc(s.entries, slot, VH.Obj(Entry(entry.key, item))).value);
  }

  /** A new key, at the end. */
  method BindLast(s: Rep, set_: bool, k: Good, item: Good, ghost fold: V.FoldBits) returns (s': Rep)
    requires Folds(fold) && Sound(s, set_, fold) && (set_ ==> item == k) && |Slots(s)| < MAX_I32
    requires NoneEqual(Pairs(s), k, s.index.keys)
    ensures Sound(s', set_, fold) && Pairs(s') == Bound(Pairs(s), set_, k, item, WispKeys(fold))
    ensures |Slots(s')| == |Slots(s)| + 1 && |Pairs(s')| == |Pairs(s)| + 1
  {
    hide T.Valid, Indexed, M.Get, M.Assoc, Live, IndexOf;
    T.ViewSize(s.entries);
    CountIs(s.index, Slots(s));
    IndexIsNone(Pairs(s), k, WispKeys(fold));
    Absent(s, k);
    AppendAgrees(s.index, Slots(s), k, item);
    var index := M.Assoc(s.index, Some(k), s.entries.count).value;
    s' := Store(index, T.Push(s.entries, VH.Obj(Entry(k, item))).value);
  }

  lemma Absent(s: Rep, k: Good)
    requires Indexed(s.index, Slots(s)) && NoneEqual(Pairs(s), k, s.index.keys)
    ensures M.Get(s.index, Some(k)).None?
  {
    hide M.Get;
    LookupFinds(s.index, Slots(s), k);
    forall i | 0 <= i < |Slots(s)| && Slots(s)[i].Obj? ensures !s.index.keys.equal(Slots(s)[i].value.key, k) {
      LiveAt(Slots(s), i);
      assert Pairs(s)[Place(Slots(s), i)] in Pairs(s);
    }
  }

  /** `map_dissoc`: the pair of a key goes, and all others stay in order. */
  method MapDissoc(c: R.Context, s: Rep, set_: bool, k: Good) returns (ok: bool, s': Rep)
    requires c.Valid() && Folds(c.fold) && Sound(s, set_, c.fold)
    modifies c
    ensures ok ==> c.Within(old(c.fuel) - 1, old(c.allocation), old(c.depth)) && Sound(s', set_, c.fold)
    ensures ok ==> Pairs(s') == Removed(Pairs(s), k, WispKeys(c.fold))
    ensures ok && Hashed(Pairs(s), c.fold) ==> Hashed(Pairs(s'), c.fold)
    ensures var n := DissocNeed(s, k, c.probe);
      old(c.Covers(n)) && Hashed(Pairs(s), c.fold) ==>
        if V.Hash(k, c.fold).Some? then ok && c.Took(old(c.fuel), old(c.allocation), n)
        else !ok && c.error == R.NO_HASH
  {
    hide T.Valid, Indexed, M.Get, M.Dissoc, V.Hash, FindNeed, Removed;
    RemovedHashed(Pairs(s), k, WispKeys(c.fold), c.fold);
    s' := s;
    T.ViewSize(s.entries);
    CountIs(s.index, Slots(s));
    var slot;
    ok, slot := FindSlot(c, s, set_, k);
    if !ok { return; }
    if slot < 0 {
      IndexIsNone(Pairs(s), k, WispKeys(c.fold));
      RemovedNone(Pairs(s), k, WispKeys(c.fold));
      return true, s;
    }
    ok := ReserveMap(c, s.index.count);
    if !ok { return; }
    ok := ReserveVector(c);
    if !ok { return; }
    s' := Unbind(s, set_, k, slot, c.fold);
  }

  lemma RemovedNone(e: seq<(Good, Good)>, k: Good, f: Keys<Good>)
    requires IndexOf(e, k, f) == |e|
    ensures Removed(e, k, f) == e
  {}

  lemma RemovedHashed(e: seq<(Good, Good)>, k: Good, f: Keys<Good>, fold: V.FoldBits)
    ensures Hashed(e, fold) ==> Hashed(Removed(e, k, f), fold)
  {
    hide V.Hash;
    var e', n := Removed(e, k, f), IndexOf(e, k, f);
    if Hashed(e, fold) {
      forall i | 0 <= i < |e'| ensures V.Hash(KeysIn(e')[i], fold).Some? {
        assert KeysIn(e')[i] == KeysIn(e)[if i < n then i else i + 1];
      }
    }
  }

  /** The end of `map_dissoc`: a tombstone where the entry was. */
  method Unbind(s: Rep, ghost set_: bool, k: Good, slot: nat, ghost fold: V.FoldBits) returns (s': Rep)
    requires Folds(fold) && Sound(s, set_, fold) && M.Get(s.index, Some(k)) == Some(slot)
    ensures Sound(s', set_, fold) && Pairs(s') == Removed(Pairs(s), k, WispKeys(fold))
  {
    hide T.Valid, Indexed, M.Get, M.Dissoc, Live;
    T.ViewSize(s.entries);
    CountIs(s.index, Slots(s));
    LookupFinds(s.index, Slots(s), k);
    FoundAt(s, slot, k, set_, fold);
    RemoveAgrees(s.index, Slots(s), k);
    s' := Store(M.Dissoc(s.index, Some(k)), T.Assoc(s.entries, slot, VH.Null).value);
  }

  lemma SizeAfter(e: seq<(Good, Good)>, set_: bool, k: Good, item: Good, f: Keys<Good>)
    ensures IndexOf(e, k, f) <= |e|
    ensures |Bound(e, set_, k, item, f)| == if IndexOf(e, k, f) < |e| then |e| else |e| + 1
  {}

  lemma RemovedSize(e: seq<(Good, Good)>, k: Good, f: Keys<Good>)
    ensures |Removed(e, k, f)| <= |e|
  {}

  lemma EmptySound(set_: bool, fold: V.FoldBits)
    requires Folds(fold)
    ensures var s := Empty<Good, Good>(WispKeys(fold));
      Sound(s, set_, fold) && Pairs(s) == [] && Slots(s) == [] && !Sparse(s) && Hashed(Pairs(s), fold)
  {
    KeysAreLawful(fold);
    EmptyIsValid<Good, Good>(WispKeys(fold));
    DenseIsNotSparse(Empty(WispKeys(fold)), set_, fold);
  }

  // --------------------------------------------------------------- whole runs

  datatype Op = Assign(key: Good, item: Good) | Drop(key: Good)

  function Applied(e: seq<(Good, Good)>, set_: bool, op: Op, f: Keys<Good>): seq<(Good, Good)> {
    match op
    case Assign(k, item) => Bound(e, set_, k, if set_ then k else item, f)
    case Drop(k) => Removed(e, k, f)
  }

  function AppliedAll(e: seq<(Good, Good)>, set_: bool, ops: seq<Op>, f: Keys<Good>): seq<(Good, Good)> {
    if ops == [] then e else Applied(AppliedAll(e, set_, ops[..|ops| - 1], f), set_, ops[|ops| - 1], f)
  }

  /** Whatever is done to a map or set, as long as no meter runs out, it is the ordered
      list that the operations describe, and each of them has spent fuel. */
  method Run(c: R.Context, set_: bool, ops: seq<Op>) returns (ok: bool, s: Rep)
    requires c.Valid() && Folds(c.fold) && c.maxSize <= MAX_I32
    modifies c
    ensures ok ==> c.Within(old(c.fuel) - |ops|, old(c.allocation), old(c.depth)) && Sound(s, set_, c.fold)
    ensures ok ==> Pairs(s) == AppliedAll([], set_, ops, WispKeys(c.fold))
    ensures ok ==> Hashed(Pairs(s), c.fold) && (Pairs(s) != [] ==> |Pairs(s)| <= c.maxSize / Width(set_))
  {
    hide AssocNeed, DissocNeed, Crowded, V.Hash, IndexOf, Bound, Removed, Sparse, Hashed, Sound, Pairs;
    EmptySound(set_, c.fold);
    s := Empty(WispKeys(c.fold));
    for i := 0 to |ops|
      invariant c.Within(old(c.fuel) - i, old(c.allocation), old(c.depth)) && Sound(s, set_, c.fold)
      invariant Pairs(s) == AppliedAll([], set_, ops[..i], WispKeys(c.fold))
      invariant Hashed(Pairs(s), c.fold) && (Pairs(s) != [] ==> |Pairs(s)| <= c.maxSize / Width(set_))
    {
      assert ops[..i + 1][..i] == ops[..i];
      match ops[i] {
        case Assign(k, item) =>
          SizeAfter(Pairs(s), set_, k, if set_ then k else item, WispKeys(c.fold));
          ok, s := MapAssoc(c, s, set_, k, if set_ then k else item);
        case Drop(k) =>
          RemovedSize(Pairs(s), k, WispKeys(c.fold));
          ok, s := MapDissoc(c, s, set_, k);
      }
      if !ok { return; }
    }
    assert ops[..|ops|] == ops;
    ok := true;
  }
}
