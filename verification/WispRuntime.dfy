// The Wisp runtime's meters, and the recursive operations that run on them.
//
// Every operation charges the shared context, and dies when a meter runs out. What
// dies returns nothing; what returns has kept the meters in order.
module WispRuntime {
  import opened Arithmetic
  import opened Bits
  import opened Outcomes
  import opened Unordered
  import S = StructuralValues
  import opened V = WispValues
  import opened WispMeters

  const TOO_LARGE: nat := 2
  const NO_HASH: nat := 7

  ghost predicate Leads(probe: Probe) {
    forall keys, k :: LeadsTo(probe(keys, k), keys, k)
  }

  ghost predicate LeadsTo(found: seq<nat>, keys: seq<Value>, k: Value) {
    && (forall i | i in found :: i < |keys|)
    && (forall i | 0 <= i < |keys| && Equal(keys[i], k) :: i in found)
  }

  class Context {
    var fuel: int
    var allocation: int
    var depth: int
    var error: nat
    const maxSize: int
    const maxDepth: int
    const probe: Probe
    const fold: FoldBits

    /** What holds between any two operations. */
    ghost predicate Valid()
      reads this
    {
      fuel >= 0 && allocation >= 0 && 0 <= depth <= maxDepth && Leads(probe)
    }

    /** No meter has gained, and the depth is what it was. */
    ghost predicate Within(f: int, a: int, d: int)
      reads this
    {
      Valid() && fuel <= f && allocation <= a && depth == d
    }

    /** The meters stand high enough for `n`. */
    ghost predicate Covers(n: Need)
      reads this
    {
      fuel >= n.fuel && allocation >= n.allocation && maxDepth - depth >= n.depth && maxSize >= n.size
    }

    /** From meters that stood at `f` and `a`, no more than `n` has been taken. */
    ghost predicate Took(f: int, a: int, n: Need)
      reads this
    {
      fuel >= f - n.fuel && allocation >= a - n.allocation
    }

    /** Doing nothing takes nothing. */
    lemma Untouched()
      requires Valid()
      ensures Within(fuel, allocation, depth) && forall n: Need :: Took(fuel, allocation, n)
    {}

    constructor (fuel: int, allocation: int, size: int, maxDepth: int, probe: Probe, fold: FoldBits)
      requires fuel >= 0 && allocation >= 0 && maxDepth >= 0 && Leads(probe)
      ensures Valid() && this.fuel == fuel && this.allocation == allocation && depth == 0
    {
      this.fuel, this.allocation, maxSize, depth, this.maxDepth, error := fuel, allocation, size, 0, maxDepth, 0;
      this.probe, this.fold := probe, fold;
    }

    method Tick(cost: int) returns (ok: bool)
      requires Valid()
      modifies this
      ensures ok <==> 0 <= cost <= old(fuel)
      ensures ok ==>
        && Within(old(fuel), old(allocation), old(depth)) && fuel == old(fuel) - cost
        && allocation == old(allocation)
      ensures !ok ==> error == 1 && fuel == old(fuel)
      ensures allocation == old(allocation) && depth == old(depth)
    {
      if cost < 0 || fuel < cost {
        error := 1;
        return false;
      }
      fuel := fuel - cost;
      return true;
    }

    method Allocate(count: int, width: nat) returns (ok: bool)
      requires Valid()
      modifies this
      ensures ok <==> 0 <= count <= maxSize && old(allocation) >= count * width + 32 && old(fuel) >= count + 1
      ensures ok ==> Within(old(fuel) - 1, old(allocation) - 32, old(depth))
      ensures ok ==> fuel == old(fuel) - count - 1 && allocation == old(allocation) - count * width - 32
      ensures !ok ==> error == if 0 <= count <= maxSize && old(allocation) >= count * width + 32 then 1 else 2
    {
      if count < 0 || count > maxSize {
        error := 2;
        return false;
      }
      var cost := count * width + 32;
      NonNegative(count, width);
      if allocation < cost {
        error := 2;
        return false;
      }
      allocation := allocation - cost;
      ok := Tick(count + 1);
    }

    method Enter() returns (ok: bool)
      requires Valid()
      modifies this
      ensures ok <==> old(fuel) >= 1 && old(depth) < maxDepth
      ensures ok ==> Within(old(fuel) - 1, old(allocation), old(depth) + 1)
      ensures ok ==> fuel == old(fuel) - 1 && allocation == old(allocation)
      ensures !ok ==> error == if old(fuel) >= 1 then 3 else 1
    {
      ok := Tick(1);
      if !ok { return; }
      if depth >= maxDepth {
        error := 3;
        return false;
      }
      depth := depth + 1;
    }

    method Leave()
      requires Valid() && depth > 0
      modifies this
      ensures Within(old(fuel), old(allocation), old(depth) - 1)
      ensures fuel == old(fuel) && allocation == old(allocation)
    {
      depth := depth - 1;
    }

    // ---------------------------------------------------------------- equality

    method SameBytes(a: Bytes, b: Bytes) returns (ok: bool, r: bool)
      requires Valid()
      modifies this
      ensures ok ==> Within(old(fuel), old(allocation), old(depth)) && r == (a == b)
      ensures old(Covers(Ticks(|a|))) ==> ok && Took(old(fuel), old(allocation), Ticks(|a|))
    {
      if |a| != |b| { return true, false; }
      for i := 0 to |a|
        invariant Within(old(fuel), old(allocation), old(depth)) && a[..i] == b[..i]
        invariant Took(old(fuel), old(allocation), Ticks(i))
      {
        ok := Tick(1);
        if !ok { return false, false; }
        if a[i] != b[i] { return true, false; }
        assert a[..i + 1] == a[..i] + [a[i]] && b[..i + 1] == b[..i] + [b[i]];
      }
      assert a[..|a|] == a && b[..|b|] == b;
      return true, true;
    }

    /** `equal`: what returns is right, and has spent fuel; so fuel bounds the depth of
        any comparison, whatever it compares. It returns whenever the meters cover it. */
    method EqualValues(a: Value, b: Value) returns (ok: bool, r: bool)
      requires Valid() && Wf(a) && Wf(b)
      modifies this
      ensures ok ==> Within(old(fuel) - 1, old(allocation), old(depth)) && r == Equal(a, b)
      ensures old(Covers(EqualNeed(a, b, probe))) && Keyed(a, fold) && Keyed(b, fold) ==>
        ok && Took(old(fuel), old(allocation), EqualNeed(a, b, probe))
      decreases fuel, 1
    {
      hide Equal, Wf, Keyed, WispMeters.EqualInner;
      ok := Enter();
      if !ok { return false, false; }
      ok, r := EqualInner(a, b);
      if !ok { return false, false; }
      Leave();
    }

    method EqualInner(a: Value, b: Value) returns (ok: bool, r: bool)
      requires Valid() && Wf(a) && Wf(b)
      modifies this
      ensures ok ==> Within(old(fuel), old(allocation), old(depth)) && r == Equal(a, b)
      ensures old(Covers(WispMeters.EqualInner(a, b, probe))) && Keyed(a, fold) && Keyed(b, fold) ==>
        ok && Took(old(fuel), old(allocation), WispMeters.EqualInner(a, b, probe))
      decreases fuel, 6
    {
      hide *;
      Untouched();
      InnerIs(a, b, probe);
      if Keyed(a, fold) { KeyedParts(a, fold); }
      if Keyed(b, fold) { KeyedParts(b, fold); }
      if a.Sequence? && b.Sequence? {
        ok, r := EqualSequences(a.list, a.items, b.list, b.items);
      } else if a.Set? && b.Set? {
        ok, r := EqualSets(a.items, b.items);
      } else if a.Map? && b.Map? {
        ok, r := EqualMaps(a.pairs, b.pairs);
      } else if a.Record? && b.Record? {
        ok, r := EqualRecords(a.name, a.data, b.name, b.data);
      } else if a.Text? && b.Text? {
        TextsCompare(a, b);
        if a.keyword != b.keyword { return true, false; }
        ok, r := SameBytes(a.bytes, b.bytes);
      } else {
        ok, r := true, EqualScalars(a, b);
      }
    }

    method EqualSequences(k: bool, xs: seq<Value>, l: bool, ys: seq<Value>) returns (ok: bool, r: bool)
      requires Valid() && Wf(Sequence(k, xs)) && Wf(Sequence(l, ys))
      modifies this
      ensures ok ==> Within(old(fuel), old(allocation), old(depth)) && r == Equal(Sequence(k, xs), Sequence(l, ys))
      ensures var n := Then(Then(ListNeed(k, |xs|), ListNeed(l, |ys|)), InTurn(EqualNeeds(xs, ys, probe)));
        old(Covers(n)) && AllKeyed(xs, fold) && AllKeyed(ys, fold) ==> ok && Took(old(fuel), old(allocation), n)
      decreases fuel, 5
    {
      hide Equal, EqualNeeds, AllKeyed, InTurn;
      SequencesCompare(k, xs, l, ys);
      ok := SeqValues(k, |xs|);
      if !ok { return false, false; }
      ok := SeqValues(l, |ys|);
      if !ok { return false, false; }
      if |xs| != |ys| { return true, false; }
      ok, r := EqualAll(xs, ys);
    }

    method EqualRecords(m: Bytes, xs: seq<Value>, n: Bytes, ys: seq<Value>) returns (ok: bool, r: bool)
      requires Valid() && Wf(Record(m, xs)) && Wf(Record(n, ys))
      modifies this
      ensures ok ==> Within(old(fuel), old(allocation), old(depth)) && r == Equal(Record(m, xs), Record(n, ys))
      ensures var n := Then(Ticks(|m|), InTurn(EqualNeeds(xs, ys, probe)));
        old(Covers(n)) && AllKeyed(xs, fold) && AllKeyed(ys, fold) ==> ok && Took(old(fuel), old(allocation), n)
      decreases fuel, 5
    {
      hide EqualNeeds, AllKeyed, InTurn;
      ok, r := SameBytes(m, n);
      if !ok || !r || |xs| != |ys| { return ok, false; }
      ok, r := EqualAll(xs, ys);
    }

    method EqualSets(xs: seq<Value>, ys: seq<Value>) returns (ok: bool, r: bool)
      requires Valid() && Wf(Set(xs)) && Wf(Set(ys))
      modifies this
      ensures ok ==> Within(old(fuel), old(allocation), old(depth)) && r == Equal(Set(xs), Set(ys))
      ensures var n := Then(Then(MapNeed(|xs|, 1), MapNeed(|ys|, 1)), InTurn(FindNeeds(xs, ys, probe)));
        old(Covers(n)) && AllHashed(xs, fold) && AllHashed(ys, fold) ==> ok && Took(old(fuel), old(allocation), n)
      decreases fuel, 5
    {
      hide Wf, Equal, HasItem, Hash, FindNeeds, InTurn;
      SetsCompare(xs, ys);
      SetItemsWf(xs);
      SetItemsWf(ys);
      ok := MapValues(|xs|, 1);
      if !ok { return false, false; }
      ok := MapValues(|ys|, 1);
      if !ok { return false, false; }
      if |xs| != |ys| { return true, false; }
      ok, r := AllFound(xs, ys);
    }

    method EqualMaps(ps: seq<Pair>, qs: seq<Pair>) returns (ok: bool, r: bool)
      requires Valid() && Wf(Map(ps)) && Wf(Map(qs))
      modifies this
      ensures ok ==> Within(old(fuel), old(allocation), old(depth)) && r == Equal(Map(ps), Map(qs))
      ensures var n := Then(Then(MapNeed(|ps|, 2), MapNeed(|qs|, 2)), InTurn(PairNeeds(ps, qs, probe)));
        old(Covers(n)) && PairsKeyed(ps, fold) && PairsKeyed(qs, fold) ==> ok && Took(old(fuel), old(allocation), n)
      decreases fuel, 5
    {
      hide Wf, Equal, HasPair, Hash, PairNeeds, PairsKeyed, InTurn;
      MapsCompare(ps, qs);
      ok := MapValues(|ps|, 2);
      if !ok { return false, false; }
      ok := MapValues(|qs|, 2);
      if !ok { return false, false; }
      if |ps| != |qs| { return true, false; }
      ok, r := AllPairsFound(ps, qs);
    }

    /** `seq_values` of a list or vector: a vector is copied out. */
    method SeqValues(list: bool, n: nat) returns (ok: bool)
      requires Valid()
      modifies this
      ensures ok ==> Within(old(fuel), old(allocation), old(depth))
      ensures old(Covers(ListNeed(list, n))) ==> ok && Took(old(fuel), old(allocation), ListNeed(list, n))
    {
      if list { return true; }
      ok := Allocate(n, 8);
    }

    /** `seq_values` of a map or set. */
    method MapValues(n: nat, width: nat) returns (ok: bool)
      requires Valid()
      modifies this
      ensures ok ==> Within(old(fuel), old(allocation), old(depth))
      ensures old(Covers(MapNeed(n, width))) ==> ok && Took(old(fuel), old(allocation), MapNeed(n, width))
    {
      ok := Allocate(n * width, 8);
      if !ok { return; }
      for i := 0 to n
        invariant Within(old(fuel), old(allocation), old(depth))
        invariant Took(old(fuel), old(allocation), Then(ArrayNeed(n * width, 8), Ticks(8 * i)))
      {
        ok := Tick(8);
        if !ok { return; }
      }
      ok := true;
    }

    method EqualAll(xs: seq<Value>, ys: seq<Value>) returns (ok: bool, r: bool)
      requires Valid() && |xs| == |ys| && forall i | 0 <= i < |xs| :: Wf(xs[i]) && Wf(ys[i])
      modifies this
      ensures ok ==> Within(old(fuel), old(allocation), old(depth))
      ensures ok ==> (r <==> forall i | 0 <= i < |xs| :: Equal(xs[i], ys[i]))
      ensures old(Covers(InTurn(EqualNeeds(xs, ys, probe)))) && AllKeyed(xs, fold) && AllKeyed(ys, fold) ==>
        ok && Took(old(fuel), old(allocation), InTurn(EqualNeeds(xs, ys, probe)))
      decreases fuel, 4
    {
      hide Equal, Wf, Keyed, EqualNeed, InTurn;
      ghost var needs := EqualNeeds(xs, ys, probe);
      ghost var enough := Covers(InTurn(needs)) && AllKeyed(xs, fold) && AllKeyed(ys, fold);
      NoneInTurn(needs);
      for i := 0 to |xs|
        invariant Within(old(fuel), old(allocation), old(depth))
        invariant enough ==> Took(old(fuel), old(allocation), InTurn(needs[..i]))
        invariant forall k | 0 <= k < i :: Equal(xs[k], ys[k])
      {
        PartOf(needs, i);
        ok, r := EqualValues(xs[i], ys[i]);
        if !ok || !r { return; }
      }
      assert needs[..|xs|] == needs;
      return true, true;
    }

    method AllFound(xs: seq<Value>, ys: seq<Value>) returns (ok: bool, r: bool)
      requires Valid() && (forall i | 0 <= i < |xs| :: Wf(xs[i])) && forall i | 0 <= i < |ys| :: Wf(ys[i])
      requires |xs| == |ys|
      modifies this
      ensures ok ==> Within(old(fuel), old(allocation), old(depth))
      ensures ok ==> (r <==> forall i | 0 <= i < |xs| :: HasItem(ys, xs[i]))
      ensures old(Covers(InTurn(FindNeeds(xs, ys, probe)))) && AllHashed(xs, fold) && AllHashed(ys, fold) ==>
        ok && Took(old(fuel), old(allocation), InTurn(FindNeeds(xs, ys, probe)))
      decreases fuel, 4
    {
      hide Equal, Wf, Hash, FindNeed, InTurn;
      ghost var needs := FindNeeds(xs, ys, probe);
      ghost var enough := Covers(InTurn(needs)) && AllHashed(xs, fold) && AllHashed(ys, fold);
      NoneInTurn(needs);
      for i := 0 to |xs|
        invariant Within(old(fuel), old(allocation), old(depth))
        invariant enough ==> Took(old(fuel), old(allocation), InTurn(needs[..i]))
        invariant forall k | 0 <= k < i :: HasItem(ys, xs[k])
      {
        PartOf(needs, i);
        var j;
        ok, j := Find(ys, xs[i]);
        if !ok { return false, false; }
        if j < 0 { return true, false; }
      }
      assert needs[..|xs|] == needs;
      return true, true;
    }

    method AllPairsFound(ps: seq<Pair>, qs: seq<Pair>) returns (ok: bool, r: bool)
      requires Valid() && Wf(Map(ps)) && Wf(Map(qs)) && |ps| == |qs|
      modifies this
      ensures ok ==> Within(old(fuel), old(allocation), old(depth))
      ensures ok ==> (r <==> forall i | 0 <= i < |ps| :: HasPair(qs, ps[i]))
      ensures old(Covers(InTurn(PairNeeds(ps, qs, probe)))) && PairsKeyed(ps, fold) && PairsKeyed(qs, fold) ==>
        ok && Took(old(fuel), old(allocation), InTurn(PairNeeds(ps, qs, probe)))
      decreases fuel, 4
    {
      hide Equal, Wf, PairsKeyed, HasPair, PairNeed, InTurn;
      ghost var needs := PairNeeds(ps, qs, probe);
      ghost var enough := Covers(InTurn(needs)) && PairsKeyed(ps, fold) && PairsKeyed(qs, fold);
      NoneInTurn(needs);
      for i := 0 to |ps|
        invariant Within(old(fuel), old(allocation), old(depth))
        invariant enough ==> Took(old(fuel), old(allocation), InTurn(needs[..i]))
        invariant forall k | 0 <= k < i :: HasPair(qs, ps[k])
      {
        PartOf(needs, i);
        ok, r := PairFound(ps, i, qs);
        if !ok || !r { return; }
      }
      assert needs[..|ps|] == needs;
      return true, true;
    }

    /** Whether the other map binds a key to an equal item: the key is looked for, and
        looked up, and the items are compared. */
    method PairFound(ps: seq<Pair>, i: nat, qs: seq<Pair>) returns (ok: bool, r: bool)
      requires Valid() && Wf(Map(ps)) && Wf(Map(qs)) && i < |ps|
      modifies this
      ensures ok ==> Within(old(fuel) - 1, old(allocation), old(depth)) && r == HasPair(qs, ps[i])
      ensures old(Covers(PairNeed(ps[i], qs, probe))) && PairsKeyed(ps, fold) && PairsKeyed(qs, fold) ==>
        ok && Took(old(fuel), old(allocation), PairNeed(ps[i], qs, probe))
      decreases fuel, 3
    {
      hide Equal, Wf, Hash, HasPair, Keyed, PairsKeyed, FindNeed, ItemNeed, EqualNeed;
      var p, keys := ps[i], KeysOf(qs);
      PairWf(ps, i);
      MapKeysWf(qs);
      if PairsKeyed(ps, fold) && PairsKeyed(qs, fold) {
        PairKeyed(ps, i, fold);
        forall j | 0 <= j < |qs| ensures Keyed(qs[j].item, fold) && AllHashed(keys, fold) { PairKeyed(qs, j, fold); }
      }
      var j;
      ok, j := Find(keys, p.key);
      if !ok { return false, false; }
      if j < 0 {
        NoKey(qs, p);
        return true, false;
      }
      ok, j := Find(keys, p.key);
      if !ok { return false, false; }
      assert keys[j] == qs[j].key;
      OneKey(qs, p, j);
      PairWf(qs, j);
      ItemNeedIs(p, qs, j, probe);
      ok, r := EqualValues(p.item, qs[j].item);
    }

    // ------------------------------------------------------------------- keys

    /** `key`: nothing that cannot be hashed is let through; what can be is, whenever the
        meters cover it. */
    method Key(v: Value) returns (ok: bool)
      requires Valid()
      modifies this
      ensures ok ==> Within(old(fuel) - 1, old(allocation), old(depth)) && Hash(v, fold).Some?
      ensures old(Covers(KeyNeed(v))) ==>
        if Hash(v, fold).Some? then ok && Took(old(fuel), old(allocation), KeyNeed(v)) else !ok && error == NO_HASH
      decreases fuel, 0
    {
      hide Hash, KeyInner;
      ok := Enter();
      if !ok { return; }
      ok := KeyParts(v);
      if !ok { return; }
      Leave();
      ok := true;
    }

    method KeyParts(v: Value) returns (ok: bool)
      requires Valid()
      modifies this
      ensures ok ==> Within(old(fuel), old(allocation), old(depth)) && Hash(v, fold).Some?
      ensures old(Covers(KeyInner(v))) ==>
        if Hash(v, fold).Some? then ok && Took(old(fuel), old(allocation), KeyInner(v)) else !ok && error == NO_HASH
      decreases fuel, 2
    {
      hide HashInOrder, KeyNeeds, KeyPairNeeds, InTurn, MixBytes, Fold, AddHash, Xor, FloatHash;
      match v {
        case Opaque(_) =>
          error := NO_HASH;
          return false;
        case Sequence(list, xs) =>
          OrderHashed(xs, 1, fold);
          ok := SeqValues(list, |xs|);
          if !ok { return; }
          ok := KeyAll(xs);
          if !ok { return; }
        case Set(xs) =>
          SetHashed(xs, fold);
          ok := MapValues(|xs|, 1);
          if !ok { return; }
          ok := KeyAll(xs);
          if !ok { return; }
        case Map(ps) =>
          MapHashed(ps, fold);
          ok := MapValues(|ps|, 2);
          if !ok { return; }
          ok := KeyPairs(ps);
          if !ok { return; }
        case Record(name, xs) =>
          OrderHashed(xs, MixBytes(13, name), fold);
          ok := KeyAll(xs);
          if !ok { return; }
        case _ =>
      }
      ok := true;
    }

    method KeyAll(xs: seq<Value>) returns (ok: bool)
      requires Valid()
      modifies this
      ensures ok ==> Within(old(fuel), old(allocation), old(depth)) && AllHashed(xs, fold)
      ensures old(Covers(InTurn(KeyNeeds(xs)))) ==>
        if AllHashed(xs, fold) then ok && Took(old(fuel), old(allocation), InTurn(KeyNeeds(xs)))
        else !ok && error == NO_HASH
      decreases fuel, 1
    {
      hide Hash, KeyNeed, InTurn;
      ghost var needs := KeyNeeds(xs);
      NoneInTurn(needs);
      for i := 0 to |xs|
        invariant Within(old(fuel), old(allocation), old(depth)) && forall k | 0 <= k < i :: Hash(xs[k], fold).Some?
        invariant old(Covers(InTurn(needs))) ==> Took(old(fuel), old(allocation), InTurn(needs[..i]))
      {
        PartOf(needs, i);
        ok := Key(xs[i]);
        if !ok { return; }
      }
      assert needs[..|xs|] == needs;
      ok := true;
    }

    method KeyPairs(ps: seq<Pair>) returns (ok: bool)
      requires Valid()
      modifies this
      ensures ok ==> Within(old(fuel), old(allocation), old(depth)) && PairsHashed(ps, fold)
      ensures old(Covers(InTurn(KeyPairNeeds(ps)))) ==>
        if PairsHashed(ps, fold) then ok && Took(old(fuel), old(allocation), InTurn(KeyPairNeeds(ps)))
        else !ok && error == NO_HASH
      decreases fuel, 1
    {
      hide Hash, KeyNeed, InTurn;
      ghost var needs := KeyPairNeeds(ps);
      NoneInTurn(needs);
      for i := 0 to |ps|
        invariant Within(old(fuel), old(allocation), old(depth))
        invariant forall k | 0 <= k < i :: Hash(ps[k].key, fold).Some? && Hash(ps[k].item, fold).Some?
        invariant old(Covers(InTurn(needs))) ==> Took(old(fuel), old(allocation), InTurn(needs[..i]))
      {
        PartOf(needs, i);
        ok := Key(ps[i].key);
        if !ok { return; }
        ok := Key(ps[i].item);
        if !ok { return; }
      }
      assert needs[..|ps|] == needs;
      ok := true;
    }

    /** `find`: where a key equal to `k` is, or -1. */
    method Find(keys: seq<Value>, k: Value) returns (ok: bool, i: int)
      requires Valid() && Wf(k) && forall i | 0 <= i < |keys| :: Wf(keys[i])
      modifies this
      ensures ok ==> Within(old(fuel) - 1, old(allocation), old(depth)) && Hash(k, fold).Some?
      ensures ok ==> -1 <= i < |keys|
      ensures ok && i >= 0 ==> Equal(keys[i], k)
      ensures ok && i < 0 ==> forall j | 0 <= j < |keys| :: !Equal(keys[j], k)
      ensures old(Covers(FindNeed(keys, k, probe))) && AllHashed(keys, fold) ==>
        if Hash(k, fold).Some? then ok && Took(old(fuel), old(allocation), FindNeed(keys, k, probe))
        else !ok && error == NO_HASH
      decreases fuel, 2
    {
      hide Equal, Wf, Hash, Keyed, KeyNeed, HashNeed, ProbeNeeds, InTurn;
      ok := Key(k);
      if !ok { return false, -1; }
      ok := Allocate(1, 16);
      if !ok { return false, -1; }
      ok := Tick(8);
      if !ok { return false, -1; }
      var h;
      ok, h := HashValue(k);
      if !ok { return false, -1; }
      var found := probe(keys, k);
      assert LeadsTo(found, keys, k);
      ok, i := Search(keys, k, found);
    }

    /** The keys that the trie leads to, compared one after another. */
    method Search(keys: seq<Value>, k: Value, found: seq<nat>) returns (ok: bool, i: int)
      requires Valid() && Wf(k) && (forall i | 0 <= i < |keys| :: Wf(keys[i])) && Hash(k, fold).Some?
      requires found == probe(keys, k) && LeadsTo(found, keys, k)
      modifies this
      ensures ok ==> Within(old(fuel), old(allocation), old(depth))
      ensures ok ==> -1 <= i < |keys|
      ensures ok && i >= 0 ==> Equal(keys[i], k)
      ensures ok && i < 0 ==> forall j | 0 <= j < |keys| :: !Equal(keys[j], k)
      ensures old(Covers(InTurn(ProbeNeeds(keys, k, probe)))) && AllHashed(keys, fold) ==>
        ok && Took(old(fuel), old(allocation), InTurn(ProbeNeeds(keys, k, probe)))
      decreases fuel, 2
    {
      hide Equal, Wf, Hash, Keyed, EqualNeed, InTurn;
      ghost var needs := ProbeNeeds(keys, k, probe);
      ghost var enough := Covers(InTurn(needs)) && AllHashed(keys, fold);
      HashedIsKeyed(k, fold);
      NoneInTurn(needs);
      for n := 0 to |found|
        invariant Within(old(fuel), old(allocation), old(depth))
        invariant enough ==> Took(old(fuel), old(allocation), InTurn(needs[..n]))
        invariant forall m | 0 <= m < n && found[m] < |keys| :: !Equal(keys[found[m]], k)
      {
        assert found[n] in found;
        PartOf(needs, n);
        if enough { HashedIsKeyed(keys[found[n]], fold); }
        var same;
        ok, same := EqualValues(keys[found[n]], k);
        if !ok { return false, -1; }
        if same { return true, found[n]; }
      }
      assert needs[..|found|] == needs;
      return true, -1;
    }

    // ------------------------------------------------------------------ hashing

    /** `hash`: what returns is the hash, and what has none does not return; what has one
        does, whenever the meters cover it. */
    method HashValue(v: Value) returns (ok: bool, h: nat)
      requires Valid()
      modifies this
      ensures ok ==> Within(old(fuel) - 1, old(allocation), old(depth)) && Hash(v, fold) == Some(h)
      ensures old(Covers(HashNeed(v))) ==>
        if Hash(v, fold).Some? then ok && Took(old(fuel), old(allocation), HashNeed(v)) else !ok && error == NO_HASH
      decreases fuel, 0
    {
      hide Hash, WispMeters.HashInner;
      h := 0;
      ok := Enter();
      if !ok { return; }
      ok, h := HashInner(v);
      if !ok { return; }
      Leave();
    }

    method HashInner(v: Value) returns (ok: bool, h: nat)
      requires Valid()
      modifies this
      ensures ok ==> Within(old(fuel), old(allocation), old(depth)) && Hash(v, fold) == Some(h)
      ensures old(Covers(WispMeters.HashInner(v))) ==>
        if Hash(v, fold).Some? then ok && Took(old(fuel), old(allocation), WispMeters.HashInner(v))
        else !ok && error == NO_HASH
      decreases fuel, 2
    {
      hide HashInOrder, HashNeeds, HashPairNeeds, InTurn, MixBytes, Fold, AddHash, Xor, FloatHash;
      h := 0;
      match v
      case Nil => return true, 0;
      case Opaque(_) =>
        error := NO_HASH;
        return false, 0;
      case Int(n) => return true, fold(n);
      case Double(x) => return true, FloatHash(x, fold);
      case Bool(b) => return true, if b then 1231 else 1237;
      case Text(k, bytes) => ok, h := HashBytes(if k then 5 else 4, bytes);
      case Record(name, xs) =>
        OrderHashed(xs, MixBytes(13, name), fold);
        ok, h := HashBytes(13, name);
        if !ok { return; }
        ok, h := HashAll(xs, h);
      case Sequence(list, xs) =>
        OrderHashed(xs, 1, fold);
        ok := SeqValues(list, |xs|);
        if !ok { return; }
        ok, h := HashAll(xs, 1);
      case Set(xs) =>
        SetHashed(xs, fold);
        ok := MapValues(|xs|, 1);
        if !ok { return; }
        ok, h := HashSum(xs);
      case Map(ps) =>
        MapHashed(ps, fold);
        ok := MapValues(|ps|, 2);
        if !ok { return; }
        ok, h := HashPairSum(ps);
    }

    method HashBytes(start: nat, bytes: Bytes) returns (ok: bool, h: nat)
      requires Valid()
      modifies this
      ensures ok ==> Within(old(fuel), old(allocation), old(depth)) && h == MixBytes(start, bytes)
      ensures old(Covers(Ticks(|bytes|))) ==> ok && Took(old(fuel), old(allocation), Ticks(|bytes|))
    {
      h := start;
      assert bytes[0..] == bytes;
      for i := 0 to |bytes|
        invariant Within(old(fuel), old(allocation), old(depth)) && MixBytes(start, bytes) == MixBytes(h, bytes[i..])
        invariant Took(old(fuel), old(allocation), Ticks(i))
      {
        ok := Tick(1);
        if !ok { return; }
        assert bytes[i..][0] == bytes[i] && bytes[i..][1..] == bytes[i + 1..];
        h := Mix(h, bytes[i]);
      }
      assert bytes[|bytes|..] == [];
      ok := true;
    }

    method HashAll(xs: seq<Value>, start: nat) returns (ok: bool, h: nat)
      requires Valid()
      modifies this
      ensures ok ==> Within(old(fuel), old(allocation), old(depth)) && HashInOrder(xs, start, fold) == Some(h)
      ensures old(Covers(InTurn(HashNeeds(xs)))) ==>
        if AllHashed(xs, fold) then ok && Took(old(fuel), old(allocation), InTurn(HashNeeds(xs)))
        else !ok && error == NO_HASH
      decreases fuel, 1
    {
      hide Hash, HashNeed, InTurn;
      h := start;
      ghost var needs := HashNeeds(xs);
      NoneInTurn(needs);
      assert xs[0..] == xs;
      for i := 0 to |xs|
        invariant Within(old(fuel), old(allocation), old(depth))
        invariant HashInOrder(xs, start, fold) == HashInOrder(xs[i..], h, fold)
        invariant forall k | 0 <= k < i :: Hash(xs[k], fold).Some?
        invariant old(Covers(InTurn(needs))) ==> Took(old(fuel), old(allocation), InTurn(needs[..i]))
      {
        PartOf(needs, i);
        var x;
        ok, x := HashValue(xs[i]);
        if !ok { return; }
        assert xs[i..][0] == xs[i] && xs[i..][1..] == xs[i + 1..];
        h := Mix(h, x);
      }
      assert xs[|xs|..] == [] && needs[..|xs|] == needs;
      ok := true;
    }

    method HashSum(xs: seq<Value>) returns (ok: bool, h: nat)
      requires Valid()
      modifies this
      ensures ok ==> Within(old(fuel), old(allocation), old(depth)) && Hash(Set(xs), fold) == Some(h)
      ensures old(Covers(InTurn(HashNeeds(xs)))) ==>
        if AllHashed(xs, fold) then ok && Took(old(fuel), old(allocation), InTurn(HashNeeds(xs)))
        else !ok && error == NO_HASH
      decreases fuel, 1
    {
      hide Hash, HashNeed, InTurn, Fold, AddHash;
      h := 12;
      ghost var f := (x: Value) => Hash(x, fold);
      ghost var needs := HashNeeds(xs);
      NoneInTurn(needs);
      SumStarts(Mapped(f, xs), 12);
      for i := 0 to |xs|
        invariant Within(old(fuel), old(allocation), old(depth))
        invariant AddHash(Some(12), Fold(AddHash, Some(0), Mapped(f, xs)[..i])) == Some(h)
        invariant forall k | 0 <= k < i :: Hash(xs[k], fold).Some?
        invariant old(Covers(InTurn(needs))) ==> Took(old(fuel), old(allocation), InTurn(needs[..i]))
      {
        PartOf(needs, i);
        var x;
        ok, x := HashValue(xs[i]);
        if !ok { return; }
        SumGrows(Mapped(f, xs), i, 12, h, x);
        h := (h + x) % WORD;
      }
      assert Mapped(f, xs)[..|xs|] == Mapped(f, xs) && needs[..|xs|] == needs;
      SetHashIs(xs, fold);
      ok := true;
    }

    method HashPairSum(ps: seq<Pair>) returns (ok: bool, h: nat)
      requires Valid()
      modifies this
      ensures ok ==> Within(old(fuel), old(allocation), old(depth)) && Hash(Map(ps), fold) == Some(h)
      ensures old(Covers(InTurn(HashPairNeeds(ps)))) ==>
        if PairsHashed(ps, fold) then ok && Took(old(fuel), old(allocation), InTurn(HashPairNeeds(ps)))
        else !ok && error == NO_HASH
      decreases fuel, 1
    {
      hide Hash, HashNeed, InTurn, Fold, AddHash, PairHash, Xor;
      h := 8;
      ghost var f := (p: Pair) => PairHash(Hash(p.key, fold), Hash(p.item, fold));
      ghost var needs := HashPairNeeds(ps);
      NoneInTurn(needs);
      SumStarts(Mapped(f, ps), 8);
      for i := 0 to |ps|
        invariant Within(old(fuel), old(allocation), old(depth))
        invariant AddHash(Some(8), Fold(AddHash, Some(0), Mapped(f, ps)[..i])) == Some(h)
        invariant forall k | 0 <= k < i :: Hash(ps[k].key, fold).Some? && Hash(ps[k].item, fold).Some?
        invariant old(Covers(InTurn(needs))) ==> Took(old(fuel), old(allocation), InTurn(needs[..i]))
      {
        PartOf(needs, i);
        var k, x;
        ok, k := HashValue(ps[i].key);
        if !ok { return; }
        ok, x := HashValue(ps[i].item);
        if !ok { return; }
        PairHashAt(ps, i, fold, k, x);
        SumGrows(Mapped(f, ps), i, 8, h, Xor(k, x));
        h := (h + Xor(k, x)) % WORD;
      }
      assert Mapped(f, ps)[..|ps|] == Mapped(f, ps) && needs[..|ps|] == needs;
      MapHashIs(ps, fold);
      ok := true;
    }
  }

  lemma NonNegative(a: int, b: nat)
    requires a >= 0
    ensures a * b >= 0
  {}

  /** A key has one place: its item is the one to compare. */
  lemma OneKey(qs: seq<Pair>, p: Pair, j: nat)
    requires Wf(Map(qs)) && Wf(p.key) && j < |qs| && Equal(qs[j].key, p.key)
    ensures PairHeight(qs[j]) <= TallestPair(qs)
    ensures HasPair(qs, p) <==> Equal(p.item, qs[j].item)
  {
    assert PairHeight(qs[j]) <= TallestPair(qs);
    if HasPair(qs, p) {
      var i :| 0 <= i < |qs| && PairHeight(qs[i]) <= TallestPair(qs) && Equal(qs[i].key, p.key)
        && Equal(p.item, qs[i].item);
      OnePlace(qs, i, j, p.key);
    }
  }

  lemma MapKeysWf(ps: seq<Pair>)
    requires Wf(Map(ps))
    ensures forall i | 0 <= i < |ps| :: Wf(KeysOf(ps)[i])
  {
    forall i | 0 <= i < |ps| ensures Wf(KeysOf(ps)[i]) { PairWf(ps, i); }
  }

  lemma NoKey(qs: seq<Pair>, p: Pair)
    requires forall j | 0 <= j < |qs| :: !Equal(KeysOf(qs)[j], p.key)
    ensures !HasPair(qs, p)
  {
    hide Equal;
    forall j | 0 <= j < |qs| ensures !Equal(qs[j].key, p.key) { assert KeysOf(qs)[j] == qs[j].key; }
  }

  lemma ItemNeedIs(p: Pair, qs: seq<Pair>, j: nat, probe: Probe)
    requires Wf(Map(qs)) && Wf(p.key) && j < |qs| && Equal(qs[j].key, p.key)
    ensures ItemNeed(p, qs, probe) == EqualNeed(p.item, qs[j].item, probe)
  {
    hide EqualNeed;
    forall i | 0 <= i < |qs| && Equal(qs[i].key, p.key) ensures i == j { OnePlace(qs, i, j, p.key); }
  }

  lemma OnePlace(qs: seq<Pair>, i: nat, j: nat, k: Value)
    requires Wf(Map(qs)) && Wf(k) && i < |qs| && j < |qs| && Equal(qs[i].key, k) && Equal(qs[j].key, k)
    ensures i == j
  {
    hide Wf, Equal;
    PairWf(qs, j);
    if i != j { KeysApart(qs, i, j); }
    Symmetric(qs[j].key, k);
    Transitive(qs[i].key, k, qs[j].key);
  }

  lemma KeysApart(qs: seq<Pair>, i: nat, j: nat)
    requires Wf(Map(qs)) && i < |qs| && j < |qs| && i != j
    ensures !Equal(qs[i].key, qs[j].key)
  {}

  lemma PairKeyed(ps: seq<Pair>, i: nat, f: FoldBits)
    requires PairsKeyed(ps, f) && i < |ps|
    ensures Hash(ps[i].key, f).Some? && Keyed(ps[i].item, f) && AllHashed(KeysOf(ps), f)
  {
    forall j | 0 <= j < |ps| ensures Hash(KeysOf(ps)[j], f).Some? { assert Hash(ps[j].key, f).Some?; }
  }

  /** Values without parts; values of different kinds are not equal. */
  function EqualScalars(a: Value, b: Value): (r: bool)
    requires !(a.Sequence? && b.Sequence?) && !(a.Set? && b.Set?) && !(a.Map? && b.Map?)
    requires !(a.Record? && b.Record?) && !(a.Text? && b.Text?)
    ensures r == Equal(a, b)
  {
    match a
    case Nil => b.Nil?
    case Int(x) => b.Int? && x == b.n
    case Double(x) => b.Double? && SameFloat(x, b.x)
    case Bool(x) => b.Bool? && x == b.b
    case Opaque(x) => b.Opaque? && x == b.id
    case _ => false
  }

  /** What a comparison may take, kind by kind. */
  lemma InnerIs(a: Value, b: Value, probe: Probe)
    ensures var n := WispMeters.EqualInner(a, b, probe);
      && (a.Sequence? && b.Sequence? ==>
           n == Then(Then(ListNeed(a.list, |a.items|), ListNeed(b.list, |b.items|)),
                     InTurn(EqualNeeds(a.items, b.items, probe))))
      && (a.Set? && b.Set? ==> n == Then(Then(MapNeed(|a.items|, 1), MapNeed(|b.items|, 1)),
                                        InTurn(FindNeeds(a.items, b.items, probe))))
      && (a.Map? && b.Map? ==> n == Then(Then(MapNeed(|a.pairs|, 2), MapNeed(|b.pairs|, 2)),
                                        InTurn(PairNeeds(a.pairs, b.pairs, probe))))
      && (a.Record? && b.Record? ==> n == Then(Ticks(|a.name|), InTurn(EqualNeeds(a.data, b.data, probe))))
      && (a.Text? && b.Text? ==> n == Ticks(|a.bytes|))
  {
    hide EqualNeeds, FindNeeds, PairNeeds, InTurn;
  }

  lemma KeyedParts(v: Value, f: FoldBits)
    requires Keyed(v, f)
    ensures v.Sequence? ==> AllKeyed(v.items, f)
    ensures v.Record? ==> AllKeyed(v.data, f)
    ensures v.Set? ==> AllHashed(v.items, f)
    ensures v.Map? ==> PairsKeyed(v.pairs, f)
  {}

  lemma SetsCompare(xs: seq<Value>, ys: seq<Value>)
    ensures Equal(Set(xs), Set(ys)) <==> |xs| == |ys| && forall i | 0 <= i < |xs| :: HasItem(ys, xs[i])
  {}

  lemma SetItemsWf(xs: seq<Value>)
    requires Wf(Set(xs))
    ensures forall i | 0 <= i < |xs| :: Wf(xs[i])
  {}

  lemma TextsCompare(a: Value, b: Value)
    requires a.Text? && b.Text?
    ensures Equal(a, b) <==> a.keyword == b.keyword && a.bytes == b.bytes
  {}

  lemma SequencesCompare(k: bool, xs: seq<Value>, l: bool, ys: seq<Value>)
    ensures Equal(Sequence(k, xs), Sequence(l, ys)) <==>
      |xs| == |ys| && forall i | 0 <= i < |xs| :: Equal(xs[i], ys[i])
  {}

  lemma MapsCompare(ps: seq<Pair>, qs: seq<Pair>)
    ensures Equal(Map(ps), Map(qs)) <==> |ps| == |qs| && forall i | 0 <= i < |ps| :: HasPair(qs, ps[i])
  {}

  lemma SumStarts(hs: seq<Option<nat>>, tag: nat)
    requires tag < WORD
    ensures AddHash(Some(tag), Fold(AddHash, Some(0), hs[..0])) == Some(tag)
  {
    assert hs[..0] == [];
  }

  lemma PairHashAt(ps: seq<Pair>, i: nat, f: FoldBits, k: nat, x: nat)
    requires i < |ps| && Hash(ps[i].key, f) == Some(k) && Hash(ps[i].item, f) == Some(x)
    ensures Mapped((p: Pair) => PairHash(Hash(p.key, f), Hash(p.item, f)), ps)[i] == Some(Xor(k, x))
  {
    hide Hash, Xor;
  }

  lemma SumGrows(hs: seq<Option<nat>>, i: nat, tag: nat, h: nat, x: nat)
    requires i < |hs| && hs[i] == Some(x)
    requires AddHash(Some(tag), Fold(AddHash, Some(0), hs[..i])) == Some(h)
    ensures AddHash(Some(tag), Fold(AddHash, Some(0), hs[..i + 1])) == Some((h + x) % WORD)
  {
    assert hs[..i + 1][..i] == hs[..i];
    var s := Fold(AddHash, Some(0), hs[..i]).value;
    AddWords(tag, s, x);
  }

  lemma AddWords(tag: nat, s: nat, x: nat)
    ensures (tag + (s + x) % WORD) % WORD == ((tag + s) % WORD + x) % WORD
  {
    assert (s + x) % WORD == s + x - WORD * ((s + x) / WORD);
    assert (tag + s) % WORD == tag + s - WORD * ((tag + s) / WORD);
  }
}
