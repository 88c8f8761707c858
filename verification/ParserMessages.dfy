// The table of syntax messages: how it is filled, keyed by suffixes of parser
// stacks, and when looking a recorded stack up finds the message recorded with it.
module ParserMessages {
  import opened Outcomes

  /** A message with the signature it was recorded with. */
  datatype Message = Message(signature: string, text: string, subject: string, opener: string)

  datatype Item = Item(stack: seq<nat>, message: Message)

  datatype Entry = Msg(message: Message) | Deeper

  /** A key lists states as the stack does, the top frame last. */
  type Key = seq<nat>
  type Table = map<Key, Entry>

  /** `key_of`: the whole stack, when it is no deeper than that. */
  function KeyOf(stack: seq<nat>, depth: nat): Key
    requires depth > 0
  {
    if depth >= |stack| then stack else stack[|stack| - depth..]
  }

  predicate EndsWith(stack: seq<nat>, key: Key) {
    |key| <= |stack| && stack[|stack| - |key|..] == key
  }

  // ---------------------------------------------------------------- filling it

  /** The keys of the items in the order they first appear. */
  function KeysOf(items: seq<Item>, depth: nat): seq<Key>
    requires depth > 0
  {
    if items == [] then []
    else
      var last := |items| - 1;
      var keys := KeysOf(items[..last], depth);
      var key := KeyOf(items[last].stack, depth);
      if key in keys then keys else keys + [key]
  }

  /** The items of a key, in order. */
  function Group(items: seq<Item>, key: Key, depth: nat): seq<Item>
    requires depth > 0
  {
    if items == [] then []
    else
      var last := |items| - 1;
      Group(items[..last], key, depth) + if KeyOf(items[last].stack, depth) == key then [items[last]] else []
  }

  /** All the items carry the same message. */
  predicate Unanimous(items: seq<Item>) {
    forall a, b | a in items && b in items :: a.message == b.message
  }

  predicate SomeLonger(items: seq<Item>, depth: nat) {
    exists a :: a in items && |a.stack| > depth
  }

  function Longest(items: seq<Item>): (n: nat)
    ensures forall a | a in items :: |a.stack| <= n
    ensures items != [] ==> exists a :: a in items && |a.stack| == n
  {
    if items == [] then 0
    else
      var last := |items| - 1;
      var n, m := Longest(items[..last]), |items[last].stack|;
      assert forall a | a in items :: a == items[last] || a in items[..last];
      if m > n || last == 0 then
        assert items[last] in items;
        m
      else n
  }

  lemma {:induction false} GroupIs(items: seq<Item>, key: Key, depth: nat)
    requires depth > 0
    ensures forall a :: a in Group(items, key, depth) <==> a in items && KeyOf(a.stack, depth) == key
  {
    if items != [] {
      var last := |items| - 1;
      GroupIs(items[..last], key, depth);
      assert forall a :: a in items <==> a in items[..last] || a == items[last];
    }
  }

  /** There is a key exactly when some item has it. */
  lemma {:induction false} KeyHasItems(items: seq<Item>, key: Key, depth: nat)
    requires depth > 0
    ensures key in KeysOf(items, depth) <==> Group(items, key, depth) != []
  {
    if items != [] { KeyHasItems(items[..|items| - 1], key, depth); }
  }

  lemma {:induction false} KeysDistinct(items: seq<Item>, depth: nat)
    requires depth > 0
    ensures forall i, j | 0 <= i < j < |KeysOf(items, depth)| :: KeysOf(items, depth)[i] != KeysOf(items, depth)[j]
  {
    if items != [] { KeysDistinct(items[..|items| - 1], depth); }
  }

  /** `build`: what it makes of the table it is given. */
  function Build(items: seq<Item>, depth: nat, table: Table): Table
    requires depth > 0
    decreases Longest(items) - depth + 1, 1, 0
  {
    BuildKeys(KeysOf(items, depth), items, depth, table)
  }

  function BuildKeys(keys: seq<Key>, items: seq<Item>, depth: nat, table: Table): Table
    requires depth > 0
    decreases Longest(items) - depth + 1, 0, |keys|
  {
    if keys == [] then table
    else BuildKeys(keys[1..], items, depth, PlaceKey(keys[0], items, depth, table))
  }

  /** One key: a message, nothing, or a look one frame deeper. */
  function PlaceKey(key: Key, items: seq<Item>, depth: nat, table: Table): Table
    requires depth > 0
    decreases Longest(items) - depth + 1, 0, 0
  {
    var group := Group(items, key, depth);
    GroupIs(items, key, depth);
    if group == [] then table
    else if Unanimous(group) then table[key := Msg(group[0].message)]
    else if !SomeLonger(group, depth) then table
    else
      LongestPart(group, items);
      Build(group, depth + 1, table[key := Deeper])
  }

  lemma LongestPart(part: seq<Item>, items: seq<Item>)
    requires forall a | a in part :: a in items
    ensures Longest(part) <= Longest(items)
  {}

  // ------------------------------------------------------- what it comes to

  /** The recorded stacks that end with a key, and those that are it. */
  ghost function Ending(all: seq<Item>, key: Key): set<Item> { set a | a in all && EndsWith(a.stack, key) }
  ghost function Copies(all: seq<Item>, key: Key): set<Item> { set a | a in all && a.stack == key }

  ghost predicate Agree(items: set<Item>) {
    forall a, b | a in items && b in items :: a.message == b.message
  }

  /** The one message of items that agree. */
  ghost function MessageOf(items: set<Item>): Message
    requires items != {}
  {
    var a :| a in items;
    a.message
  }

  ghost function At(table: Table, key: Key): Option<Entry> { if key in table then Some(table[key]) else None }

  /** The entry of a key that the filling comes to, by the stacks that end with it. */
  ghost function EntryAt(all: seq<Item>, key: Key): Option<Entry> {
    var ending, copies := Ending(all, key), Copies(all, key);
    if ending == {} then None
    else if Agree(ending) then Some(Msg(MessageOf(ending)))
    else if ending == copies then None
    else if copies != {} && Agree(copies) then Some(Msg(MessageOf(copies)))
    else Some(Deeper)
  }

  /** The entry of `z` that is filled in when the filling has come to `key`, its suffix. */
  ghost function EntryFrom(all: seq<Item>, key: Key, z: Key): Option<Entry>
    requires EndsWith(z, key)
    decreases |z| - |key|
  {
    if |z| == |key| then EntryAt(all, key)
    else if Agree(Ending(all, key)) then None
    else EntryFrom(all, z[|z| - |key| - 1..], z)
  }

  /** `items` are the recorded stacks that end with `x`. */
  ghost predicate IsEnding(items: seq<Item>, all: seq<Item>, x: Key) {
    forall a :: a in items <==> a in Ending(all, x)
  }

  /** The keys of the stacks that end with `x`, one frame deeper. */
  lemma KeyOfEnding(stack: seq<nat>, x: Key, key: Key)
    requires EndsWith(stack, x)
    ensures KeyOf(stack, |x| + 1) == x <==> stack == x
    ensures |key| == |x| + 1 ==> (KeyOf(stack, |x| + 1) == key <==> EndsWith(stack, key))
    ensures var k := KeyOf(stack, |x| + 1); k == x || (|k| == |x| + 1 && EndsWith(k, x))
  {
    if |stack| <= |x| + 1 { assert stack[0..] == stack; }
    if |stack| > |x| {
      var k := stack[|stack| - |x| - 1..];
      assert k[1..] == stack[|stack| - |x|..];
    }
  }

  lemma EndsWithSelf(key: Key)
    ensures EndsWith(key, key)
  {
    assert key[0..] == key;
  }

  /** One frame deeper below `x` there are the stacks that are `x`, and those that
      end with a longer key. */
  lemma KeyBelow(items: seq<Item>, all: seq<Item>, x: Key, key: Key)
    requires IsEnding(items, all, x) && key in KeysOf(items, |x| + 1)
    ensures key == x || (|key| == |x| + 1 && EndsWith(key, x))
    ensures key == x ==> forall a :: a in Group(items, key, |x| + 1) <==> a in Copies(all, x)
    ensures key != x ==> forall a :: a in Group(items, key, |x| + 1) <==> a in Ending(all, key)
    ensures Group(items, key, |x| + 1) != []
  {
    hide KeysOf, Group, KeyOf, EndsWith;
    var d := |x| + 1;
    KeyHasItems(items, key, d);
    GroupIs(items, key, d);
    var g := Group(items, key, d);
    var a := g[0];
    assert a in g && a in Ending(all, x);
    KeyOfEnding(a.stack, x, key);
    forall b ensures b in g <==> if key == x then b in Copies(all, x) else b in Ending(all, key) {
      if EndsWith(b.stack, x) { KeyOfEnding(b.stack, x, key); }
      if b.stack == x { EndsWithSelf(x); }
      if key != x && EndsWith(b.stack, key) { EndsWithin(b.stack, key, x); }
    }
  }

  /** `z` belongs below `key`, a key one frame deeper than `x`. */
  ghost predicate Below(z: Key, key: Key, x: Key) {
    if key == x then z == x else EndsWith(z, key)
  }

  ghost function Filled(all: seq<Item>, key: Key, x: Key, z: Key, before: Option<Entry>): Option<Entry>
    requires Below(z, key, x)
  {
    if key == x then (if Agree(Copies(all, x))
        && Copies(all, x) != {} then Some(Msg(MessageOf(Copies(all, x)))) else before)
    else EntryFrom(all, key, z)
  }

  ghost predicate Clear(table: Table, key: Key) {
    forall z | z in table :: !EndsWith(z, key)
  }

  /** One key fills in what is below it, and nothing else. */
  lemma {:induction false} PlaceKeyFills(key: Key, items: seq<Item>, all: seq<Item>, x: Key, table: Table, z: Key)
    requires IsEnding(items, all, x) && key in KeysOf(items, |x| + 1)
    requires key != x ==> Clear(table, key)
    ensures At(PlaceKey(key, items, |x| + 1, table), z) ==
      if Below(z, key, x) then Filled(all, key, x, z, At(table, z)) else At(table, z)
    decreases Longest(items) - |x|, 0, 0
  {
    hide KeysOf, Group, EndsWith, Longest, Build, KeyOf;
    var group := Group(items, key, |x| + 1);
    KeyBelow(items, all, x, key);
    if key == x {
      CopiesGroup(group, all, x);
    } else {
      EndingGroup(group, all, key);
      EndsWithSelf(key);
      if Unanimous(group) {
        EntryBelowAgreed(all, key, z);
      } else if !SomeLonger(group, |x| + 1) {
        EntryBelowShort(all, key, z);
      } else {
        GroupIs(items, key, |x| + 1);
        LongestPart(group, items);
        var t := table[key := Deeper];
        ClearBelow(group, all, key, table, t);
        BuildFills(group, all, key, t, z);
        LevelIsEntry(group, all, key, z, table, t);
      }
    }
  }

  /** Below a key that stacks disagree about, and longer ones end with, a level deeper
      fills in what the key's own entry leads to. */
  lemma LevelIsEntry(group: seq<Item>, all: seq<Item>, key: Key, z: Key, table: Table, t: Table)
    requires Clear(table, key) && t == table[key := Deeper]
    requires !Agree(Ending(all, key)) && Ending(all, key) != Copies(all, key)
    ensures LevelEntry(group, all, key, z, At(t, z)) == if EndsWith(z, key) then EntryFrom(all, key, z)
      else At(table, z)
  {
    hide EndsWith;
    EndsWithSelf(key);
    if EndsWith(z, key) && z != key {
      NextBelow(z, key);
      var next := z[|z| - |key| - 1..];
      assert EntryFrom(all, key, z) == EntryFrom(all, next, z);
      assert z !in table;
      if Ending(all, next) == {} { EntryOfNone(all, next, z); }
    }
  }

  /** What is put at a key does not stand in the way of what goes below it. */
  lemma ClearBelow(group: seq<Item>, all: seq<Item>, key: Key, table: Table, t: Table)
    requires Clear(table, key) && IsEnding(group, all, key) && t == table[key := Deeper]
    ensures forall k | k in KeysOf(group, |key| + 1) && k != key :: Clear(t, k)
  {
    hide KeysOf, Group;
    forall k | k in KeysOf(group, |key| + 1) && k != key ensures Clear(t, k) {
      KeyBelow(group, all, key, k);
      forall w | w in t ensures !EndsWith(w, k) {
        if EndsWith(w, k) { EndsWithin(w, k, key); }
      }
    }
  }

  lemma EndsWithin(w: Key, k: Key, x: Key)
    requires EndsWith(w, k) && EndsWith(k, x)
    ensures EndsWith(w, x)
  {
    assert w[|w| - |k|..][|k| - |x|..] == w[|w| - |x|..];
  }

  lemma NextBelow(z: Key, key: Key)
    requires EndsWith(z, key) && z != key
    ensures |z| > |key| && EndsWith(z, z[|z| - |key| - 1..]) && EndsWith(z[|z| - |key| - 1..], key)
    ensures forall k | |k| == |key| + 1 && EndsWith(z, k) :: z[|z| - |key| - 1..] == k
  {
    assert z[0..] == z;
    assert z[|z| - |key| - 1..][1..] == z[|z| - |key|..];
  }

  lemma CopiesGroup(group: seq<Item>, all: seq<Item>, x: Key)
    requires group != [] && forall a :: a in group <==> a in Copies(all, x)
    ensures Copies(all, x) != {} && (Unanimous(group) <==> Agree(Copies(all, x))) && !SomeLonger(group, |x| + 1)
    ensures Unanimous(group) ==> group[0].message == MessageOf(Copies(all, x))
  {
    assert group[0] in Copies(all, x);
  }

  lemma EndingGroup(group: seq<Item>, all: seq<Item>, key: Key)
    requires group != [] && forall a :: a in group <==> a in Ending(all, key)
    ensures Ending(all, key) != {} && (Unanimous(group) <==> Agree(Ending(all, key)))
    ensures Unanimous(group) ==> group[0].message == MessageOf(Ending(all, key))
    ensures SomeLonger(group, |key|) <==> Ending(all, key) != Copies(all, key)
  {
    assert group[0] in Ending(all, key);
    forall a | a in Copies(all, key) ensures a in Ending(all, key) { assert a.stack[0..] == a.stack; }
    if SomeLonger(group, |key|) {
      var a :| a in group && |a.stack| > |key|;
      assert a in Ending(all, key) && a !in Copies(all, key);
    } else {
      forall a | a in Ending(all, key) ensures a in Copies(all, key) {
        assert a in group;
        assert a.stack[0..] == a.stack;
      }
    }
  }

  /** Below a key whose stacks agree, nothing is filled in. */
  lemma EntryBelowAgreed(all: seq<Item>, key: Key, z: Key)
    requires Agree(Ending(all, key))
    ensures EndsWith(z, key) && z != key ==> EntryFrom(all, key, z) == None
  {
    if EndsWith(z, key) && z != key { NextBelow(z, key); }
  }

  /** Nor below one that no longer stack ends with. */
  lemma {:induction false} EntryBelowShort(all: seq<Item>, key: Key, z: Key)
    requires Ending(all, key) == Copies(all, key)
    ensures EndsWith(z, key) && z != key ==> EntryFrom(all, key, z) == None
  {
    if EndsWith(z, key) && z != key {
      NextBelow(z, key);
      var next := z[|z| - |key| - 1..];
      forall a | a in all ensures !EndsWith(a.stack, next) {
        assert EndsWith(a.stack, key) <==> a in Ending(all, key);
        if EndsWith(a.stack, next) { EndsWithin(a.stack, next, key); }
      }
      assert Ending(all, next) == {};
      EntryOfNone(all, next, z);
    }
  }

  lemma {:induction false} EntryOfNone(all: seq<Item>, key: Key, z: Key)
    requires Ending(all, key) == {} && EndsWith(z, key)
    ensures EntryFrom(all, key, z) == None
  {}

  /** A whole level fills in what is below `x`. */
  lemma {:induction false} BuildFills(items: seq<Item>, all: seq<Item>, x: Key, table: Table, z: Key)
    requires IsEnding(items, all, x)
    requires forall k | k in KeysOf(items, |x| + 1) && k != x :: Clear(table, k)
    ensures At(Build(items, |x| + 1, table), z) == LevelEntry(items, all, x, z, At(table, z))
    decreases Longest(items) - |x|, 1, 0
  {
    KeysDistinct(items, |x| + 1);
    BuildKeysFill(KeysOf(items, |x| + 1), items, all, x, table, z);
    LevelKeys(items, all, x, z);
  }

  /** The key one frame deeper than `x` that `z` belongs below. */
  ghost function NextKey(x: Key, z: Key): Key
  {
    if EndsWith(z, x) && |z| > |x| then z[|z| - |x| - 1..] else x
  }

  ghost function LevelEntry(items: seq<Item>, all: seq<Item>, x: Key, z: Key, before: Option<Entry>): Option<Entry> {
    if z == x then
      if Copies(all, x) != {} && Agree(Copies(all, x)) then Some(Msg(MessageOf(Copies(all, x)))) else before
    else if EndsWith(z, x) && |z| > |x| then
      if Ending(all, NextKey(x, z)) != {} then EntryFrom(all, NextKey(x, z), z) else before
    else before
  }

  /** Which keys there are one frame deeper. */
  lemma LevelKeys(items: seq<Item>, all: seq<Item>, x: Key, z: Key)
    requires IsEnding(items, all, x)
    ensures x in KeysOf(items, |x| + 1) <==> Copies(all, x) != {}
    ensures EndsWith(z, x) && |z| > |x| ==>
      (NextKey(x, z) in KeysOf(items, |x| + 1) <==> Ending(all, NextKey(x, z)) != {})
  {
    hide KeysOf, Group, KeyOf, EndsWith;
    LevelKey(items, all, x, x);
    if EndsWith(z, x) && |z| > |x| {
      var next := NextKey(x, z);
      if z == x { assert false; }
      NextBelow(z, x);
      LevelKey(items, all, x, next);
    }
  }

  lemma LevelKey(items: seq<Item>, all: seq<Item>, x: Key, key: Key)
    requires IsEnding(items, all, x) && (key == x || (|key| == |x| + 1 && EndsWith(key, x)))
    ensures key in KeysOf(items, |x| + 1) <==> (if key == x then Copies(all, x) != {} else Ending(all, key) != {})
  {
    hide KeysOf, Group, KeyOf, EndsWith;
    var d := |x| + 1;
    KeyHasItems(items, key, d);
    GroupIs(items, key, d);
    if key in KeysOf(items, d) {
      KeyBelow(items, all, x, key);
      var a := Group(items, key, d)[0];
      assert a in Group(items, key, d);
      assert if key == x then a in Copies(all, x) else a in Ending(all, key);
    } else {
      var found := if key == x then Copies(all, x) else Ending(all, key);
      forall a ensures a !in found {
        assert a in Group(items, key, d) <==> a in items && KeyOf(a.stack, d) == key;
        assert a in Ending(all, x) ==> a in items;
        EndsWithSelf(x);
        if EndsWith(a.stack, key) && key != x { EndsWithin(a.stack, key, x); }
        if EndsWith(a.stack, x) { KeyOfEnding(a.stack, x, key); }
      }
    }
  }

  lemma {:induction false} BuildKeysFill(keys: seq<Key>, items: seq<Item>, all: seq<Item>, x: Key, table: Table, z: Key)
    requires IsEnding(items, all, x)
    requires forall k | k in keys :: k in KeysOf(items, |x| + 1) && (k != x ==> Clear(table, k))
    requires forall i, j | 0 <= i < j < |keys| :: keys[i] != keys[j]
    ensures At(BuildKeys(keys, items, |x| + 1, table), z) ==
      if z == x then (if x in keys then Filled(all, x, x, x, At(table, z)) else At(table, z))
      else if EndsWith(z, x) && |z| > |x| && NextKey(x, z) in keys then EntryFrom(all, NextKey(x, z), z)
      else At(table, z)
    decreases Longest(items) - |x|, 0, 1 + |keys|
  {
    hide KeysOf, Group, KeyOf, EndsWith, PlaceKey, Longest;
    if keys != [] {
      var key, rest := keys[0], keys[1..];
      var t := PlaceKey(key, items, |x| + 1, table);
      assert key in keys;
      KeyBelow(items, all, x, key);
      PlaceKeyFills(key, items, all, x, table, z);
      forall k | k in rest && k != x ensures Clear(t, k) {
        assert k in keys && k != key;
        KeyBelow(items, all, x, k);
        forall w | w in t ensures !EndsWith(w, k) {
          PlaceKeyFills(key, items, all, x, table, w);
          assert Clear(table, k);
          NextBelowIs(w, x, k);
          NextBelowIs(w, x, key);
          if EndsWith(w, k) { EndsWithin(w, k, x); }
        }
      }
      BuildKeysFill(rest, items, all, x, t, z);
      if key != x && EndsWith(z, key) { EndsWithin(z, key, x); }
      NextBelowIs(z, x, key);
    }
  }

  lemma NextBelowIs(z: Key, x: Key, key: Key)
    ensures EndsWith(z, x) && |z| > |x| && |key| == |x| + 1 ==> (EndsWith(z, key) <==> key == NextKey(x, z))
    ensures EndsWith(z, key) ==> |z| >= |key|
  {}

  // ---------------------------------------------------------------- looking up

  function Fill(items: seq<Item>): Table { Build(items, 1, map[]) }

  /** What the walk through `Deeper` entries comes to, from some depth on. */
  function Found(table: Table, stack: seq<nat>, depth: nat): Option<Message>
    requires depth > 0
    decreases |stack| - depth
  {
    if depth > |stack| then None
    else
      var key := KeyOf(stack, depth);
      if key !in table then None
      else match table[key]
        case Msg(m) => Some(m)
        case Deeper => Found(table, stack, depth + 1)
  }

  ghost predicate NonEmpty(all: seq<Item>) { forall a | a in all :: |a.stack| > 0 }

  /** The message recorded with a stack, if the records of that stack agree on one. */
  ghost function Expected(all: seq<Item>, a: Item): Option<Message> {
    if Agree(Copies(all, a.stack)) then Some(a.message) else None
  }

  /** A stack whose records agree is the end of a longer one with another message. */
  ghost predicate Clash(all: seq<Item>) {
    exists s, u :: s in all && u in all && Clashing(all, s, u)
  }

  ghost predicate Clashing(all: seq<Item>, s: Item, u: Item) {
    EndsWith(u.stack, s.stack) && u.stack != s.stack && u.message != s.message && Agree(Copies(all, s.stack))
  }

  lemma SuffixFacts(stack: seq<nat>, d: nat)
    requires 0 < d <= |stack|
    ensures var w := KeyOf(stack, d);
      && |w| == d && EndsWith(stack, w)
      && (d == |stack| ==> w == stack)
      && (d < |stack| ==> EndsWith(KeyOf(stack, d + 1), w))
      && (forall z | |z| == d && EndsWith(stack, z) :: z == w)
  {
    assert stack[0..] == stack;
    if d < |stack| {
      var v := KeyOf(stack, d + 1);
      assert v[1..] == KeyOf(stack, d);
    }
  }

  /** The entries along a stack: as long as stacks disagree, each is what its own
      suffix says; after that there is none. */
  lemma {:induction false} EntryAlong(all: seq<Item>, stack: seq<nat>, j: nat, d: nat)
    requires 0 < j <= d <= |stack|
    requires forall i {:trigger KeyOf(stack, i)} | j <= i < d :: !Agree(Ending(all, KeyOf(stack, i)))
    ensures EndsWith(KeyOf(stack, d), KeyOf(stack, j))
    ensures EntryFrom(all, KeyOf(stack, j), KeyOf(stack, d)) == EntryAt(all, KeyOf(stack, d))
    decreases d - j
  {
    hide EntryAt, KeyOf, EndsWith;
    SuffixFacts(stack, j);
    SuffixFacts(stack, d);
    if j == d {
      EndsWithSelf(KeyOf(stack, d));
    } else {
      EntryAlong(all, stack, j + 1, d);
      SuffixFacts(stack, j + 1);
      var z, key := KeyOf(stack, d), KeyOf(stack, j);
      EndsWithin(z, KeyOf(stack, j + 1), key);
      NextBelow(z, key);
      assert z[|z| - |key| - 1..] == KeyOf(stack, j + 1);
    }
  }

  lemma NextAfterNothing(stack: seq<nat>, d: nat)
    requires 0 < d <= |stack|
    ensures NextKey([], KeyOf(stack, d)) == KeyOf(stack, 1) && EndsWith(KeyOf(stack, d), [])
  {
    assert KeyOf(stack, d)[d..] == [];
  }

  lemma EndingOfNothing(all: seq<Item>)
    ensures IsEnding(all, all, [])
  {
    forall a ensures a in all <==> a in Ending(all, []) { assert a.stack[|a.stack|..] == []; }
  }

  lemma {:induction false} EntryOf(all: seq<Item>, a: Item, d: nat)
    requires a in all && 0 < d <= |a.stack|
    requires forall i {:trigger KeyOf(a.stack, i)} | 0 < i < d :: !Agree(Ending(all, KeyOf(a.stack, i)))
    ensures At(Fill(all), KeyOf(a.stack, d)) == EntryAt(all, KeyOf(a.stack, d))
    ensures a in Ending(all, KeyOf(a.stack, d))
  {
    hide EntryAt, EntryFrom, Build, KeyOf, EndsWith, NextKey, KeysOf;
    var z, first := KeyOf(a.stack, d), KeyOf(a.stack, 1);
    SuffixFacts(a.stack, d);
    SuffixFacts(a.stack, 1);
    EntryAlong(all, a.stack, 1, d);
    EndingOfNothing(all);
    BuildFills(all, all, [], map[], z);
    NextAfterNothing(a.stack, d);
    assert a in Ending(all, first);
  }

  lemma FoundStep(table: Table, stack: seq<nat>, d: nat)
    requires 0 < d <= |stack|
    ensures Found(table, stack, d) ==
      match At(table, KeyOf(stack, d))
      case None => None
      case Some(Msg(m)) => Some(m)
      case Some(Deeper) => Found(table, stack, d + 1)
  {}

  /** From where the stacks still disagree, the walk finds what it should, if nothing
      clashes. */
  lemma {:induction false} WalkFinds(all: seq<Item>, a: Item, d: nat)
    requires a in all && NonEmpty(all) && !Clash(all) && 0 < d <= |a.stack| + 1
    requires forall i {:trigger KeyOf(a.stack, i)} | 0 < i < d :: !Agree(Ending(all, KeyOf(a.stack, i)))
    ensures Found(Fill(all), a.stack, d) == Expected(all, a)
    decreases |a.stack| - d + 1
  {
    hide Fill, Build, KeyOf, EndsWith, Clash, Found, Ending, Copies, Agree, EntryAt;
    if d == |a.stack| + 1 {
      SuffixFacts(a.stack, d - 1);
      assert !Agree(Ending(all, KeyOf(a.stack, d - 1)));
      WholeDisagrees(all, a);
      assert Found(Fill(all), a.stack, d) == None by { FoundNone(Fill(all), a.stack); }
    } else {
      var w := KeyOf(a.stack, d);
      EntryOf(all, a, d);
      FoundStep(Fill(all), a.stack, d);
      EntryMeans(all, a, d);
      if EntryAt(all, w) == Some(Deeper) { WalkFinds(all, a, d + 1); }
    }
  }

  lemma FoundNone(table: Table, stack: seq<nat>)
    ensures Found(table, stack, |stack| + 1) == None
  {}

  /** Unless it sends the walk deeper, the entry at a depth is what the stack should find. */
  lemma EntryMeans(all: seq<Item>, a: Item, d: nat)
    requires a in all && !Clash(all) && 0 < d <= |a.stack|
    ensures match EntryAt(all, KeyOf(a.stack, d))
      case None => Expected(all, a) == None
      case Some(Msg(m)) => Expected(all, a) == Some(m)
      case Some(Deeper) => !Agree(Ending(all, KeyOf(a.stack, d)))
  {
    hide KeyOf, EndsWith, Clash;
    var w := KeyOf(a.stack, d);
    SuffixFacts(a.stack, d);
    CopiesEnd(all, w);
    assert a in Ending(all, w);
    if Agree(Ending(all, w)) {
      forall b | b in Copies(all, a.stack) ensures b in Ending(all, w) {}
    } else if Ending(all, w) != Copies(all, w) {
      NoClashHere(all, w);
    } else {
      assert a.stack == w;
    }
  }

  lemma CopiesEnd(all: seq<Item>, key: Key)
    ensures Copies(all, key) <= Ending(all, key)
  {
    EndsWithSelf(key);
  }

  lemma WholeDisagrees(all: seq<Item>, a: Item)
    requires a in all && !Clash(all)
    requires !Agree(Ending(all, a.stack))
    ensures Expected(all, a) == None
  {
    if Agree(Copies(all, a.stack)) {
      EndsWithSelf(a.stack);
      var b, c :| b in Ending(all, a.stack) && c in Ending(all, a.stack) && b.message != c.message;
      var u := if b.message != a.message then b else c;
      assert a in Copies(all, a.stack) && (u.stack == a.stack ==> u in Copies(all, a.stack));
      assert Clashing(all, a, u);
    }
  }

  /** Where stacks disagree and none clashes, the stacks that are the key itself are
      none, or disagree. */
  lemma NoClashHere(all: seq<Item>, w: Key)
    requires !Clash(all) && !Agree(Ending(all, w))
    ensures Copies(all, w) == {} || !Agree(Copies(all, w))
  {
    if Copies(all, w) != {} && Agree(Copies(all, w)) {
      var s :| s in Copies(all, w);
      var b, c :| b in Ending(all, w) && c in Ending(all, w) && b.message != c.message;
      var u := if b.message != s.message then b else c;
      assert u.stack == w ==> u in Copies(all, w);
      assert Clashing(all, s, u);
    }
  }

  /** Where two stacks clash, one of them does not find what it should. */
  lemma {:induction false} ClashIsFound(all: seq<Item>, s: Item, u: Item, d: nat) returns (a: Item)
    requires s in all && u in all && Clashing(all, s, u) && 0 < d <= |s.stack|
    requires forall i {:trigger KeyOf(s.stack, i)} | 0 < i < d :: !Agree(Ending(all, KeyOf(s.stack, i)))
    requires Found(Fill(all), s.stack, 1) == Found(Fill(all), s.stack, d)
    requires Found(Fill(all), u.stack, 1) == Found(Fill(all), u.stack, d)
    ensures a in all && Found(Fill(all), a.stack, 1) != Expected(all, a)
    decreases |s.stack| - d
  {
    hide Fill, Build;
    var w := KeyOf(s.stack, d);
    forall i | 0 < i <= d ensures KeyOf(s.stack, i) == KeyOf(u.stack, i) {
      SuffixFacts(s.stack, i);
      SuffixFacts(u.stack, i);
      EndsWithin(u.stack, s.stack, KeyOf(s.stack, i));
    }
    assert |u.stack| > |s.stack| by { assert u.stack[0..] == u.stack; }
    SuffixFacts(s.stack, d);
    EntryOf(all, s, d);
    EntryOf(all, u, d);
    assert u !in Copies(all, w);
    if Copies(all, w) != {} && Agree(Copies(all, w)) {
      a := if MessageOf(Copies(all, w)) == s.message then u else s;
    } else {
      assert d == |s.stack| ==> s in Copies(all, w);
      a := ClashIsFound(all, s, u, d + 1);
    }
  }

  /** Every recorded stack finds its own message, or nothing where the records of that
      very stack disagree, if and only if no stack clashes with a longer one. */
  lemma {:induction false} FoundAsRecorded(all: seq<Item>)
    requires NonEmpty(all)
    ensures (forall a | a in all :: Found(Fill(all), a.stack, 1) == Expected(all, a)) <==> !Clash(all)
  {
    if Clash(all) {
      var s, u :| s in all && u in all && Clashing(all, s, u);
      var a := ClashIsFound(all, s, u, 1);
    } else {
      forall a | a in all ensures Found(Fill(all), a.stack, 1) == Expected(all, a) {
        WalkFinds(all, a, 1);
      }
    }
  }

  /** With no recorded stack at the end of another there is no clash. */
  lemma NoSuffixNoClash(all: seq<Item>)
    requires forall s, u | s in all && u in all && EndsWith(u.stack, s.stack) :: s.stack == u.stack
    ensures !Clash(all)
  {}

  /** `[1]`, `2 1` and `3 1` with three messages: the entry that sends the walk deeper
      is overwritten by the message of the shortest stack, which the others then find. */
  lemma ShortStackHidesLonger(m: Message, n: Message, o: Message)
    requires m != n && n != o && m != o
    ensures var all := [Item([1], m), Item([2, 1], n), Item([3, 1], o)];
      Clash(all) && exists a :: a in all && Found(Fill(all), a.stack, 1) != Expected(all, a)
  {
    hide Fill, Build;
    var s, u := Item([1], m), Item([2, 1], n);
    var all := [s, u, Item([3, 1], o)];
    assert s in all && u in all && Clashing(all, s, u);
    FoundAsRecorded(all);
  }

  // ------------------------------------------------------------ as they run

  method BuildTable(items: seq<Item>, depth: nat, table: Table) returns (out: Table)
    requires depth > 0
    ensures out == Build(items, depth, table)
    decreases Longest(items) - depth + 1, 1
  {
    hide PlaceKey, Longest, Unanimous, SomeLonger;
    var order: seq<Key>, groups: map<Key, seq<Item>> := [], map[];
    for i := 0 to |items|
      invariant order == KeysOf(items[..i], depth)
      invariant forall k :: k in groups <==> k in order
      invariant forall k | k in groups :: groups[k] == Group(items[..i], k, depth)
    {
      var key := KeyOf(items[i].stack, depth);
      assert items[..i + 1][..i] == items[..i];
      KeyHasItems(items[..i], key, depth);
      if key !in groups {
        order := order + [key];
        groups := groups[key := []];
      }
      groups := groups[key := groups[key] + [items[i]]];
    }
    assert items[..|items|] == items;
    out := table;
    assert order[0..] == order;
    for j := 0 to |order|
      invariant Build(items, depth, table) == BuildKeys(order[j..], items, depth, out)
    {
      assert order[j..][0] == order[j] && order[j..][1..] == order[j + 1..];
      assert order[j] in order;
      out := BuildKey(order[j], groups[order[j]], items, depth, out);
    }
    assert order[|order|..] == [];
  }

  method BuildKey(key: Key, group: seq<Item>, ghost items: seq<Item>, depth: nat, table: Table) returns (out: Table)
    requires depth > 0 && group == Group(items, key, depth) && key in KeysOf(items, depth)
    ensures out == PlaceKey(key, items, depth, table)
    decreases Longest(items) - depth + 1, 0
  {
    hide KeysOf, Group, Build, KeyOf, Longest;
    KeyHasItems(items, key, depth);
    GroupIs(items, key, depth);
    if Unanimous(group) { return table[key := Msg(group[0].message)]; }
    if !SomeLonger(group, depth) { return table; }
    LongestPart(group, items);
    out := BuildTable(group, depth + 1, table[key := Deeper]);
  }

  /** The emitted `lookup`: a message whose signature is the failure's own, or that
      fits it, at the depth where the walk ends. */
  method Lookup(table: Table, stack: seq<nat>, signature: string, fits: (string, string) -> bool, deepest: nat)
    returns (r: Option<Message>)
    requires forall k | k in table :: |k| <= deepest
    ensures r == match Found(table, stack, 1)
      case None => None
      case Some(m) => if m.signature == signature || fits(m.text, signature) then Some(m) else None
  {
    var depth := 1;
    while depth <= |stack| && depth <= deepest
      invariant 1 <= depth <= |stack| + 1
      invariant Found(table, stack, 1) == Found(table, stack, depth)
    {
      var key := KeyOf(stack, depth);
      if key !in table { return None; }
      match table[key] {
        case Msg(m) => return if m.signature == signature || fits(m.text, signature) then Some(m) else None;
        case Deeper =>
      }
      depth := depth + 1;
    }
    if depth <= |stack| {
      SuffixFacts(stack, depth);
    }
    return None;
  }

  /** Filling a table and looking a recorded stack up with its own signature. */
  method RoundTrip(all: seq<Item>, a: Item, fits: (string, string) -> bool) returns (r: Option<Message>)
    requires NonEmpty(all) && a in all && !Clash(all)
    ensures r == Expected(all, a)
  {
    var table := BuildTable(all, 1, map[]);
    FoundAsRecorded(all);
    var deepest := Longest(all);
    forall k | k in table ensures |k| <= deepest { KeysAreShort(all, k); }
    r := Lookup(table, a.stack, a.message.signature, fits, deepest);
  }

  lemma KeysAreShort(all: seq<Item>, k: Key)
    requires k in Fill(all)
    ensures |k| <= Longest(all)
  {
    hide Build, EndsWith;
    EndingOfNothing(all);
    BuildFills(all, all, [], map[], k);
    if k == [] {
    } else {
      EntryNeedsEnding(all, NextKey([], k), k);
    }
  }

  lemma {:induction false} EntryNeedsEnding(all: seq<Item>, key: Key, z: Key)
    requires EndsWith(z, key) && EntryFrom(all, key, z).Some?
    ensures Ending(all, z) != {} && |z| <= Longest(all)
    decreases |z| - |key|
  {
    if |z| == |key| {
      assert z[0..] == z;
      var a :| a in Ending(all, z);
    } else {
      EntryNeedsEnding(all, z[|z| - |key| - 1..], z);
    }
  }
}
