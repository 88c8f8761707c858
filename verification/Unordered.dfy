// Collections compared and hashed without regard to order: matching every element of
// one with an element of the other, and accumulating with operations that commute.
module Unordered {
  import opened Outcomes

  function Without<T>(s: seq<T>, i: nat): seq<T>
    requires i < |s|
  {
    s[..i] + s[i + 1..]
  }

  function Fold<T>(add: (T, T) -> T, zero: T, xs: seq<T>): T {
    if xs == [] then zero else add(Fold(add, zero, xs[..|xs| - 1]), xs[|xs| - 1])
  }

  /** Two steps of an accumulation can be taken in either order. */
  ghost predicate Commutes<T(!new)>(add: (T, T) -> T) {
    forall s, x, y :: add(add(s, x), y) == add(add(s, y), x)
  }

  function Mapped<A, T>(h: A -> T, xs: seq<A>): (r: seq<T>)
    ensures |r| == |xs| && forall i | 0 <= i < |xs| :: r[i] == h(xs[i])
  {
    seq(|xs|, i requires 0 <= i < |xs| => h(xs[i]))
  }

  /** Any element can be accumulated last. */
  lemma {:induction false} FoldWithout<T(!new)>(add: (T, T) -> T, zero: T, xs: seq<T>, i: nat)
    requires Commutes(add) && i < |xs|
    ensures Fold(add, zero, xs) == add(Fold(add, zero, Without(xs, i)), xs[i])
  {
    var last := |xs| - 1;
    if i == last {
      assert Without(xs, i) == xs[..last];
    } else {
      FoldWithout(add, zero, xs[..last], i);
      var rest := Without(xs, i);
      assert rest[|rest| - 1] == xs[last] && rest[..|rest| - 1] == Without(xs[..last], i);
    }
  }

  /** Every element of `a` has a partner in `b`, and no two have the same one. */
  ghost predicate Matched<A>(a: seq<A>, b: seq<A>, r: (A, A) -> bool) {
    && |a| == |b|
    && (forall i | 0 <= i < |a| :: Partnered(b, a[i], r))
    && (forall i, k, j | 0 <= i < |a| && 0 <= k < |a| && i != k && 0 <= j < |b| :: !(r(b[j], a[i]) && r(b[j], a[k])))
  }

  ghost predicate Partnered<A>(b: seq<A>, x: A, r: (A, A) -> bool) {
    exists j :: 0 <= j < |b| && r(b[j], x)
  }

  ghost predicate Sought<A>(a: seq<A>, y: A, r: (A, A) -> bool) {
    exists i :: 0 <= i < |a| && r(y, a[i])
  }

  ghost predicate SameHash<A, T>(a: seq<A>, b: seq<A>, r: (A, A) -> bool, h: A -> T) {
    forall i, j | 0 <= i < |a| && 0 <= j < |b| && r(b[j], a[i]) :: h(a[i]) == h(b[j])
  }

  /** Taking the last element of `a` away with its partner leaves the others matched. */
  lemma MatchedWithout<A>(a: seq<A>, b: seq<A>, r: (A, A) -> bool, m: nat)
    requires Matched(a, b, r) && a != [] && m < |b| && r(b[m], a[|a| - 1])
    ensures Matched(a[..|a| - 1], Without(b, m), r)
  {
    var last := |a| - 1;
    var a', b' := a[..last], Without(b, m);
    forall j | 0 <= j < |b'| ensures b'[j] == b[if j < m then j else j + 1] {}
    forall i | 0 <= i < |a'| ensures Partnered(b', a'[i], r) {
      assert Partnered(b, a[i], r);
      var j :| 0 <= j < |b| && r(b[j], a[i]);
      assert !r(b[m], a[i]);
      assert b'[if j < m then j else j - 1] == b[j];
    }
  }

  /** Then every element of `b` is the partner of one of `a`. */
  lemma {:induction false} AllSought<A>(a: seq<A>, b: seq<A>, r: (A, A) -> bool)
    requires Matched(a, b, r)
    ensures forall j | 0 <= j < |b| :: Sought(a, b[j], r)
    decreases |a|
  {
    hide Matched;
    if a != [] {
      var last := |a| - 1;
      var m := PartnerOf(a, b, r);
      var a', b' := a[..last], Without(b, m);
      MatchedWithout(a, b, r, m);
      AllSought(a', b', r);
      forall j | 0 <= j < |b| ensures Sought(a, b[j], r) {
        if j != m {
          var j' := if j < m then j else j - 1;
          assert b'[j'] == b[j] && Sought(a', b'[j'], r);
          var i :| 0 <= i < |a'| && r(b'[j'], a'[i]);
          assert a[i] == a'[i];
        }
      }
    } else {
      NoneMatched(b, r);
    }
  }

  lemma NoneMatched<A>(b: seq<A>, r: (A, A) -> bool)
    requires Matched([], b, r)
    ensures b == []
  {}

  lemma PartnerOf<A>(a: seq<A>, b: seq<A>, r: (A, A) -> bool) returns (m: nat)
    requires Matched(a, b, r) && a != []
    ensures m < |b| && r(b[m], a[|a| - 1])
  {
    assert Partnered(b, a[|a| - 1], r);
    m :| 0 <= m < |b| && r(b[m], a[|a| - 1]);
  }

  /** And when partners have equal hashes, what is accumulated is equal. */
  lemma {:induction false} FoldMatched<A, T(!new)>(a: seq<A>, b: seq<A>, r: (A, A) -> bool, h: A -> T, add: (T,
      T) -> T, zero: T)
    requires Matched(a, b, r) && SameHash(a, b, r, h) && Commutes(add)
    ensures Fold(add, zero, Mapped(h, a)) == Fold(add, zero, Mapped(h, b))
    decreases |a|
  {
    hide Matched, Commutes;
    if a != [] {
      var last := |a| - 1;
      var m := PartnerOf(a, b, r);
      var a', b' := a[..last], Without(b, m);
      MatchedWithout(a, b, r, m);
      forall i, j | 0 <= i < |a'| && 0 <= j < |b'| && r(b'[j], a'[i]) ensures h(a'[i]) == h(b'[j]) {
        assert b'[j] == b[if j < m then j else j + 1] && a'[i] == a[i];
      }
      FoldMatched(a', b', r, h, add, zero);
      FoldWithout(add, zero, Mapped(h, b), m);
      assert Without(Mapped(h, b), m) == Mapped(h, b');
      assert Mapped(h, a)[..last] == Mapped(h, a');
    } else {
      NoneMatched(b, r);
    }
  }

  // ------------------------------------------------------------ without order

  function Items<T>(s: seq<T>): set<T> { set x | x in s }

  ghost predicate NoTwice<T>(s: seq<T>) {
    forall i, j | 0 <= i < j < |s| :: s[i] != s[j]
  }

  lemma {:induction false} NoTwiceSize<T>(s: seq<T>)
    requires NoTwice(s)
    ensures |Items(s)| == |s|
  {
    if s != [] {
      var last := |s| - 1;
      NoTwiceSize(s[..last]);
      assert Items(s) == Items(s[..last]) + {s[last]};
    }
  }

  /** Of two lists of one length without repetitions, one within the other, each has the
      elements of the other. */
  lemma SameItems<T>(s: seq<T>, t: seq<T>)
    requires NoTwice(s) && NoTwice(t) && |s| == |t| && forall i | 0 <= i < |s| :: s[i] in t
    ensures Items(s) == Items(t)
  {
    NoTwiceSize(s);
    NoTwiceSize(t);
    SubsetFills(Items(s), Items(t));
  }

  lemma {:induction false} SubsetFills<T>(a: set<T>, b: set<T>)
    requires a <= b && |a| == |b|
    ensures a == b
  {
    if a != b {
      var x :| x in b && x !in a;
      SubsetSize(a, b - {x});
    }
  }

  lemma {:induction false} SubsetSize<T>(a: set<T>, b: set<T>)
    requires a <= b
    ensures |a| <= |b|
    decreases a
  {
    if a != {} {
      var x :| x in a;
      SubsetSize(a - {x}, b - {x});
    }
  }
}
