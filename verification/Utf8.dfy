// UTF-8 strings: validation, decoding, comparison, concatenation and slices, against
// the encoding of scalar values that section 3 of RFC 3629 defines.
module Utf8 {
  import opened Arithmetic
  import opened Bits
  import opened Outcomes

  type byte = b: nat | b < 0x100
  type scalar = c: nat | c <= 0x10FFFF && !(0xD800 <= c <= 0xDFFF)

  // ------------------------------------------------------------ the encoding

  /** The low six bits of a number. */
  function Low(x: nat): (r: nat)
    ensures r < 0x40
  {
    x % 0x40
  }

  /** The bytes of one scalar value. */
  function Encode(c: scalar): (u: seq<byte>)
    ensures 1 <= |u| <= 4
  {
    var c1: nat := c / 0x40;
    var c2: nat := c1 / 0x40;
    var c3: nat := c2 / 0x40;
    if c < 0x80 then [c]
    else if c < 0x800 then [0xC0 + c1, 0x80 + Low(c)]
    else if c < 0x1_0000 then [0xE0 + c2, 0x80 + Low(c1), 0x80 + Low(c)]
    else [0xF0 + c3, 0x80 + Low(c2), 0x80 + Low(c1), 0x80 + Low(c)]
  }

  function EncodeAll(cs: seq<scalar>): seq<byte> {
    if cs == [] then [] else Encode(cs[0]) + EncodeAll(cs[1..])
  }

  predicate Continuation(b: byte) { 0x80 <= b <= 0xBF }

  /** A row of Table 3-7 of the Unicode Standard, section 3.9, holds these bytes. */
  predicate WellFormed(u: seq<byte>) {
    if |u| == 1 then u[0] <= 0x7F
    else if |u| == 2 then 0xC2 <= u[0] <= 0xDF && Continuation(u[1])
    else if |u| == 3 then
      && Continuation(u[2])
      && if u[0] == 0xE0 then 0xA0 <= u[1] <= 0xBF
         else if u[0] == 0xED then 0x80 <= u[1] <= 0x9F
         else 0xE1 <= u[0] <= 0xEF && Continuation(u[1])
    else
      && |u| == 4 && Continuation(u[2]) && Continuation(u[3])
      && if u[0] == 0xF0 then 0x90 <= u[1] <= 0xBF
         else if u[0] == 0xF4 then 0x80 <= u[1] <= 0x8F
         else 0xF1 <= u[0] <= 0xF3 && Continuation(u[1])
  }

  /** How many bytes `each_codepoint` takes, by the first of them. */
  function Width(first: byte): nat {
    if first <= 0x7F then 1 else if first <= 0xDF then 2 else if first <= 0xEF then 3 else 4
  }

  /** The scalar value `each_codepoint` puts together from masked and shifted bytes. */
  function Decode(u: seq<byte>): nat
    requires |u| > 0 && |u| == Width(u[0])
  {
    if |u| == 1 then u[0]
    else if |u| == 2 then Or(And(u[0], 0x1F) * 0x40, And(u[1], 0x3F))
    else if |u| == 3 then Or(Or(And(u[0], 0x0F) * 0x1000, And(u[1], 0x3F) * 0x40), And(u[2], 0x3F))
    else Or(Or(Or(And(u[0], 0x07) * 0x4_0000, And(u[1], 0x3F) * 0x1000), And(u[2], 0x3F) * 0x40), And(u[3], 0x3F))
  }

  // ------------------------------------------------- masks and shifts as sums

  lemma {:induction false} MaskIsRemainder(x: nat, n: nat)
    ensures And(x, Pow2(n) - 1) == x % Pow2(n)
    decreases n
  {
    if n > 0 {
      var p := Pow2(n - 1);
      var m := 2 * p - 1;
      MaskIsRemainder(x / 2, n - 1);
      HalfOfRemainder(x, p);
      assert m / 2 == p - 1 && m % 2 == 1;
      hide Pow2;
    }
  }

  lemma {:induction false} OrIsSum(x: nat, y: nat, n: nat)
    requires y < Pow2(n)
    ensures Or(x * Pow2(n), y) == x * Pow2(n) + y
    decreases n
  {
    if n == 0 {
      OrZero(x);
    } else if !(x == 0 && y == 0) {
      Twice(x, Pow2(n - 1));
      OrIsSum(x, y / 2, n - 1);
    }
  }

  lemma {:induction false} OrZero(x: nat)
    ensures Or(x, 0) == x
  {
    if x > 0 { OrZero(x / 2); }
  }

  lemma Masks(b: byte)
    ensures And(b, 0x3F) == b as int % 0x40 == Low(b)
    ensures Continuation(b) ==> Low(b) == b as int - 0x80
    ensures 0xC0 <= b < 0xE0 ==> And(b, 0x1F) == b as int - 0xC0
    ensures 0xE0 <= b < 0xF0 ==> And(b, 0x0F) == b as int - 0xE0
    ensures 0xF0 <= b < 0xF8 ==> And(b, 0x07) == b as int - 0xF0
  {
    hide And;
    Powers();
    MaskIsRemainder(b, 6);
    MaskIsRemainder(b, 5);
    MaskIsRemainder(b, 4);
    MaskIsRemainder(b, 3);
  }

  lemma Powers()
    ensures Pow2(3) == 8 && Pow2(4) == 0x10 && Pow2(5) == 0x20 && Pow2(6) == 0x40 && Pow2(12) == 0x1000
      && Pow2(18) == 0x4_0000
  {
    assert Pow2(3) == 8;
    assert Pow2(6) == 8 * Pow2(3);
    assert Pow2(9) == 8 * Pow2(6);
    assert Pow2(12) == 8 * Pow2(9);
    assert Pow2(15) == 8 * Pow2(12);
    assert Pow2(18) == 8 * Pow2(15);
  }

  /** What the masks and shifts come to. */
  lemma DecodeIsSum(u: seq<byte>)
    requires WellFormed(u)
    ensures |u| == Width(u[0])
    ensures var v: seq<nat> := u;
      Decode(u) ==
        if |v| == 1 then v[0]
        else if |v| == 2 then (v[0] - 0xC0) * 0x40 + (v[1] - 0x80)
        else if |v| == 3 then ((v[0] - 0xE0) * 0x40 + (v[1] - 0x80)) * 0x40 + (v[2] - 0x80)
        else (((v[0] - 0xF0) * 0x40 + (v[1] - 0x80)) * 0x40 + (v[2] - 0x80)) * 0x40 + (v[3] - 0x80)
  {
    hide Decode;
    if |u| == 1 { DecodeOne(u); } else if |u| == 2 { DecodeTwo(u); } else if |u| == 3 { DecodeThree(u); }
        else { DecodeFour(u); }
  }

  lemma DecodeOne(u: seq<byte>)
    requires WellFormed(u) && |u| == 1
    ensures |u| == Width(u[0]) && Decode(u) == u[0]
  {}

  lemma DecodeTwo(u: seq<byte>)
    requires WellFormed(u) && |u| == 2
    ensures |u| == Width(u[0])
    ensures var v: seq<nat> := u;
      Decode(u) == (v[0] - 0xC0) * 0x40 + (v[1] - 0x80)
  {
    hide And, Or, Low;
    Powers();
    Masks(u[0]); Masks(u[1]);
    var a: nat, b: nat := u[0] - 0xC0, u[1] - 0x80;
    OrIsSum(a, b, 6);
  }

  lemma DecodeThree(u: seq<byte>)
    requires WellFormed(u) && |u| == 3
    ensures |u| == Width(u[0])
    ensures var v: seq<nat> := u;
      Decode(u) == ((v[0] - 0xE0) * 0x40 + (v[1] - 0x80)) * 0x40 + (v[2] - 0x80)
  {
    hide And, Or, Low;
    Powers();
    Masks(u[0]); Masks(u[1]); Masks(u[2]);
    var a: nat, b: nat, c: nat := u[0] - 0xE0, u[1] - 0x80, u[2] - 0x80;
    OrIsSum(a, b * 0x40, 12);
    OrIsSum(a * 0x40 + b, c, 6);
  }

  lemma DecodeFour(u: seq<byte>)
    requires WellFormed(u) && |u| == 4
    ensures |u| == Width(u[0])
    ensures var v: seq<nat> := u;
      Decode(u) == (((v[0] - 0xF0) * 0x40 + (v[1] - 0x80)) * 0x40 + (v[2] - 0x80)) * 0x40 + (v[3] - 0x80)
  {
    hide And, Or, Low;
    Powers();
    Masks(u[0]); Masks(u[1]); Masks(u[2]); Masks(u[3]);
    var a: nat, b: nat, c: nat, d: nat := u[0] - 0xF0, u[1] - 0x80, u[2] - 0x80, u[3] - 0x80;
    OrIsSum(a, b * 0x1000, 18);
    OrIsSum(a * 0x40 + b, c * 0x40, 12);
    OrIsSum((a * 0x40 + b) * 0x40 + c, d, 6);
  }

  // -------------------------------------------------------- one scalar value

  lemma LowSplit(x: nat)
    ensures x == x / 0x40 * 0x40 + Low(x)
  {}

  /** A number and its digit are what they were put together from. */
  lemma LowJoin(hi: nat, lo: nat)
    requires lo < 0x40
    ensures (hi * 0x40 + lo) / 0x40 == hi && Low(hi * 0x40 + lo) == lo
  {}

  /** An encoding is a row of the table. */
  lemma EncodeWellFormed(c: scalar)
    ensures WellFormed(Encode(c))
  {
    hide Low;
    var c1: nat := c / 0x40;
    var c2: nat := c1 / 0x40;
    LowSplit(c);
    LowSplit(c1);
    LowSplit(c2);
  }

  /** Decoding gives back what was encoded. */
  lemma EncodeDecodes(c: scalar)
    ensures WellFormed(Encode(c)) && |Encode(c)| == Width(Encode(c)[0]) && Decode(Encode(c)) == c
  {
    hide Low, And, Or, Decode, WellFormed, Width;
    EncodeWellFormed(c);
    DecodeIsSum(Encode(c));
    var c1: nat := c / 0x40;
    var c2: nat := c1 / 0x40;
    LowSplit(c);
    LowSplit(c1);
    LowSplit(c2);
  }

  /** Every row of the table is the encoding of the scalar value it decodes to. */
  lemma DecodeEncodes(u: seq<byte>)
    requires WellFormed(u)
    ensures |u| == Width(u[0])
    ensures var c := Decode(u); c <= 0x10FFFF && !(0xD800 <= c <= 0xDFFF) && Encode(c) == u
  {
    hide Low, And, Or, Decode;
    DecodeIsSum(u);
    var v: seq<nat> := u;
    if |v| == 2 {
      LowJoin(v[0] - 0xC0, v[1] - 0x80);
    } else if |v| == 3 {
      LowJoin(v[0] - 0xE0, v[1] - 0x80);
      LowJoin((v[0] - 0xE0) * 0x40 + (v[1] - 0x80), v[2] - 0x80);
    } else if |v| == 4 {
      LowJoin(v[0] - 0xF0, v[1] - 0x80);
      LowJoin((v[0] - 0xF0) * 0x40 + (v[1] - 0x80), v[2] - 0x80);
      LowJoin(((v[0] - 0xF0) * 0x40 + (v[1] - 0x80)) * 0x40 + (v[2] - 0x80), v[3] - 0x80);
    }
  }

  /** Encodings differ at a byte that both have, in the order of what they encode. */
  lemma EncodeOrder(a: scalar, b: scalar) returns (k: nat)
    requires a < b
    ensures var u, v := Encode(a), Encode(b);
      k < |u| && k < |v| && u[..k] == v[..k] && u[k] < v[k]
  {
    var u, v := Encode(a), Encode(b);
    if u[0] < v[0] { return 0; }
    if u[1] < v[1] { return 1; }
    if u[2] < v[2] { return 2; }
    return 3;
  }

  // ------------------------------------------------------------- whole strings

  /** The scalar values that bytes are read as, a row of the table at a time. */
  function ScalarsOf(data: seq<byte>): Option<seq<scalar>> {
    if data == [] then Some([])
    else
      var w := Width(data[0]);
      if w > |data| || !WellFormed(data[..w]) then None
      else
        DecodeEncodes(data[..w]);
        match ScalarsOf(data[w..])
        case None => None
        case Some(rest) => Some([Decode(data[..w])] + rest)
  }

  /** Bytes that start with an encoding are read as what it encodes. */
  lemma HeadReads(c: scalar, rest: seq<byte>)
    ensures var data := Encode(c) + rest;
      var w := Width(data[0]);
      && w == |Encode(c)| && data[..w] == Encode(c) && data[w..] == rest && WellFormed(data[..w])
          && Decode(data[..w]) == c
  {
    hide Encode, Decode, WellFormed, Width;
    EncodeDecodes(c);
    var data := Encode(c) + rest;
    assert data[0] == Encode(c)[0];
    assert data[..|Encode(c)|] == Encode(c);
  }

  /** Bytes are read as `cs` exactly when they are the encoding of `cs`. */
  lemma {:induction false} ReadsWhatEncodes(data: seq<byte>, cs: seq<scalar>)
    ensures ScalarsOf(data) == Some(cs) <==> EncodeAll(cs) == data
    decreases |data| + |cs|
  {
    hide Encode, Decode, WellFormed, Width;
    if data != [] && cs != [] {
      if ScalarsOf(data) == Some(cs) {
        var w := Width(data[0]);
        DecodeEncodes(data[..w]);
        ReadsWhatEncodes(data[w..], cs[1..]);
        assert data == data[..w] + data[w..];
      }
      if EncodeAll(cs) == data {
        HeadReads(cs[0], EncodeAll(cs[1..]));
        ReadsWhatEncodes(EncodeAll(cs[1..]), cs[1..]);
        assert cs == [cs[0]] + cs[1..];
      }
    }
  }

  /** No two lists of scalar values have the same encoding. */
  lemma EncodeAllInjective(a: seq<scalar>, b: seq<scalar>)
    requires EncodeAll(a) == EncodeAll(b)
    ensures a == b
  {
    ReadsWhatEncodes(EncodeAll(a), a);
    ReadsWhatEncodes(EncodeAll(b), b);
  }

  lemma {:induction false} EncodeAllConcat(a: seq<scalar>, b: seq<scalar>)
    ensures EncodeAll(a + b) == EncodeAll(a) + EncodeAll(b)
  {
    if a == [] {
      assert a + b == b;
    } else {
      EncodeAllConcat(a[1..], b);
      assert (a + b)[0] == a[0] && (a + b)[1..] == a[1..] + b;
    }
  }

  /** `validate` accepts exactly the encodings of scalar values, and counts them. */
  method Validate(data: seq<byte>) returns (ok: bool, count: nat)
    ensures ok <==> exists cs :: EncodeAll(cs) == data
    ensures forall cs | EncodeAll(cs) == data :: count == |cs|
    ensures !ok ==> count == 0
  {
    ok, count := Scan(data);
    if ok {
      ReadsWhatEncodes(data, ScalarsOf(data).value);
    }
    forall cs | EncodeAll(cs) == data ensures ScalarsOf(data) == Some(cs) {
      ReadsWhatEncodes(data, cs);
    }
  }

  /** The loop of `validate`. */
  method Scan(data: seq<byte>) returns (ok: bool, count: nat)
    ensures ok == ScalarsOf(data).Some?
    ensures count == if ok then |ScalarsOf(data).value| else 0
  {
    hide Decode;
    var i := 0;
    count := 0;
    while i < |data|
      invariant i <= |data|
      invariant ScalarsOf(data).Some? == ScalarsOf(data[i..]).Some?
      invariant ScalarsOf(data).Some? ==> |ScalarsOf(data).value| == count + |ScalarsOf(data[i..]).value|
    {
      ghost var rest := data[i..];
      var first := data[i];
      var w := Width(first);
      if first <= 0x7F {
        i := i + 1;
      } else if first <= 0xC1 {
        return false, 0;
      } else if first <= 0xDF {
        if i + 1 >= |data| || !Continuation(data[i + 1]) { return false, 0; }
        i := i + 2;
      } else if first <= 0xEF {
        if i + 2 >= |data| { return false, 0; }
        assert rest[..3] == [first, data[i + 1], data[i + 2]];
        var second := data[i + 1];
        if !Continuation(second) || !Continuation(data[i + 2]) { return false, 0; }
        if first == 0xE0 && second < 0xA0 { return false, 0; }
        if first == 0xED && second > 0x9F { return false, 0; }
        i := i + 3;
      } else if first <= 0xF4 {
        if i + 3 >= |data| { return false, 0; }
        assert rest[..4] == [first, data[i + 1], data[i + 2], data[i + 3]];
        var second := data[i + 1];
        if !Continuation(second) || !Continuation(data[i + 2]) || !Continuation(data[i + 3]) { return false, 0; }
        if first == 0xF0 && second < 0x90 { return false, 0; }
        if first == 0xF4 && second > 0x8F { return false, 0; }
        i := i + 4;
      } else {
        return false, 0;
      }
      assert WellFormed(rest[..w]) && rest[w..] == data[i..];
      count := count + 1;
    }
    return true, count;
  }

  /** `each_codepoint` meets every scalar value in order, with its place and offset. */
  method EachCodepoint(data: seq<byte>, ghost cs: seq<scalar>) returns (seen: seq<(nat, nat, nat)>)
    requires EncodeAll(cs) == data
    ensures |seen| == |cs|
    ensures forall k | 0 <= k < |cs| :: seen[k] == (k, |EncodeAll(cs[..k])|, cs[k])
  {
    hide Decode, Encode, Width;
    var offset, index := 0, 0;
    seen := [];
    assert cs[..0] == [] && cs[0..] == cs && data[0..] == data;
    while offset < |data|
      invariant offset <= |data| && index == |seen| <= |cs|
      invariant EncodeAll(cs[index..]) == data[offset..] && offset == |EncodeAll(cs[..index])|
      invariant forall k | 0 <= k < index :: seen[k] == (k, |EncodeAll(cs[..k])|, cs[k])
    {
      var first := data[offset];
      assert cs[index..] != [];
      assert cs[index..][0] == cs[index] && cs[index..][1..] == cs[index + 1..];
      HeadReads(cs[index], EncodeAll(cs[index + 1..]));
      assert data[offset..][0] == first;
      var width := Width(first);
      assert data[offset..][..width] == data[offset..offset + width];
      var scalar := Decode(data[offset..offset + width]);
      seen := seen + [(index, offset, scalar)];
      assert cs[..index + 1] == cs[..index] + [cs[index]];
      EncodeAllConcat(cs[..index], [cs[index]]);
      EncodeAllOne(cs[index]);
      assert data[offset..][width..] == data[offset + width..];
      offset := offset + width;
      index := index + 1;
    }
    EncodeAllInjective(cs[index..], []);
  }

  lemma EncodeAllOne(c: scalar)
    ensures EncodeAll([c]) == Encode(c)
  {
    assert [c][1..] == [];
    assert EncodeAll([]) == [];
    assert Encode(c) + [] == Encode(c);
  }

  // --------------------------------------------------------------- comparison

  /** Lexicographic order, as -1, 0 or 1. */
  function Order(a: seq<nat>, b: seq<nat>): int {
    if a == [] then (if b == [] then 0 else -1)
    else if b == [] then 1
    else if a[0] < b[0] then -1
    else if a[0] > b[0] then 1
    else Order(a[1..], b[1..])
  }

  lemma {:induction false} OrderSkips(p: seq<nat>, a: seq<nat>, b: seq<nat>)
    ensures Order(p + a, p + b) == Order(a, b)
  {
    if p == [] {
      assert p + a == a && p + b == b;
    } else {
      assert (p + a)[1..] == p[1..] + a && (p + b)[1..] == p[1..] + b;
      OrderSkips(p[1..], a, b);
    }
  }

  lemma {:induction false} OrderAt(a: seq<nat>, b: seq<nat>, k: nat)
    requires k < |a| && k < |b| && a[..k] == b[..k] && a[k] != b[k]
    ensures Order(a, b) == if a[k] < b[k] then -1 else 1
  {
    if k > 0 {
      assert a[0] == a[..k][0] == b[..k][0] == b[0];
      assert a[1..][..k - 1] == a[..k][1..] && b[1..][..k - 1] == b[..k][1..];
      OrderAt(a[1..], b[1..], k - 1);
    }
  }

  /** Bytes compare as the scalar values they encode do. */
  lemma {:induction false} OrderOfBytes(a: seq<scalar>, b: seq<scalar>)
    ensures Order(EncodeAll(a), EncodeAll(b)) == Order(a, b)
  {
    hide Encode;
    if a != [] && b != [] {
      var x, y := EncodeAll(a[1..]), EncodeAll(b[1..]);
      if a[0] == b[0] {
        OrderSkips(Encode(a[0]), x, y);
        OrderOfBytes(a[1..], b[1..]);
      } else if a[0] < b[0] {
        var k := EncodeOrder(a[0], b[0]);
        DifferAt(Encode(a[0]), x, Encode(b[0]), y, k);
      } else {
        var k := EncodeOrder(b[0], a[0]);
        DifferAt(Encode(a[0]), x, Encode(b[0]), y, k);
      }
    }
  }

  lemma DifferAt(u: seq<nat>, x: seq<nat>, v: seq<nat>, y: seq<nat>, k: nat)
    requires k < |u| && k < |v| && u[..k] == v[..k] && u[k] != v[k]
    ensures Order(u + x, v + y) == if u[k] < v[k] then -1 else 1
  {
    assert (u + x)[..k] == u[..k] && (v + y)[..k] == v[..k];
    OrderAt(u + x, v + y, k);
  }

  /** The loop of `compare`. */
  method Compare(left: seq<byte>, right: seq<byte>) returns (r: int)
    ensures r == Order(left, right)
  {
    var length := if |left| < |right| then |left| else |right|;
    assert left[0..] == left && right[0..] == right;
    for i := 0 to length
      invariant Order(left, right) == Order(left[i..], right[i..])
    {
      assert left[i..][0] == left[i] && left[i..][1..] == left[i + 1..];
      assert right[i..][0] == right[i] && right[i..][1..] == right[i + 1..];
      if left[i] < right[i] { return -1; }
      if left[i] > right[i] { return 1; }
    }
    if |left| < |right| { return -1; }
    if |left| > |right| { return 1; }
    return 0;
  }

  // ------------------------------------------------------------------ strings

  /** A string: bytes, how many scalar values they encode, and their hash. */
  datatype Utf8 = Utf8(bytes: seq<byte>, codepoints: nat, hash: nat)

  ghost predicate Valid(s: Utf8, f: seq<byte> -> nat) {
    && s.hash == f(s.bytes)
    && exists cs :: EncodeAll(cs) == s.bytes && |cs| == s.codepoints
  }

  /** The scalar values of a valid string. */
  ghost function Text(s: Utf8, f: seq<byte> -> nat): (cs: seq<scalar>)
    requires Valid(s, f)
    ensures EncodeAll(cs) == s.bytes && |cs| == s.codepoints
  {
    var cs :| EncodeAll(cs) == s.bytes && |cs| == s.codepoints;
    cs
  }

  method TryFromBytes(data: seq<byte>, f: seq<byte> -> nat) returns (r: Option<Utf8>)
    ensures r.Some? <==> exists cs :: EncodeAll(cs) == data
    ensures r.Some? ==> Valid(r.value, f) && r.value.bytes == data
  {
    var ok, count := Validate(data);
    if !ok { return None; }
    var cs :| EncodeAll(cs) == data;
    return Some(Utf8(data, count, f(data)));
  }

  /** Two valid strings are equal exactly when they have the same text. */
  method Equal(left: Utf8, right: Utf8, f: seq<byte> -> nat) returns (r: bool)
    requires Valid(left, f) && Valid(right, f)
    ensures r <==> Text(left, f) == Text(right, f)
  {
    if left.bytes == right.bytes { EncodeAllInjective(Text(left, f), Text(right, f)); }
    if left.hash != right.hash || |left.bytes| != |right.bytes| { return false; }
    for i := 0 to |left.bytes|
      invariant forall j | 0 <= j < i :: left.bytes[j] == right.bytes[j]
    {
      if left.bytes[i] != right.bytes[i] { return false; }
    }
    return true;
  }

  /** Two valid strings compare as their texts do. */
  method CompareStrings(left: Utf8, right: Utf8, ghost f: seq<byte> -> nat) returns (r: int)
    requires Valid(left, f) && Valid(right, f)
    ensures r == Order(Text(left, f), Text(right, f))
  {
    OrderOfBytes(Text(left, f), Text(right, f));
    r := Compare(left.bytes, right.bytes);
  }

  /** The joined bytes are valid as they stand, and the counts add up. */
  method Concat(left: Utf8, right: Utf8, f: seq<byte> -> nat) returns (r: Outcome<Utf8>)
    requires Valid(left, f) && Valid(right, f)
    ensures r.Trap? <==> left.bytes != [] && right.bytes != [] && |left.bytes| > MAX_I32 - |right.bytes|
    ensures r.Done? ==> Valid(r.value, f) && Text(r.value, f) == Text(left, f) + Text(right, f)
  {
    ghost var a, b := Text(left, f), Text(right, f);
    EncodeAllConcat(a, b);
    if |left.bytes| == 0 {
      EncodeAllInjective(a, []);
      assert a + b == b;
      return Done(right);
    }
    if |right.bytes| == 0 {
      EncodeAllInjective(b, []);
      assert a + b == a;
      return Done(left);
    }
    if |left.bytes| > MAX_I32 - |right.bytes| { return Trap; }
    var bytes := left.bytes + right.bytes;
    var s := Utf8(bytes, left.codepoints + right.codepoints, f(bytes));
    assert EncodeAll(a + b) == bytes && |a + b| == s.codepoints;
    EncodeAllInjective(Text(s, f), a + b);
    return Done(s);
  }

  // -------------------------------------------------------------------- slices

  predicate IsBoundary(data: seq<byte>, offset: int) {
    && 0 <= offset <= |data|
    && (offset == 0 || offset == |data| || !Continuation(data[offset]))
  }

  /** An offset is a boundary exactly when some of the scalar values end there. */
  lemma {:induction false} BoundaryIsPrefix(cs: seq<scalar>, offset: nat)
    requires offset <= |EncodeAll(cs)|
    ensures IsBoundary(EncodeAll(cs), offset) <==> exists k :: 0 <= k <= |cs| && |EncodeAll(cs[..k])| == offset
  {
    hide Encode;
    if IsBoundary(EncodeAll(cs), offset) {
      var k := PrefixAt(cs, offset);
    } else {
      forall k | 0 <= k <= |cs| ensures |EncodeAll(cs[..k])| != offset { PrefixEnds(cs, k); }
    }
  }

  lemma InsideContinues(c: scalar, i: nat)
    requires i < |Encode(c)|
    ensures Continuation(Encode(c)[i]) <==> i > 0
  {
    EncodeWellFormed(c);
  }

  lemma {:induction false} PrefixAt(cs: seq<scalar>, offset: nat) returns (k: nat)
    requires offset <= |EncodeAll(cs)| && IsBoundary(EncodeAll(cs), offset)
    ensures k <= |cs| && |EncodeAll(cs[..k])| == offset
  {
    hide Encode;
    if offset == 0 {
      assert cs[..0] == [];
      return 0;
    }
    var u, rest := Encode(cs[0]), EncodeAll(cs[1..]);
    if offset < |u| {
      InsideContinues(cs[0], offset);
      assert false;
    }
    k := PrefixAt(cs[1..], offset - |u|);
    assert cs[..k + 1][0] == cs[0] && cs[..k + 1][1..] == cs[1..][..k];
    k := k + 1;
  }

  lemma {:induction false} PrefixEnds(cs: seq<scalar>, k: nat)
    requires k <= |cs|
    ensures |EncodeAll(cs[..k])| <= |EncodeAll(cs)| && IsBoundary(EncodeAll(cs), |EncodeAll(cs[..k])|)
  {
    hide Encode;
    assert cs == cs[..k] + cs[k..];
    EncodeAllConcat(cs[..k], cs[k..]);
    if k < |cs| {
      InsideContinues(cs[k], 0);
    }
  }

  /** A slice between boundaries is the text between them: `try_slice_bytes` may
      ignore whether it is valid. */
  method TrySliceBytes(s: Utf8, start: int, length: int, f: seq<byte> -> nat) returns (r: Option<Utf8>)
    requires Valid(s, f)
    ensures r.Some? <==> start >= 0 && length >= 0 && IsBoundary(s.bytes, start) && IsBoundary(s.bytes, start + length)
    ensures r.Some? ==> Valid(r.value, f) && r.value.bytes == s.bytes[start..start + length]
    ensures r.Some? ==> exists i, j :: 0 <= i <= j <= |Text(s, f)| && Text(r.value, f) == Text(s, f)[i..j]
  {
    hide Encode, EncodeAll, ScalarsOf;
    if start < 0 || length < 0 || start > |s.bytes| || length > |s.bytes| - start { return None; }
    var end := start + length;
    if !IsBoundary(s.bytes, start) || !IsBoundary(s.bytes, end) { return None; }
    ghost var cs := Text(s, f);
    ghost var i, j := SliceText(cs, start, end);
    if start == 0 && length == |s.bytes| {
      assert s.bytes[0..|s.bytes|] == s.bytes;
      EncodeAllInjective(cs, cs[i..j]);
      return Some(s);
    }
    var bytes := s.bytes[start..end];
    var _, codepoints := Validate(bytes);
    var out := Utf8(bytes, codepoints, f(bytes));
    assert EncodeAll(cs[i..j]) == bytes && |cs[i..j]| == codepoints;
    EncodeAllInjective(Text(out, f), cs[i..j]);
    return Some(out);
  }

  lemma PrefixLonger(cs: seq<scalar>, j: nat, i: nat)
    requires j < i <= |cs|
    ensures |EncodeAll(cs[..j])| < |EncodeAll(cs[..i])|
  {
    assert cs[..i] == cs[..j] + cs[j..i];
    EncodeAllConcat(cs[..j], cs[j..i]);
  }

  lemma {:induction false} SliceText(cs: seq<scalar>, start: nat, end: nat) returns (i: nat, j: nat)
    requires start <= end && IsBoundary(EncodeAll(cs), start) && IsBoundary(EncodeAll(cs), end)
    ensures i <= j <= |cs| && EncodeAll(cs[i..j]) == EncodeAll(cs)[start..end]
  {
    i := PrefixAt(cs, start);
    j := PrefixAt(cs, end);
    if j < i { PrefixLonger(cs, j, i); }
    assert cs[..j] == cs[..i] + cs[i..j];
    EncodeAllConcat(cs[..i], cs[i..j]);
    assert cs == cs[..j] + cs[j..];
    EncodeAllConcat(cs[..j], cs[j..]);
  }
}
