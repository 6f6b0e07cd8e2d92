// SPMultiIndex: the integer coordinates of an entity in doubled coordinates.
//
// A multi-index has one component per axis.  Component i is odd when the
// entity extends along axis i and even when it is fixed there, so the
// parities encode the entity's direction and codimension.  The in-place
// operators of the source work on a fixed-size `array<int>`; the values they
// produce are described by the functions on `seq<int>` below.

module MultiIndices {
  import opened Bits
  import opened Errors

  type MultiIndex = seq<int>

  // ---------------------------------------------------------------------
  // Values
  // ---------------------------------------------------------------------

  function Add(a: MultiIndex, b: MultiIndex): (r: MultiIndex)
    requires |a| == |b|
    ensures |r| == |a|
  {
    seq(|a|, i requires 0 <= i < |a| => a[i] + b[i])
  }

  function Sub(a: MultiIndex, b: MultiIndex): (r: MultiIndex)
    requires |a| == |b|
    ensures |r| == |a|
  {
    seq(|a|, i requires 0 <= i < |a| => a[i] - b[i])
  }

  function Scale(a: MultiIndex, k: int): (r: MultiIndex)
    ensures |r| == |a|
  {
    seq(|a|, i requires 0 <= i < |a| => a[i] * k)
  }

  /** `x.axpy(a, y)`: x + a*y. */
  function Axpy(x: MultiIndex, a: int, y: MultiIndex): (r: MultiIndex)
    requires |x| == |y|
    ensures |r| == |x|
  {
    seq(|x|, i requires 0 <= i < |x| => x[i] + a * y[i])
  }

  function Zeros(n: nat): (r: MultiIndex)
    ensures |r| == n
  {
    seq(n, i => 0)
  }

  /** Number of odd components, i.e. the dimension of the entity. */
  function OddCount(x: MultiIndex): nat
  {
    if x == [] then 0 else x[0] % 2 + OddCount(x[1..])
  }

  /** The direction bit field: bit i is `x[i] & 1`. */
  function DirectionOf(x: MultiIndex): nat
  {
    if x == [] then 0 else x[0] % 2 + 2 * DirectionOf(x[1..])
  }

  /** The codimension: dim minus the number of odd components. */
  function CodimensionOf(x: MultiIndex): int
  {
    |x| - OddCount(x)
  }

  /**
   * `increment(bound, k)`: k is added to the first component; a component
   * that reaches its bound is reset to 0 (not reduced modulo the bound) and
   * k is added to the next one.
   */
  function Incremented(x: MultiIndex, bound: MultiIndex, k: int): (r: MultiIndex)
    requires |x| == |bound|
    ensures |r| == |x|
  {
    if x == [] then []
    else if x[0] + k < bound[0] then [x[0] + k] + x[1..]
    else [0] + Incremented(x[1..], bound[1..], k)
  }

  /** Mixed-radix value of x for the radices `bound`, component 0 lowest. */
  function MixedRadix(x: MultiIndex, bound: MultiIndex): int
    requires |x| == |bound|
  {
    if x == [] then 0 else x[0] + bound[0] * MixedRadix(x[1..], bound[1..])
  }

  function Product(x: MultiIndex): int
  {
    if x == [] then 1 else x[0] * Product(x[1..])
  }

  predicate InRange(x: MultiIndex, bound: MultiIndex)
    requires |x| == |bound|
  {
    forall i :: 0 <= i < |x| ==> 0 <= x[i] < bound[i]
  }

  // ---------------------------------------------------------------------
  // Properties of the values
  // ---------------------------------------------------------------------

  lemma {:induction false} SubAddCancel(a: MultiIndex, b: MultiIndex)
    requires |a| == |b|
    ensures Sub(Add(a, b), b) == a
    ensures Add(Sub(a, b), b) == a
  {
  }

  /** The direction of a multi-index fits in dim bits. */
  lemma {:induction false} DirectionBound(x: MultiIndex)
    ensures DirectionOf(x) < Pow2(|x|)
  {
    if x != [] {
      DirectionBound(x[1..]);
    }
  }

  /** Bit i of the direction is the parity of component i, and nothing lies above bit dim-1. */
  lemma {:induction false} DirectionBits(x: MultiIndex, i: nat)
    ensures DirectionOf(x) < Pow2(|x|)
    ensures Bit(DirectionOf(x), i) == if i < |x| then x[i] % 2 else 0
  {
    if x == [] {
      ZeroBits(i);
    } else {
      DirectionBits(x[1..], if i > 0 then i - 1 else 0);
      var d := DirectionOf(x);
      assert d % 2 == x[0] % 2 && d / 2 == DirectionOf(x[1..]);
      if i > 0 {
        DirectionBits(x[1..], i - 1);
      }
    }
  }

  /** popcount(direction()) == dim - codimension(). */
  lemma {:induction false} DirectionPopCount(x: MultiIndex)
    ensures PopCount(DirectionOf(x)) == OddCount(x)
    ensures PopCount(DirectionOf(x)) == |x| - CodimensionOf(x)
  {
    if x != [] {
      DirectionPopCount(x[1..]);
      var d := DirectionOf(x);
      assert d % 2 == x[0] % 2 && d / 2 == DirectionOf(x[1..]);
      if d == 0 {
        assert x[0] % 2 == 0 && DirectionOf(x[1..]) == 0;
      }
    }
  }

  lemma {:induction false} OddCountBound(x: MultiIndex)
    ensures OddCount(x) <= |x|
  {
    if x != [] { OddCountBound(x[1..]); }
  }

  lemma {:induction false} OddCountSnoc(x: MultiIndex, v: int)
    ensures OddCount(x + [v]) == OddCount(x) + v % 2
  {
    if x != [] {
      assert (x + [v])[1..] == x[1..] + [v];
      OddCountSnoc(x[1..], v);
    }
  }

  lemma {:induction false} DirectionSnoc(x: MultiIndex, v: int)
    ensures DirectionOf(x + [v]) == DirectionOf(x) + (v % 2) * Pow2(|x|)
  {
    if x != [] {
      assert (x + [v])[1..] == x[1..] + [v];
      DirectionSnoc(x[1..], v);
    }
  }

  lemma {:induction false} ProductPositive(bound: MultiIndex)
    requires forall i :: 0 <= i < |bound| ==> bound[i] > 0
    ensures Product(bound) > 0
  {
    if bound != [] {
      ProductPositive(bound[1..]);
      NonNegMul(bound[0] - 1, Product(bound[1..]));
    }
  }

  lemma {:induction false} ProductSnoc(f: seq<int>, a: int)
    ensures Product(f + [a]) == Product(f) * a
  {
    if |f| > 0 {
      assert (f + [a])[1..] == f[1..] + [a];
      ProductSnoc(f[1..], a);
    }
  }

  lemma {:induction false} MixedRadixBound(x: MultiIndex, bound: MultiIndex)
    requires |x| == |bound| && InRange(x, bound)
    ensures 0 <= MixedRadix(x, bound) < Product(bound)
  {
    if x != [] {
      MixedRadixBound(x[1..], bound[1..]);
      var m := MixedRadix(x[1..], bound[1..]);
      var p := Product(bound[1..]);
      assert m + 1 <= p;
      NonNegMul(bound[0], m);
      NonNegMul(bound[0], p - (m + 1));
      assert bound[0] * m + bound[0] <= bound[0] * p;
    }
  }

  /** With k = 1, `increment` keeps every component within its bound. */
  lemma {:induction false} IncrementInRange(x: MultiIndex, bound: MultiIndex)
    requires |x| == |bound| && InRange(x, bound)
    ensures InRange(Incremented(x, bound, 1), bound)
  {
    if x != [] && x[0] + 1 >= bound[0] {
      var r := Incremented(x, bound, 1);
      var t := Incremented(x[1..], bound[1..], 1);
      assert r == [0] + t;
      IncrementInRange(x[1..], bound[1..]);
      forall i | 0 <= i < |r| ensures 0 <= r[i] < bound[i] {
        if i > 0 { assert r[i] == t[i - 1] && bound[i] == bound[1..][i - 1]; }
      }
    }
  }

  /**
   * With k = 1 and every component within its bound, `increment` is an
   * odometer: the mixed-radix value grows by one, and the last index wraps
   * round to all zeros.
   */
  lemma {:induction false} IncrementIsOdometer(x: MultiIndex, bound: MultiIndex)
    requires |x| == |bound| && InRange(x, bound)
    ensures InRange(Incremented(x, bound, 1), bound)
    ensures MixedRadix(x, bound) + 1 < Product(bound) ==>
              MixedRadix(Incremented(x, bound, 1), bound) == MixedRadix(x, bound) + 1
    ensures MixedRadix(x, bound) + 1 >= Product(bound) ==> Incremented(x, bound, 1) == Zeros(|x|)
  {
    IncrementInRange(x, bound);
    if x != [] {
      var r := Incremented(x, bound, 1);
      var b := bound[0];
      var m := MixedRadix(x[1..], bound[1..]);
      var p := Product(bound[1..]);
      MixedRadixBound(x[1..], bound[1..]);
      assert MixedRadix(x, bound) == x[0] + b * m;
      assert Product(bound) == b * p;
      if x[0] + 1 < b {
        assert r[1..] == x[1..];
        MulStrict(b, m, p);
      } else {
        var t := Incremented(x[1..], bound[1..], 1);
        assert r == [0] + t && r[1..] == t;
        IncrementIsOdometer(x[1..], bound[1..]);
        CarryArith(x[0], b, m, p);
        if m + 1 >= p {
          assert r == Zeros(|x|) by {
            assert t == Zeros(|x| - 1);
          }
        }
      }
    }
  }

  /** The carry into the next component: x0 + b*m + 1 is b*(m+1), which reaches b*p exactly when m+1 reaches p. */
  lemma {:induction false} CarryArith(x0: int, b: int, m: int, p: int)
    requires 0 <= x0 < b && x0 + 1 >= b && 0 <= m < p
    ensures x0 + b * m + 1 == b * (m + 1)
    ensures m + 1 < p ==> x0 + b * m + 1 < b * p
    ensures m + 1 >= p ==> x0 + b * m + 1 >= b * p
  {
    assert b * (m + 1) == b * m + b;
    if m + 1 < p {
      MulStrict(b, m + 1, p);
    } else {
      MulLess(b, p, m + 1);
    }
  }

  /** b*m + c < b*p when 0 <= c < b and m < p. */
  lemma {:induction false} MulStrict(b: int, m: int, p: int)
    requires b > 0 && 0 <= m < p
    ensures b * m + b <= b * p
    ensures b * m < b * p
  {
    NonNegMul(b, p - m - 1);
    assert b * p == b * m + b + b * (p - m - 1);
  }

  lemma {:induction false} MulLess(b: int, u: int, v: int)
    requires b > 0 && u <= v
    ensures b * u <= b * v
  {
    NonNegMul(b, v - u);
    assert b * v == b * u + b * (v - u);
  }

  // ---------------------------------------------------------------------
  // Stream input and output
  // ---------------------------------------------------------------------

  /** A lexical token of a text stream: an integer or a punctuation mark. */
  datatype Token = Num(value: int) | Sym(c: char)

  /** `out << id` produces `( a, b, ... )`. */
  function Write(x: MultiIndex): (ts: seq<Token>)
    requires |x| >= 1
  {
    [Sym('('), Num(x[0])] + WriteTail(x[1..]) + [Sym(')')]
  }

  function WriteTail(xs: seq<int>): seq<Token>
  {
    if xs == [] then [] else [Sym(','), Num(xs[0])] + WriteTail(xs[1..])
  }

  /**
   * `in >> m`: matches `(`, reads dim integers separated by `,` and matches
   * `)`.  On success the parsed index and the unread tokens are returned.
   */
  function Read(ts: seq<Token>, dim: nat): (r: Option<(MultiIndex, seq<Token>)>)
    requires dim >= 1
    ensures r.Some? ==> |r.value.0| == dim && |r.value.1| < |ts|
  {
    if |ts| >= 2 && ts[0] == Sym('(') && ts[1].Num? then
      match ReadTail(ts[2..], dim - 1)
      case None => None
      case Some((xs, rest)) =>
        if |rest| >= 1 && rest[0] == Sym(')') then Some(([ts[1].value] + xs, rest[1..]))
        else None
    else None
  }

  function ReadTail(ts: seq<Token>, n: nat): (r: Option<(seq<int>, seq<Token>)>)
    ensures r.Some? ==> |r.value.0| == n && |r.value.1| <= |ts|
  {
    if n == 0 then Some(([], ts))
    else if |ts| >= 2 && ts[0] == Sym(',') && ts[1].Num? then
      match ReadTail(ts[2..], n - 1)
      case None => None
      case Some((xs, rest)) => Some(([ts[1].value] + xs, rest))
    else None
  }

  /** The stream operator assigns the target only if the whole read succeeded. */
  function ReadInto(target: MultiIndex, ts: seq<Token>): (r: MultiIndex)
    requires |target| >= 1
    ensures Read(ts, |target|).None? ==> r == target
    ensures Read(ts, |target|).Some? ==> r == Read(ts, |target|).value.0
    ensures |r| == |target|
  {
    match Read(ts, |target|)
    case None => target
    case Some((m, _)) => m
  }

  lemma {:induction false} ReadTailWriteTail(xs: seq<int>, rest: seq<Token>)
    ensures ReadTail(WriteTail(xs) + rest, |xs|) == Some((xs, rest))
  {
    if xs == [] {
      assert WriteTail(xs) + rest == rest;
    } else {
      var tail := WriteTail(xs[1..]) + rest;
      assert WriteTail(xs) + rest == [Sym(','), Num(xs[0])] + tail;
      ReadTailWriteTail(xs[1..], rest);
      ReadTailStep(xs[0], tail, xs[1..], rest);
      assert [xs[0]] + xs[1..] == xs;
    }
  }

  /** One more `, value` in front of a readable tail. */
  lemma {:induction false} ReadTailStep(v: int, tail: seq<Token>, ys: seq<int>, rest: seq<Token>)
    requires ReadTail(tail, |ys|) == Some((ys, rest))
    ensures ReadTail([Sym(','), Num(v)] + tail, |ys| + 1) == Some(([v] + ys, rest))
  {
    assert ([Sym(','), Num(v)] + tail)[2..] == tail;
  }

  /** Print-then-read is the identity and consumes exactly the printed tokens. */
  lemma {:induction false} ReadWrite(x: MultiIndex, rest: seq<Token>)
    requires |x| >= 1
    ensures Read(Write(x) + rest, |x|) == Some((x, rest))
  {
    var ts := Write(x) + rest;
    assert ts[2..] == WriteTail(x[1..]) + ([Sym(')')] + rest);
    ReadTailWriteTail(x[1..], [Sym(')')] + rest);
    assert [x[0]] + x[1..] == x;
  }

  // ---------------------------------------------------------------------
  // In-place operators on the fixed-size index array
  // ---------------------------------------------------------------------

  /** `id += other`. */
  method AddAssign(index: array<int>, other: seq<int>)
    requires index.Length == |other|
    modifies index
    ensures index[..] == Add(old(index[..]), other)
  {
    for i := 0 to index.Length
      invariant index[..i] == Add(old(index[..]), other)[..i]
      invariant index[i..] == old(index[..])[i..]
    {
      index[i] := index[i] + other[i];
    }
  }

  /** `id -= other`. */
  method SubAssign(index: array<int>, other: seq<int>)
    requires index.Length == |other|
    modifies index
    ensures index[..] == Sub(old(index[..]), other)
  {
    for i := 0 to index.Length
      invariant index[..i] == Sub(old(index[..]), other)[..i]
      invariant index[i..] == old(index[..])[i..]
    {
      index[i] := index[i] - other[i];
    }
  }

  /** `id *= a`. */
  method ScaleAssign(index: array<int>, a: int)
    modifies index
    ensures index[..] == Scale(old(index[..]), a)
  {
    for i := 0 to index.Length
      invariant index[..i] == Scale(old(index[..]), a)[..i]
      invariant index[i..] == old(index[..])[i..]
    {
      index[i] := index[i] * a;
    }
  }

  /** `id.axpy(a, other)`. */
  method AxpyAssign(index: array<int>, a: int, other: seq<int>)
    requires index.Length == |other|
    modifies index
    ensures index[..] == Axpy(old(index[..]), a, other)
  {
    for i := 0 to index.Length
      invariant index[..i] == Axpy(old(index[..]), a, other)[..i]
      invariant index[i..] == old(index[..])[i..]
    {
      index[i] := index[i] + a * other[i];
    }
  }

  /** `id.clear()`. */
  method Clear(index: array<int>)
    modifies index
    ensures index[..] == Zeros(index.Length)
  {
    for i := 0 to index.Length
      invariant index[..i] == Zeros(index.Length)[..i]
    {
      index[i] := 0;
    }
  }

  /** `SPMultiIndex::zero()`. */
  method Zero(dim: nat) returns (index: array<int>)
    ensures fresh(index) && index[..] == Zeros(dim)
  {
    index := new int[dim];
    Clear(index);
  }

  /** The loop of `increment`, from component i on. */
  function IncrementFrom(x: MultiIndex, bound: MultiIndex, k: int, i: nat): (r: MultiIndex)
    requires |x| == |bound| && i <= |x|
    ensures |r| == |x|
    decreases |x| - i
  {
    if i == |x| then x
    else if x[i] + k < bound[i] then x[i := x[i] + k]
    else IncrementFrom(x[i := 0], bound, k, i + 1)
  }

  lemma {:induction false} IncrementFromSplit(x: MultiIndex, bound: MultiIndex, k: int, i: nat)
    requires |x| == |bound| && i <= |x|
    ensures IncrementFrom(x, bound, k, i) == x[..i] + Incremented(x[i..], bound[i..], k)
    decreases |x| - i
  {
    if i == |x| {
      assert x[..i] == x;
    } else if x[i] + k < bound[i] {
      assert x[i..][1..] == x[i + 1..];
      assert x[i := x[i] + k] == x[..i] + [x[i] + k] + x[i + 1..];
    } else {
      var y := x[i := 0];
      IncrementFromSplit(y, bound, k, i + 1);
      assert y[..i + 1] == x[..i] + [0];
      assert y[i + 1..] == x[i + 1..] == x[i..][1..];
      assert bound[i + 1..] == bound[i..][1..];
    }
  }

  /** `id.increment(bound, k)`. */
  method Increment(index: array<int>, bound: seq<int>, k: int)
    requires index.Length == |bound|
    modifies index
    ensures index[..] == Incremented(old(index[..]), bound, k)
  {
    ghost var x := old(index[..]);
    IncrementFromSplit(x, bound, k, 0);
    assert x[..0] + Incremented(x[0..], bound[0..], k) == Incremented(x, bound, k);
    var i := 0;
    while i < index.Length
      invariant 0 <= i <= index.Length
      invariant IncrementFrom(index[..], bound, k, i) == Incremented(x, bound, k)
      decreases index.Length - i
    {
      ghost var before := index[..];
      index[i] := index[i] + k;
      if index[i] < bound[i] {
        assert index[..] == before[i := before[i] + k];
        return;
      }
      index[i] := 0;
      assert index[..] == before[i := 0];
      i := i + 1;
    }
  }

  /** `id == other`. */
  method Equals(index: array<int>, other: array<int>) returns (equals: bool)
    requires index.Length == other.Length
    ensures equals <==> index[..] == other[..]
  {
    equals := true;
    for i := 0 to index.Length
      invariant equals <==> index[..i] == other[..i]
    {
      assert index[..i + 1] == index[..i] + [index[i]];
      assert other[..i + 1] == other[..i] + [other[i]];
      equals := equals && index[i] == other[i];
    }
    assert index[..] == index[..index.Length];
    assert other[..] == other[..other.Length];
  }

  /** `id != other`, accumulated separately in the source. */
  method NotEquals(index: array<int>, other: array<int>) returns (differs: bool)
    requires index.Length == other.Length
    ensures differs <==> index[..] != other[..]
  {
    differs := false;
    for i := 0 to index.Length
      invariant differs <==> index[..i] != other[..i]
    {
      assert index[..i + 1] == index[..i] + [index[i]];
      assert other[..i + 1] == other[..i] + [other[i]];
      differs := differs || index[i] != other[i];
    }
    assert index[..] == index[..index.Length];
    assert other[..] == other[..other.Length];
  }

  /** `id.codimension()`. */
  method Codimension(index: array<int>) returns (codim: int)
    ensures codim == CodimensionOf(index[..])
    ensures 0 <= codim <= index.Length
  {
    codim := index.Length;
    for i := 0 to index.Length
      invariant codim == index.Length - OddCount(index[..i])
    {
      assert index[..i + 1] == index[..i] + [index[i]];
      OddCountSnoc(index[..i], index[i]);
      codim := codim - index[i] % 2;
    }
    assert index[..] == index[..index.Length];
    OddCountBound(index[..]);
  }

  /** `id.direction()`. */
  method Direction(index: array<int>) returns (dir: nat)
    ensures dir == DirectionOf(index[..])
    ensures forall i :: 0 <= i < index.Length ==> Bit(dir, i) == index[i] % 2
  {
    dir := 0;
    for i := 0 to index.Length
      invariant dir == DirectionOf(index[..i])
    {
      assert index[..i + 1] == index[..i] + [index[i]];
      DirectionSnoc(index[..i], index[i]);
      dir := dir + (index[i] % 2) * Pow2(i);
    }
    assert index[..] == index[..index.Length];
    forall i | 0 <= i < index.Length ensures Bit(dir, i) == index[i] % 2 {
      DirectionBits(index[..], i);
    }
  }

  /** `a + b`: copy a, then add b in place. */
  method Plus(a: array<int>, b: array<int>) returns (c: array<int>)
    requires a.Length == b.Length
    ensures fresh(c) && c[..] == Add(a[..], b[..])
  {
    c := new int[a.Length](i requires 0 <= i < a.Length reads a => a[i]);
    assert c[..] == a[..];
    AddAssign(c, b[..]);
  }

  /** `a - b`: copy a, then subtract b in place. */
  method Minus(a: array<int>, b: array<int>) returns (c: array<int>)
    requires a.Length == b.Length
    ensures fresh(c) && c[..] == Sub(a[..], b[..])
  {
    c := new int[a.Length](i requires 0 <= i < a.Length reads a => a[i]);
    assert c[..] == a[..];
    SubAssign(c, b[..]);
  }
}
