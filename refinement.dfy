// SPDefaultRefinement, SPBinaryRefinement and SPBisectionRefinement: the
// index arithmetic between an element of one level and its children on the
// next level.
//
// An element is a multi-index with every component odd: cell j along an
// axis has id 2j+1.  Refining by a factor a along an axis turns cell j into
// the cells a*j .. a*j + a - 1, so its children have ids 2(a*j + r) + 1 for
// the child digits 0 <= r < a.  The child number k of an element is the
// mixed-radix number of its digits, axis 0 lowest.
//
// The operations work on the factors `f` of a refinement, f[i] = factor(i).

module Refinements {
  import opened Bits
  import opened MultiIndices
  import opened Policies

  predicate ValidFactors(f: seq<int>)
  {
    forall i :: 0 <= i < |f| ==> f[i] >= 1
  }

  /** An element (codimension 0) id: every component odd. */
  predicate IsElement(x: MultiIndex)
  {
    forall i :: 0 <= i < |x| ==> x[i] % 2 == 1
  }

  // ---------------------------------------------------------------------
  // One axis
  // ---------------------------------------------------------------------

  /** `((id / alpha) & ~1) | (id & 1)`. */
  function FatherComponent(x: int, a: int): int
    requires a >= 1
  {
    var q := x / a;
    (q - q % 2) + x % 2
  }

  /** `((id + r) * alpha) - (alpha - 1)`, the component `child` computes for digit r. */
  function ChildAsWrittenComponent(x: int, a: int, r: int): int
  {
    (x + r) * a - (a - 1)
  }

  /** The id 2(a*j + r) + 1 of child digit r of cell j, where x = 2j + 1. */
  function ChildComponent(x: int, a: int, r: int): int
  {
    a * (x - 1) + 2 * r + 1
  }

  /** `(alpha * (id & ~1)) | (id & 1)`. */
  function FirstChildComponent(x: int, a: int): int
  {
    a * (x - x % 2) + x % 2
  }

  /** `alpha * id - alpha / 2`, the first child of SPBinaryRefinement. */
  function BinaryFirstChildComponent(x: int, a: int): int
  {
    a * x - a / 2
  }

  /** `id ^ 2`: bit 1 toggled. */
  function Toggle2(c: int): int
  {
    if (c / 2) % 2 == 1 then c - 2 else c + 2
  }

  /** `(id & 2) != 0`. */
  predicate HasBit1(c: int)
  {
    (c / 2) % 2 == 1
  }

  lemma {:induction false} ChildComponentShape(x: int, a: int, r: int)
    requires x % 2 == 1
    ensures ChildComponent(x, a, r) == 2 * (a * ((x - 1) / 2)) + 2 * r + 1
  {
    var j := (x - 1) / 2;
    assert x - 1 == 2 * j;
    assert a * (x - 1) == 2 * (a * j);
  }

  /** The father of a child is the element itself. */
  lemma {:induction false} FatherOfChildComponent(x: int, a: int, r: int)
    requires x % 2 == 1 && a >= 1 && 0 <= r < a
    ensures FatherComponent(ChildComponent(x, a, r), a) == x
  {
    var j := (x - 1) / 2;
    ChildComponentShape(x, a, r);
    var c := ChildComponent(x, a, r);
    var t := 2 * r + 1;
    DivModUnique(c, 2, a * j + r, 1);
    if t < a {
      assert c == a * (2 * j) + t;
      DivModUnique(c, a, 2 * j, t);
      DivModUnique(2 * j, 2, j, 0);
    } else {
      assert c == a * (2 * j + 1) + (t - a);
      DivModUnique(c, a, 2 * j + 1, t - a);
      DivModUnique(2 * j + 1, 2, j, 1);
    }
  }

  /** The child digit `(id >> 1) % alpha` of a child is its digit r. */
  lemma {:induction false} DigitOfChildComponent(x: int, a: int, r: int)
    requires x % 2 == 1 && a >= 1 && 0 <= r < a
    ensures (ChildComponent(x, a, r) / 2) % a == r
    ensures ChildComponent(x, a, r) % 2 == 1
  {
    var j := (x - 1) / 2;
    ChildComponentShape(x, a, r);
    var c := ChildComponent(x, a, r);
    DivModUnique(c, 2, a * j + r, 1);
    DivModUnique(a * j + r, a, j, r);
  }

  /**
   * One step of the default `nextChild` on a child: id + 2 is still a
   * child of the same element iff the digit can grow; otherwise id + 2 - 2a
   * is the child with digit 0.
   */
  lemma {:induction false} NextChildComponent(x: int, a: int, r: int)
    requires x % 2 == 1 && a >= 1 && 0 <= r < a
    ensures var c := ChildComponent(x, a, r) + 2;
            var m := c % (2 * a);
            (m - m % 2 != 0 <==> r + 1 < a)
            && (r + 1 < a ==> c == ChildComponent(x, a, r + 1))
            && (r + 1 == a ==> c - 2 * a == ChildComponent(x, a, 0))
  {
    var j := (x - 1) / 2;
    ChildComponentShape(x, a, r);
    ChildComponentShape(x, a, r + 1);
    ChildComponentShape(x, a, 0);
    var c := ChildComponent(x, a, r) + 2;
    assert (2 * a) * j == 2 * (a * j);
    if r + 1 < a {
      DivModUnique(c, 2 * a, j, 2 * r + 3);
      DivModUnique(2 * r + 3, 2, r + 1, 1);
    } else {
      assert c == (2 * a) * (j + 1) + 1;
      DivModUnique(c, 2 * a, j + 1, 1);
    }
  }

  /** For factors 1 and 2 the child formula as written is the intended one. */
  lemma {:induction false} ChildAsWrittenSmallFactor(x: int, a: int, r: int)
    requires (a == 1 || a == 2) && 0 <= r < a
    ensures ChildAsWrittenComponent(x, a, r) == ChildComponent(x, a, r)
  {
  }

  // ---------------------------------------------------------------------
  // Child numbers and their digits
  // ---------------------------------------------------------------------

  /** The digits `index % alpha` that `child` peels off while dividing index by each factor. */
  function Digits(f: seq<int>, k: int): (d: seq<int>)
    requires ValidFactors(f) && k >= 0
    ensures |d| == |f| && InRange(d, f)
  {
    if |f| == 0 then []
    else
      var t := Digits(f[1..], k / f[0]);
      assert forall i :: 0 <= i < |t| ==> 0 <= t[i] < f[i + 1];
      [k % f[0]] + t
  }

  lemma {:induction false} DivBelow(k: int, a: int, p: int)
    requires 0 <= k < a * p && a >= 1
    ensures 0 <= k / a < p
    ensures k == a * (k / a) + k % a
  {
    assert k == a * (k / a) + k % a;
    if k / a >= p {
      MulLess(a, p, k / a);
    }
  }

  /** The digits of a child number below numChildren spell that number. */
  lemma {:induction false} MixedRadixOfDigits(f: seq<int>, k: int)
    requires ValidFactors(f) && 0 <= k < Product(f)
    ensures MixedRadix(Digits(f, k), f) == k
  {
    if |f| > 0 {
      var q := k / f[0];
      var d := Digits(f, k);
      DivBelow(k, f[0], Product(f[1..]));
      MixedRadixOfDigits(f[1..], q);
      assert d[0] == k % f[0] && d[1..] == Digits(f[1..], q);
      assert MixedRadix(d, f) == d[0] + f[0] * MixedRadix(d[1..], f[1..]);
    }
  }

  /** In-range digits are the digits of their mixed-radix number. */
  lemma {:induction false} DigitsOfMixedRadix(f: seq<int>, d: seq<int>)
    requires ValidFactors(f) && |d| == |f| && InRange(d, f)
    ensures MixedRadix(d, f) >= 0 && Digits(f, MixedRadix(d, f)) == d
  {
    MixedRadixBound(d, f);
    if |f| > 0 {
      var m := MixedRadix(d[1..], f[1..]);
      MixedRadixBound(d[1..], f[1..]);
      DivModUnique(MixedRadix(d, f), f[0], m, d[0]);
      DigitsOfMixedRadix(f[1..], d[1..]);
    }
  }

  lemma {:induction false} DigitsOfZero(f: seq<int>)
    requires ValidFactors(f)
    ensures Digits(f, 0) == Zeros(|f|)
  {
    if |f| > 0 {
      DigitsOfZero(f[1..]);
    }
  }

  // ---------------------------------------------------------------------
  // SPDefaultRefinement on whole multi-indices
  // ---------------------------------------------------------------------

  /** `father(id)`. */
  function FatherOf(f: seq<int>, x: MultiIndex): (r: MultiIndex)
    requires |f| == |x| && ValidFactors(f)
    ensures |r| == |x|
  {
    seq(|x|, i requires 0 <= i < |x| => FatherComponent(x[i], f[i]))
  }

  /** The children of x with digit vector d. */
  function Children(f: seq<int>, x: MultiIndex, d: seq<int>): (r: MultiIndex)
    requires |f| == |x| == |d|
    ensures |r| == |x|
  {
    seq(|x|, i requires 0 <= i < |x| => ChildComponent(x[i], f[i], d[i]))
  }

  /** Child number k of the element x. */
  function ChildOf(f: seq<int>, x: MultiIndex, k: int): (r: MultiIndex)
    requires |f| == |x| && ValidFactors(f) && k >= 0
    ensures |r| == |x|
  {
    Children(f, x, Digits(f, k))
  }

  /** `child(id, index)` as the source computes it. */
  function ChildAsWrittenOf(f: seq<int>, x: MultiIndex, k: int): (r: MultiIndex)
    requires |f| == |x| && ValidFactors(f) && k >= 0
    ensures |r| == |x|
  {
    var d := Digits(f, k);
    seq(|x|, i requires 0 <= i < |x| => ChildAsWrittenComponent(x[i], f[i], d[i]))
  }

  /** The digits `(id >> 1) % alpha` read by `childIndex`. */
  function ChildDigits(f: seq<int>, x: MultiIndex): (d: seq<int>)
    requires |f| == |x| && ValidFactors(f)
    ensures |d| == |x| && InRange(d, f)
  {
    seq(|x|, i requires 0 <= i < |x| => (x[i] / 2) % f[i])
  }

  /**
   * `childIndex(id)`: the mixed-radix number of the child digits (the
   * source evaluates it by Horner's rule from the last axis down); it is
   * below numChildren, as the source asserts.
   */
  function ChildIndexOf(f: seq<int>, x: MultiIndex): (k: nat)
    requires |f| == |x| && ValidFactors(f)
    ensures k < Product(f)
  {
    MixedRadixBound(ChildDigits(f, x), f);
    MixedRadix(ChildDigits(f, x), f)
  }

  /** `firstChild(id)`. */
  function FirstChildOf(f: seq<int>, x: MultiIndex): (r: MultiIndex)
    requires |f| == |x|
    ensures |r| == |x|
  {
    seq(|x|, i requires 0 <= i < |x| => FirstChildComponent(x[i], f[i]))
  }

  /**
   * `nextChild(id)`: component i moves by 2; if it stays inside the
   * father it is done (true), otherwise it is moved back by 2*alpha and the
   * next axis is tried.  False after the last axis.
   */
  function NextChildSeq(f: seq<int>, y: MultiIndex): (r: (MultiIndex, bool))
    requires |f| == |y| && ValidFactors(f)
    ensures |r.0| == |y|
  {
    if |f| == 0 then (y, false)
    else
      var c := y[0] + 2;
      var m := c % (2 * f[0]);
      if m - m % 2 != 0 then ([c] + y[1..], true)
      else
        var t := NextChildSeq(f[1..], y[1..]);
        ([c - 2 * f[0]] + t.0, t.1)
  }

  /** `isCopy(id)`: every refined axis has id[i] divisible by 2*alpha. */
  predicate IsCopyOf(f: seq<int>, x: MultiIndex)
    requires |f| == |x| && ValidFactors(f)
  {
    forall i :: 0 <= i < |x| ==> f[i] == 1 || x[i] % (2 * f[i]) == 0
  }

  // ---------------------------------------------------------------------
  // Properties of the default refinement
  // ---------------------------------------------------------------------

  lemma {:induction false} ChildrenAreElements(f: seq<int>, x: MultiIndex, d: seq<int>)
    requires |f| == |x| == |d| && ValidFactors(f) && IsElement(x) && InRange(d, f)
    ensures IsElement(Children(f, x, d))
  {
    forall i | 0 <= i < |x| ensures Children(f, x, d)[i] % 2 == 1 {
      DigitOfChildComponent(x[i], f[i], d[i]);
    }
  }

  /** `father(child(id, k)) == id`: every child of an element has that element as father. */
  lemma {:induction false} FatherOfChild(f: seq<int>, x: MultiIndex, k: int)
    requires |f| == |x| && ValidFactors(f) && IsElement(x) && k >= 0
    ensures FatherOf(f, ChildOf(f, x, k)) == x
    ensures IsElement(ChildOf(f, x, k))
  {
    var d := Digits(f, k);
    ChildrenAreElements(f, x, d);
    forall i | 0 <= i < |x| ensures FatherOf(f, ChildOf(f, x, k))[i] == x[i] {
      FatherOfChildComponent(x[i], f[i], d[i]);
    }
  }

  /** `childIndex(child(id, k)) == k` for every k below numChildren. */
  lemma {:induction false} ChildIndexOfChild(f: seq<int>, x: MultiIndex, k: int)
    requires |f| == |x| && ValidFactors(f) && IsElement(x) && 0 <= k < Product(f)
    ensures ChildIndexOf(f, ChildOf(f, x, k)) == k
  {
    var d := Digits(f, k);
    var c := ChildOf(f, x, k);
    forall i | 0 <= i < |x| ensures ChildDigits(f, c)[i] == d[i] {
      DigitOfChildComponent(x[i], f[i], d[i]);
    }
    assert ChildDigits(f, c) == d;
    MixedRadixOfDigits(f, k);
  }

  /** Distinct child numbers give distinct children. */
  lemma {:induction false} ChildInjective(f: seq<int>, x: MultiIndex, k: int, l: int)
    requires |f| == |x| && ValidFactors(f) && IsElement(x)
    requires 0 <= k < Product(f) && 0 <= l < Product(f)
    requires ChildOf(f, x, k) == ChildOf(f, x, l)
    ensures k == l
  {
    ChildIndexOfChild(f, x, k);
    ChildIndexOfChild(f, x, l);
  }

  /** `firstChild(id)` is child number 0. */
  lemma {:induction false} FirstChildIsChildZero(f: seq<int>, x: MultiIndex)
    requires |f| == |x| && ValidFactors(f) && IsElement(x)
    ensures FirstChildOf(f, x) == ChildOf(f, x, 0)
  {
    DigitsOfZero(f);
  }

  /** On one axis, an element cell is the child with digit `(x >> 1) % alpha` of its father. */
  lemma {:induction false} ComponentIsChildOfFather(x: int, a: int)
    requires x % 2 == 1 && a >= 1
    ensures FatherComponent(x, a) % 2 == 1
    ensures ChildComponent(FatherComponent(x, a), a, (x / 2) % a) == x
  {
    var j := x / 2;
    var m, r := j / a, j % a;
    assert j == a * m + r;
    assert x == 2 * j + 1;
    var q := x / a;
    if 2 * r + 1 < a {
      assert x == a * (2 * m) + (2 * r + 1);
      DivModUnique(x, a, 2 * m, 2 * r + 1);
      assert q == 2 * m;
    } else {
      assert x == a * (2 * m + 1) + (2 * r + 1 - a);
      DivModUnique(x, a, 2 * m + 1, 2 * r + 1 - a);
      assert q == 2 * m + 1;
    }
    assert FatherComponent(x, a) == 2 * m + 1;
    assert ChildComponent(2 * m + 1, a, r) == a * (2 * m) + 2 * r + 1;
  }

  /**
   * Every element is the child of its father numbered by its own child
   * index: `child(father(id), childIndex(id)) == id`, and the father is an
   * element.
   */
  lemma {:induction false} ElementIsChildOfFather(f: seq<int>, y: MultiIndex)
    requires |f| == |y| && ValidFactors(f) && IsElement(y)
    ensures IsElement(FatherOf(f, y))
    ensures ChildOf(f, FatherOf(f, y), ChildIndexOf(f, y)) == y
  {
    var d := ChildDigits(f, y);
    DigitsOfMixedRadix(f, d);
    var x := FatherOf(f, y);
    forall i | 0 <= i < |y|
      ensures x[i] % 2 == 1 && Children(f, x, d)[i] == y[i]
    {
      ComponentIsChildOfFather(y[i], f[i]);
    }
    assert Children(f, x, d) == y;
  }

  /** Whether incrementing the digits leaves some digit below its factor (no wrap-around). */
  function IncrementStays(d: seq<int>, f: seq<int>): bool
    requires |d| == |f|
  {
    if |d| == 0 then false
    else if d[0] + 1 < f[0] then true
    else IncrementStays(d[1..], f[1..])
  }

  lemma {:induction false} IncrementStaysBelow(d: seq<int>, f: seq<int>)
    requires |d| == |f| && ValidFactors(f) && InRange(d, f)
    ensures IncrementStays(d, f) <==> MixedRadix(d, f) + 1 < Product(f)
  {
    if |d| > 0 {
      var a := f[0];
      var m := MixedRadix(d[1..], f[1..]);
      var p := Product(f[1..]);
      MixedRadixBound(d[1..], f[1..]);
      IncrementStaysBelow(d[1..], f[1..]);
      assert MixedRadix(d, f) == d[0] + a * m && Product(f) == a * p;
      if d[0] + 1 < a {
        MulLess(a, m + 1, p);
        assert a * (m + 1) == a * m + a;
      } else {
        assert d[0] + 1 + a * m == a * (m + 1);
        if m + 1 < p {
          MulStrict(a, m + 1, p);
        }
      }
    }
  }

  /** nextChild on a child adds one to its digits, as an odometer. */
  lemma {:induction false} NextChildOfChildren(f: seq<int>, x: MultiIndex, d: seq<int>)
    requires |f| == |x| == |d| && ValidFactors(f) && IsElement(x) && InRange(d, f)
    ensures NextChildSeq(f, Children(f, x, d)) == (Children(f, x, Incremented(d, f, 1)), IncrementStays(d, f))
  {
    if |f| > 0 {
      if d[0] + 1 < f[0] {
        NextChildNoCarry(f, x, d);
      } else {
        NextChildOfChildren(f[1..], x[1..], d[1..]);
        NextChildCarry(f, x, d);
      }
    }
  }

  /** The first digit can be incremented: only the first component moves on. */
  lemma {:induction false} NextChildNoCarry(f: seq<int>, x: MultiIndex, d: seq<int>)
    requires |f| == |x| == |d| > 0 && ValidFactors(f) && IsElement(x) && InRange(d, f)
    requires d[0] + 1 < f[0]
    ensures NextChildSeq(f, Children(f, x, d)) == (Children(f, x, Incremented(d, f, 1)), IncrementStays(d, f))
  {
    var y := Children(f, x, d);
    NextChildComponent(x[0], f[0], d[0]);
    assert y[0] == ChildComponent(x[0], f[0], d[0]);
    assert Children(f, x, Incremented(d, f, 1)) == [ChildComponent(x[0], f[0], d[0] + 1)] + y[1..];
  }

  /** nextChild when the first component does not stop: it steps back by 2*alpha and the rest moves on. */
  lemma {:induction false} NextChildSeqCarry(f: seq<int>, y: MultiIndex)
    requires |f| == |y| > 0 && ValidFactors(f)
    requires ghost var m := (y[0] + 2) % (2 * f[0]); m - m % 2 == 0
    ensures NextChildSeq(f, y) == ([y[0] + 2 - 2 * f[0]] + NextChildSeq(f[1..], y[1..]).0, NextChildSeq(f[1..], y[1..]).1)
  {
  }

  /** The children of x split into the first component and the children of the tail. */
  lemma {:induction false} ChildrenSplit(f: seq<int>, x: MultiIndex, d: seq<int>)
    requires |f| == |x| == |d| > 0
    ensures Children(f, x, d) == [ChildComponent(x[0], f[0], d[0])] + Children(f[1..], x[1..], d[1..])
  {
    var r := [ChildComponent(x[0], f[0], d[0])] + Children(f[1..], x[1..], d[1..]);
    forall i | 0 <= i < |x|
      ensures Children(f, x, d)[i] == r[i]
    {
      if i > 0 {
        assert r[i] == Children(f[1..], x[1..], d[1..])[i - 1];
      }
    }
  }

  /** The first digit wraps round to 0 and the rest of the id moves on as the tail digits do. */
  lemma {:induction false} NextChildCarry(f: seq<int>, x: MultiIndex, d: seq<int>)
    requires |f| == |x| == |d| > 0 && ValidFactors(f) && IsElement(x) && InRange(d, f)
    requires d[0] + 1 >= f[0]
    requires NextChildSeq(f[1..], Children(f[1..], x[1..], d[1..]))
             == (Children(f[1..], x[1..], Incremented(d[1..], f[1..], 1)), IncrementStays(d[1..], f[1..]))
    ensures NextChildSeq(f, Children(f, x, d)) == (Children(f, x, Incremented(d, f, 1)), IncrementStays(d, f))
  {
    var y := Children(f, x, d);
    assert x[0] % 2 == 1 && d[0] + 1 == f[0];
    ChildrenSplit(f, x, d);
    NextChildComponent(x[0], f[0], d[0]);
    NextChildSeqCarry(f, y);
    var inc := Incremented(d[1..], f[1..], 1);
    assert Incremented(d, f, 1) == [0] + inc;
    ChildrenSplit(f, x, [0] + inc);
    assert ([0] + inc)[1..] == inc;
  }

  /** nextChild moves child k to child k+1 (true), and the last child back to child 0 (false). */
  lemma {:induction false} NextChildOfChild(f: seq<int>, x: MultiIndex, k: int)
    requires |f| == |x| && ValidFactors(f) && IsElement(x) && 0 <= k < Product(f)
    ensures NextChildSeq(f, ChildOf(f, x, k))
            == if k + 1 < Product(f) then (ChildOf(f, x, k + 1), true) else (ChildOf(f, x, 0), false)
  {
    var d := Digits(f, k);
    NextChildOfChildren(f, x, d);
    MixedRadixOfDigits(f, k);
    IncrementStaysBelow(d, f);
    IncrementIsOdometer(d, f);
    var inc := Incremented(d, f, 1);
    if k + 1 < Product(f) {
      DigitsOfMixedRadix(f, inc);
    } else {
      DigitsOfZero(f);
    }
  }

  /** n successive calls of nextChild: the final id and the results in call order. */
  function Run(f: seq<int>, y: MultiIndex, n: nat): (r: (MultiIndex, seq<bool>))
    requires |f| == |y| && ValidFactors(f)
    ensures |r.1| == n
    decreases n
  {
    if n == 0 then (y, [])
    else
      var step := NextChildSeq(f, y);
      var rest := Run(f, step.0, n - 1);
      (rest.0, [step.1] + rest.1)
  }

  /** n answers true. */
  function Trues(n: nat): (r: seq<bool>)
    ensures |r| == n && forall i :: 0 <= i < n ==> r[i]
  {
    if n == 0 then [] else [true] + Trues(n - 1)
  }

  /** From child k, nextChild answers true until the last child and then false, back at child 0. */
  lemma {:induction false} ChildCycle(f: seq<int>, x: MultiIndex, k: int)
    requires |f| == |x| && ValidFactors(f) && IsElement(x) && 0 <= k < Product(f)
    ensures Run(f, ChildOf(f, x, k), Product(f) - k).0 == ChildOf(f, x, 0)
    ensures Run(f, ChildOf(f, x, k), Product(f) - k).1 == Trues(Product(f) - k - 1) + [false]
    decreases Product(f) - k
  {
    var p := Product(f);
    var here := ChildOf(f, x, k);
    var first := ChildOf(f, x, 0);
    NextChildOfChild(f, x, k);
    var run := Run(f, here, p - k);
    if k + 1 < p {
      var next := ChildOf(f, x, k + 1);
      assert NextChildSeq(f, here) == (next, true);
      var rest := Run(f, next, p - k - 1);
      assert run == (rest.0, [true] + rest.1);
      ChildCycle(f, x, k + 1);
      assert Trues(p - k - 1) == [true] + Trues(p - k - 2);
    } else {
      assert NextChildSeq(f, here) == (first, false);
      assert run == (Run(f, first, 0).0, [false] + Run(f, first, 0).1);
    }
  }

  /** Starting from firstChild, nextChild returns true numChildren-1 times and then false with the first child restored. */
  lemma {:induction false} FirstChildCycle(f: seq<int>, x: MultiIndex)
    requires |f| == |x| && ValidFactors(f) && IsElement(x)
    ensures Product(f) >= 1
    ensures Run(f, FirstChildOf(f, x), Product(f)).0 == FirstChildOf(f, x)
    ensures Run(f, FirstChildOf(f, x), Product(f)).1 == Trues(Product(f) - 1) + [false]
  {
    ProductPositive(f);
    FirstChildIsChildZero(f, x);
    ChildCycle(f, x, 0);
  }

  // ---------------------------------------------------------------------
  // The child formula as written (see the findings in README.md)
  // ---------------------------------------------------------------------

  /** For factors 1 and 2 the source's child formula gives the intended children. */
  lemma {:induction false} ChildAsWrittenBinary(f: seq<int>, x: MultiIndex, k: int)
    requires |f| == |x| && ValidFactors(f) && k >= 0
    requires forall i :: 0 <= i < |f| ==> f[i] <= 2
    ensures ChildAsWrittenOf(f, x, k) == ChildOf(f, x, k)
  {
  }

  /** With factor 3, child 1 of cell 0 (id 1) comes out as the even id 4, whose father is not id 1. */
  lemma {:induction false} ChildAsWrittenFactorThree()
    ensures ChildAsWrittenOf([3], [1], 1) == [4]
    ensures !IsElement([4]) && FatherOf([3], [4]) == [0]
  {
    var d := Digits([3], 1);
    assert d == [1 % 3] + Digits([], 1 / 3);
    var w := ChildAsWrittenOf([3], [1], 1);
    assert w[0] == ChildAsWrittenComponent(1, 3, 1) == 4;
    var e := FatherOf([3], [4]);
    assert e[0] == FatherComponent(4, 3) == 0;
  }

  /** The intended child 1 of id 1 under factor 3 is id 3 (its father is id 1 by FatherOfChild). */
  lemma {:induction false} ChildFactorThree()
    ensures ChildOf([3], [1], 1) == [3]
  {
    var d := Digits([3], 1);
    assert d == [1 % 3] + Digits([], 1 / 3);
    var c := ChildOf([3], [1], 1);
    assert c[0] == ChildComponent(1, 3, 1) == 3;
  }

  // ---------------------------------------------------------------------
  // SPBinaryRefinement (factors 1 and 2)
  // ---------------------------------------------------------------------

  predicate BinaryFactors(f: seq<int>)
  {
    forall i :: 0 <= i < |f| ==> f[i] == 1 || f[i] == 2
  }

  /** `firstChild(id)` of SPBinaryRefinement. */
  function BinaryFirstChildOf(f: seq<int>, x: MultiIndex): (r: MultiIndex)
    requires |f| == |x|
    ensures |r| == |x|
  {
    seq(|x|, i requires 0 <= i < |x| => BinaryFirstChildComponent(x[i], f[i]))
  }

  /** `nextChild(id)` of SPBinaryRefinement: skip unrefined axes, toggle bit 1, done if it is now set. */
  function BinaryNextChildSeq(f: seq<int>, y: MultiIndex): (r: (MultiIndex, bool))
    requires |f| == |y|
    ensures |r.0| == |y|
  {
    if |f| == 0 then (y, false)
    else if f[0] < 2 then
      var t := BinaryNextChildSeq(f[1..], y[1..]);
      ([y[0]] + t.0, t.1)
    else
      var c := Toggle2(y[0]);
      if HasBit1(c) then ([c] + y[1..], true)
      else
        var t := BinaryNextChildSeq(f[1..], y[1..]);
        ([c] + t.0, t.1)
  }

  /** `isCopy(id)` of SPBinaryRefinement: `id & 3 == 0` on every refined axis. */
  predicate BinaryIsCopyOf(f: seq<int>, x: MultiIndex)
    requires |f| == |x|
  {
    forall i :: 0 <= i < |x| ==> f[i] == 1 || x[i] % 4 == 0
  }

  /** On an element the binary first child is the default one. */
  lemma {:induction false} BinaryFirstChildAgrees(f: seq<int>, x: MultiIndex)
    requires |f| == |x| && BinaryFactors(f) && IsElement(x)
    ensures BinaryFirstChildOf(f, x) == FirstChildOf(f, x)
  {
  }

  /** Toggling bit 1 and the default step by 2 (and back by 4) agree for factor 2. */
  lemma {:induction false} ToggleAgrees(y: int)
    ensures var c := y + 2;
            var m := c % 4;
            (HasBit1(Toggle2(y)) <==> m - m % 2 != 0)
            && (HasBit1(Toggle2(y)) ==> Toggle2(y) == c)
            && (!HasBit1(Toggle2(y)) ==> Toggle2(y) == c - 4)
  {
    var q, s := y / 4, y % 4;
    Bit1OfFour(y, q, s);
    if s >= 2 {
      Bit1OfFour(y - 2, q, s - 2);
      DivModUnique(y + 2, 4, q + 1, s - 2);
    } else {
      Bit1OfFour(y + 2, q, s + 2);
      DivModUnique(y + 2, 4, q, s + 2);
    }
  }

  /** Bit 1 of 4q + s is bit 1 of s. */
  lemma {:induction false} Bit1OfFour(y: int, q: int, s: int)
    requires 0 <= s < 4 && y == 4 * q + s
    ensures (y / 2) % 2 == s / 2
  {
    DivModUnique(y, 2, 2 * q + s / 2, s % 2);
    DivModUnique(2 * q + s / 2, 2, q, s / 2);
  }

  /** The default step for factor 1 changes nothing and never stops. */
  lemma {:induction false} UnrefinedStep(y: int)
    ensures var c := y + 2;
            var m := c % 2;
            m - m % 2 == 0 && c - 2 == y
  {
  }

  /** For factors 1 and 2 the binary nextChild is the default nextChild. */
  lemma {:induction false} BinaryNextChildAgrees(f: seq<int>, y: MultiIndex)
    requires |f| == |y| && BinaryFactors(f)
    ensures ValidFactors(f)
    ensures BinaryNextChildSeq(f, y) == NextChildSeq(f, y)
  {
    if |f| > 0 {
      BinaryNextChildAgrees(f[1..], y[1..]);
      if f[0] == 1 {
        UnrefinedStep(y[0]);
      } else {
        ToggleAgrees(y[0]);
      }
    }
  }

  lemma {:induction false} BinaryIsCopyAgrees(f: seq<int>, x: MultiIndex)
    requires |f| == |x| && BinaryFactors(f)
    ensures BinaryIsCopyOf(f, x) == IsCopyOf(f, x)
  {
  }

  // ---------------------------------------------------------------------
  // SPBisectionRefinement (one axis dir)
  // ---------------------------------------------------------------------

  function BisectionFather(x: MultiIndex, dir: int): (r: MultiIndex)
    requires 0 <= dir < |x|
    ensures |r| == |x|
  {
    x[dir := FatherComponent(x[dir], 2)]
  }

  function BisectionChild(x: MultiIndex, dir: int, index: int): (r: MultiIndex)
    requires 0 <= dir < |x|
    ensures |r| == |x|
  {
    x[dir := 2 * (x[dir] + index) - 1]
  }

  function BisectionChildIndex(x: MultiIndex, dir: int): (k: int)
    requires 0 <= dir < |x|
    ensures 0 <= k < 2
  {
    (x[dir] / 2) % 2
  }

  function BisectionFirstChild(x: MultiIndex, dir: int): (r: MultiIndex)
    requires 0 <= dir < |x|
    ensures |r| == |x|
  {
    x[dir := 2 * x[dir] - 1]
  }

  function BisectionNextChild(x: MultiIndex, dir: int): (r: (MultiIndex, bool))
    requires 0 <= dir < |x|
    ensures |r.0| == |x|
  {
    (x[dir := Toggle2(x[dir])], HasBit1(Toggle2(x[dir])))
  }

  predicate BisectionIsCopy(x: MultiIndex, dir: int)
    requires 0 <= dir < |x|
  {
    x[dir] % 4 == 0
  }

  /** The factors of a bisection along dir: 2 on dir, 1 elsewhere. */
  function BisectionFactors(n: nat, dir: int): (f: seq<int>)
    ensures |f| == n && BinaryFactors(f) && ValidFactors(f)
  {
    seq(n, i => if i == dir then 2 else 1)
  }

  lemma {:induction false} BisectionFactorsArePolicyFactors(dim: nat, dir: int)
    requires 0 <= dir < dim
    ensures BisectionFactors(dim, dir) == Factors(dim, BisectionPolicy(dir))
  {
  }

  lemma {:induction false} UnrefinedNextChild(f: seq<int>, y: MultiIndex)
    requires |f| == |y| && forall i :: 0 <= i < |f| ==> f[i] == 1
    ensures BinaryNextChildSeq(f, y) == (y, false)
  {
    if |f| > 0 {
      UnrefinedNextChild(f[1..], y[1..]);
      assert [y[0]] + y[1..] == y;
    }
  }

  /** The bisection nextChild is the binary nextChild for the factors of its axis. */
  lemma {:induction false} BisectionNextChildIsBinary(x: MultiIndex, dir: int)
    requires 0 <= dir < |x|
    ensures BisectionNextChild(x, dir) == BinaryNextChildSeq(BisectionFactors(|x|, dir), x)
    decreases dir
  {
    var f := BisectionFactors(|x|, dir);
    if dir == 0 {
      UnrefinedNextChild(f[1..], x[1..]);
      var c := Toggle2(x[0]);
      assert [c] + x[1..] == x[0 := c];
    } else {
      BisectionNextChildIsBinary(x[1..], dir - 1);
      assert f[1..] == BisectionFactors(|x| - 1, dir - 1);
      var c := Toggle2(x[dir]);
      assert [x[0]] + x[1..][dir - 1 := c] == x[dir := c];
    }
  }

  lemma {:induction false} UnrefinedDigits(f: seq<int>, k: int)
    requires k >= 0 && forall i :: 0 <= i < |f| ==> f[i] == 1
    ensures ValidFactors(f) && Digits(f, k) == Zeros(|f|)
  {
    if |f| > 0 {
      UnrefinedDigits(f[1..], k);
    }
  }

  /** The digits of a child number of a bisection: the number itself on dir, zero elsewhere. */
  lemma {:induction false} BisectionDigits(n: nat, dir: int, index: int)
    requires 0 <= dir < n && 0 <= index < 2
    ensures Digits(BisectionFactors(n, dir), index) == Zeros(n)[dir := index]
    decreases dir
  {
    if dir == 0 {
      BisectionDigitsFirst(n, index);
    } else {
      BisectionDigits(n - 1, dir - 1, index);
      BisectionDigitsStep(n, dir, index);
    }
  }

  /** Bisecting axis 0: the first digit is the child number, the others are zero. */
  lemma {:induction false} BisectionDigitsFirst(n: nat, index: int)
    requires 0 < n && 0 <= index < 2
    ensures Digits(BisectionFactors(n, 0), index) == Zeros(n)[0 := index]
  {
    var f := BisectionFactors(n, 0);
    var z := Zeros(n)[0 := index];
    assert z == [index] + Zeros(n - 1);
    assert f[0] == 2 && index % 2 == index && index / 2 == 0;
    UnrefinedDigits(f[1..], 0);
    assert Digits(f, index) == [index] + Digits(f[1..], 0);
  }

  /** Bisecting a later axis: the unrefined first axis takes digit 0 and passes the number on. */
  lemma {:induction false} BisectionDigitsStep(n: nat, dir: int, index: int)
    requires 0 < dir < n && 0 <= index < 2
    requires Digits(BisectionFactors(n - 1, dir - 1), index) == Zeros(n - 1)[dir - 1 := index]
    ensures Digits(BisectionFactors(n, dir), index) == Zeros(n)[dir := index]
  {
    var f := BisectionFactors(n, dir);
    var z := Zeros(n)[dir := index];
    assert z == [0] + Zeros(n - 1)[dir - 1 := index];
    assert f[0] == 1 && index % 1 == 0 && index / 1 == index;
    assert f[1..] == BisectionFactors(n - 1, dir - 1);
    assert Digits(f, index) == [0] + Digits(f[1..], index);
  }

  /** The bisection child of the source is the default child for the factors of its axis. */
  lemma {:induction false} BisectionChildIsDefault(x: MultiIndex, dir: int, index: int)
    requires 0 <= dir < |x| && 0 <= index < 2
    ensures BisectionChild(x, dir, index) == ChildAsWrittenOf(BisectionFactors(|x|, dir), x, index)
    ensures BisectionChild(x, dir, index) == ChildOf(BisectionFactors(|x|, dir), x, index)
  {
    var f := BisectionFactors(|x|, dir);
    var d := Digits(f, index);
    var c, w := BisectionChild(x, dir, index), ChildOf(f, x, index);
    var a := ChildAsWrittenOf(f, x, index);
    BisectionDigits(|x|, dir, index);
    forall i | 0 <= i < |x| ensures a[i] == c[i] && w[i] == c[i] {
      if i == dir {
        assert f[i] == 2 && d[i] == index;
        assert a[i] == ChildAsWrittenComponent(x[i], 2, index);
        assert w[i] == ChildComponent(x[i], 2, index);
      } else {
        assert f[i] == 1 && d[i] == 0;
        assert a[i] == ChildAsWrittenComponent(x[i], 1, 0);
        assert w[i] == ChildComponent(x[i], 1, 0);
      }
    }
  }

  lemma {:induction false} BisectionFatherIsDefault(x: MultiIndex, dir: int)
    requires 0 <= dir < |x|
    ensures BisectionFather(x, dir) == FatherOf(BisectionFactors(|x|, dir), x)
  {
  }

  lemma {:induction false} BisectionChildIndexIsDefault(x: MultiIndex, dir: int)
    requires 0 <= dir < |x|
    ensures BisectionChildIndex(x, dir) == ChildIndexOf(BisectionFactors(|x|, dir), x)
    decreases dir
  {
    var f := BisectionFactors(|x|, dir);
    var d := ChildDigits(f, x);
    assert d[1..] == ChildDigits(f[1..], x[1..]);
    if dir == 0 {
      UnrefinedMixedRadix(f[1..], d[1..]);
    } else {
      BisectionChildIndexIsDefault(x[1..], dir - 1);
      assert f[1..] == BisectionFactors(|x| - 1, dir - 1);
    }
  }

  lemma {:induction false} UnrefinedMixedRadix(f: seq<int>, d: seq<int>)
    requires |f| == |d| && InRange(d, f) && forall i :: 0 <= i < |f| ==> f[i] == 1
    ensures MixedRadix(d, f) == 0
  {
    if |f| > 0 {
      UnrefinedMixedRadix(f[1..], d[1..]);
    }
  }

  lemma {:induction false} BisectionFirstChildIsBinary(x: MultiIndex, dir: int)
    requires 0 <= dir < |x|
    ensures BisectionFirstChild(x, dir) == BinaryFirstChildOf(BisectionFactors(|x|, dir), x)
  {
  }

  lemma {:induction false} BisectionIsCopyIsBinary(x: MultiIndex, dir: int)
    requires 0 <= dir < |x|
    ensures BisectionIsCopy(x, dir) == BinaryIsCopyOf(BisectionFactors(|x|, dir), x)
  {
  }
}
