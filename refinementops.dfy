// The refinement classes themselves: a refinement is its kind and its
// policy, its operations update a multi-index (an array of dim ints) in
// place, and each is proved against the functions of module Refinements.

module RefinementOps {
  import opened Bits
  import opened MultiIndices
  import opened Policies
  import opened Refinements

  // ---------------------------------------------------------------------
  // SPDefaultRefinement
  // ---------------------------------------------------------------------

  /** `numChildren()`: the product of the factors. */
  method NumChildren(f: seq<int>) returns (n: int)
    requires ValidFactors(f)
    ensures n == Product(f) && n >= 1
  {
    n := 1;
    var i := 0;
    while i < |f|
      invariant 0 <= i <= |f|
      invariant n == Product(f[..i])
    {
      ProductSnoc(f[..i], f[i]);
      assert f[..i + 1] == f[..i] + [f[i]];
      n := n * f[i];
      i := i + 1;
    }
    assert f[..i] == f;
    ProductPositive(f);
  }

  /** `father(id)`. */
  method Father(f: seq<int>, id: array<int>)
    requires id.Length == |f| && ValidFactors(f)
    modifies id
    ensures id[..] == FatherOf(f, old(id[..]))
  {
    for i := 0 to id.Length
      invariant forall j :: 0 <= j < i ==> id[j] == FatherComponent(old(id[j]), f[j])
      invariant forall j :: i <= j < id.Length ==> id[j] == old(id[j])
    {
      var q := id[i] / f[i];
      id[i] := (q - q % 2) + id[i] % 2;
    }
  }

  lemma {:induction false} DigitsStep(f: seq<int>, i: nat, rest: int, d: seq<int>)
    requires ValidFactors(f) && i < |f| == |d| && rest >= 0 && Digits(f[i..], rest) == d[i..]
    ensures rest % f[i] == d[i] && Digits(f[i + 1..], rest / f[i]) == d[i + 1..]
  {
    assert f[i..][1..] == f[i + 1..];
    assert d[i..][0] == d[i] && d[i..][1..] == d[i + 1..];
  }

  /** One pass of the loop of `child` as written: component i becomes (id + r)*alpha - (alpha - 1) for the digit r. */
  method WriteChildAsWritten(f: seq<int>, id: array<int>, i: nat, rest: int, ghost index: int, ghost x: seq<int>, ghost target: seq<int>)
    returns (next: int)
    requires id.Length == |f| == |x| && ValidFactors(f) && i < |f| && 0 <= index && rest >= 0
    requires Digits(f[i..], rest) == Digits(f, index)[i..]
    requires target == ChildAsWrittenOf(f, x, index) && id[i] == x[i]
    modifies id
    ensures id[i] == target[i]
    ensures forall j :: 0 <= j < id.Length && j != i ==> id[j] == old(id[j])
    ensures next >= 0 && Digits(f[i + 1..], next) == Digits(f, index)[i + 1..]
  {
    ghost var d := Digits(f, index);
    DigitsStep(f, i, rest, d);
    assert target[i] == ChildAsWrittenComponent(x[i], f[i], d[i]);
    var alpha := f[i];
    id[i] := ChildAsWrittenComponent(id[i], alpha, rest % alpha);
    next := rest / alpha;
  }

  /** One pass of the loop of the intended `child`: component i becomes alpha*(id - 1) + 2r + 1 for the digit r. */
  method WriteChild(f: seq<int>, id: array<int>, i: nat, rest: int, ghost index: int, ghost x: seq<int>, ghost target: seq<int>)
    returns (next: int)
    requires id.Length == |f| == |x| && ValidFactors(f) && i < |f| && 0 <= index && rest >= 0
    requires Digits(f[i..], rest) == Digits(f, index)[i..]
    requires target == ChildOf(f, x, index) && id[i] == x[i]
    modifies id
    ensures id[i] == target[i]
    ensures forall j :: 0 <= j < id.Length && j != i ==> id[j] == old(id[j])
    ensures next >= 0 && Digits(f[i + 1..], next) == Digits(f, index)[i + 1..]
  {
    ghost var d := Digits(f, index);
    DigitsStep(f, i, rest, d);
    assert target[i] == ChildComponent(x[i], f[i], d[i]);
    var alpha := f[i];
    id[i] := ChildComponent(id[i], alpha, rest % alpha);
    next := rest / alpha;
  }

  /** `child(id, index)` as written; see ChildAsWrittenFactorThree for factors above 2. The source asserts index < numChildren(). */
  method ChildAsWritten(f: seq<int>, id: array<int>, index: int)
    requires id.Length == |f| && ValidFactors(f) && 0 <= index < Product(f)
    modifies id
    ensures id[..] == ChildAsWrittenOf(f, old(id[..]), index)
  {
    ChildAsWrittenLoop(f, id, index);
  }

  /** The loop of `child` as written, which needs no bound on index. */
  method ChildAsWrittenLoop(f: seq<int>, id: array<int>, index: int)
    requires id.Length == |f| && ValidFactors(f) && 0 <= index
    modifies id
    ensures id[..] == ChildAsWrittenOf(f, old(id[..]), index)
  {
    ghost var x := id[..];
    ghost var d := Digits(f, index);
    ghost var target := ChildAsWrittenOf(f, x, index);
    var rest := index;
    for i := 0 to id.Length
      invariant rest >= 0 && Digits(f[i..], rest) == d[i..]
      invariant forall j :: 0 <= j < i ==> id[j] == target[j]
      invariant forall j :: i <= j < id.Length ==> id[j] == x[j]
    {
      rest := WriteChildAsWritten(f, id, i, rest, index, x, target);
    }
  }

  /** The intended `child(id, index)`: digit r of axis i gives the id alpha*(id-1) + 2r + 1. */
  method Child(f: seq<int>, id: array<int>, index: int)
    requires id.Length == |f| && ValidFactors(f) && 0 <= index < Product(f)
    modifies id
    ensures id[..] == ChildOf(f, old(id[..]), index)
  {
    ChildLoop(f, id, index);
  }

  /** The loop of the intended `child`. */
  method ChildLoop(f: seq<int>, id: array<int>, index: int)
    requires id.Length == |f| && ValidFactors(f) && 0 <= index
    modifies id
    ensures id[..] == ChildOf(f, old(id[..]), index)
  {
    ghost var x := id[..];
    ghost var d := Digits(f, index);
    ghost var target := ChildOf(f, x, index);
    var rest := index;
    for i := 0 to id.Length
      invariant rest >= 0 && Digits(f[i..], rest) == d[i..]
      invariant forall j :: 0 <= j < i ==> id[j] == target[j]
      invariant forall j :: i <= j < id.Length ==> id[j] == x[j]
    {
      rest := WriteChild(f, id, i, rest, index, x, target);
    }
  }

  /** `childIndex(id)`: Horner's rule from the last axis down. */
  method ChildIndex(f: seq<int>, id: array<int>) returns (index: int)
    requires id.Length == |f| && ValidFactors(f)
    ensures index == ChildIndexOf(f, id[..])
  {
    ghost var d := ChildDigits(f, id[..]);
    index := 0;
    var i := id.Length;
    while i > 0
      invariant 0 <= i <= id.Length
      invariant index == MixedRadix(d[i..], f[i..])
    {
      i := i - 1;
      var alpha := f[i];
      assert d[i..][1..] == d[i + 1..] && f[i..][1..] == f[i + 1..];
      index := index * alpha + (id[i] / 2) % alpha;
    }
    assert d[0..] == d && f[0..] == f;
  }

  /** `firstChild(id)`. */
  method FirstChild(f: seq<int>, id: array<int>)
    requires id.Length == |f|
    modifies id
    ensures id[..] == FirstChildOf(f, old(id[..]))
  {
    for i := 0 to id.Length
      invariant forall j :: 0 <= j < i ==> id[j] == FirstChildComponent(old(id[j]), f[j])
      invariant forall j :: i <= j < id.Length ==> id[j] == old(id[j])
    {
      id[i] := f[i] * (id[i] - id[i] % 2) + id[i] % 2;
    }
  }

  /** NextChildSeq applied to the axes from i on, the axes below i kept. */
  function NextChildFrom(f: seq<int>, y: MultiIndex, i: nat): (r: (MultiIndex, bool))
    requires |f| == |y| && ValidFactors(f) && i <= |y|
  {
    var t := NextChildSeq(f[i..], y[i..]);
    (y[..i] + t.0, t.1)
  }

  lemma {:induction false} NextChildFromStep(f: seq<int>, y: MultiIndex, i: nat)
    requires |f| == |y| && ValidFactors(f) && i < |y|
    ensures var c := y[i] + 2;
            var m := c % (2 * f[i]);
            if m - m % 2 != 0 then NextChildFrom(f, y, i) == (y[i := c], true)
            else NextChildFrom(f, y, i) == NextChildFrom(f, y[i := c - 2 * f[i]], i + 1)
  {
    var c := y[i] + 2;
    var m := c % (2 * f[i]);
    assert f[i..][1..] == f[i + 1..] && y[i..][1..] == y[i + 1..] && y[i..][0] == y[i];
    if m - m % 2 != 0 {
      assert y[..i] + ([c] + y[i + 1..]) == y[i := c];
    } else {
      var z := y[i := c - 2 * f[i]];
      var t := NextChildSeq(f[i + 1..], y[i + 1..]);
      assert NextChildSeq(f[i..], y[i..]) == ([c - 2 * f[i]] + t.0, t.1);
      assert z[i + 1..] == y[i + 1..];
      assert z[..i + 1] == y[..i] + [c - 2 * f[i]];
      assert y[..i] + ([c - 2 * f[i]] + t.0) == z[..i + 1] + t.0;
    }
  }

  /** `nextChild(id)`. */
  method NextChild(f: seq<int>, id: array<int>) returns (more: bool)
    requires id.Length == |f| && ValidFactors(f)
    modifies id
    ensures (id[..], more) == NextChildSeq(f, old(id[..]))
  {
    ghost var x := id[..];
    assert f[0..] == f && x[0..] == x && x[..0] == [];
    ghost var whole := NextChildSeq(f, x);
    assert NextChildFrom(f, x, 0) == ([] + whole.0, whole.1);
    assert [] + whole.0 == whole.0;
    var i := 0;
    while i < id.Length
      invariant 0 <= i <= id.Length
      invariant NextChildFrom(f, id[..], i) == NextChildSeq(f, x)
    {
      ghost var y := id[..];
      NextChildFromStep(f, y, i);
      var alpha := f[i];
      id[i] := id[i] + 2;
      var m := id[i] % (2 * alpha);
      assert id[..] == y[i := y[i] + 2];
      if m - m % 2 != 0 {
        assert (id[..], true) == NextChildSeq(f, x);
        return true;
      }
      id[i] := id[i] - 2 * alpha;
      assert id[..] == y[i := y[i] + 2 - 2 * alpha];
      i := i + 1;
    }
    assert f[i..] == [] && id[..][..i] == id[..] && id[..][i..] == [];
    ghost var tail := NextChildSeq(f[i..], id[..][i..]);
    assert tail == ([], false);
    assert NextChildFrom(f, id[..], i) == (id[..][..i] + tail.0, tail.1);
    assert id[..][..i] + tail.0 == id[..];
    more := false;
  }

  /** `isCopy(id)`. */
  method IsCopy(f: seq<int>, id: array<int>) returns (copy: bool)
    requires id.Length == |f| && ValidFactors(f)
    ensures copy == IsCopyOf(f, id[..])
  {
    copy := true;
    for i := 0 to id.Length
      invariant copy == forall j :: 0 <= j < i ==> f[j] == 1 || id[j] % (2 * f[j]) == 0
    {
      var alpha := f[i];
      copy := copy && (alpha == 1 || id[i] % (2 * alpha) == 0);
    }
  }

  // ---------------------------------------------------------------------
  // SPBinaryRefinement
  // ---------------------------------------------------------------------

  /** `firstChild(id)` of SPBinaryRefinement. */
  method BinaryFirstChild(f: seq<int>, id: array<int>)
    requires id.Length == |f|
    modifies id
    ensures id[..] == BinaryFirstChildOf(f, old(id[..]))
  {
    for i := 0 to id.Length
      invariant forall j :: 0 <= j < i ==> id[j] == BinaryFirstChildComponent(old(id[j]), f[j])
      invariant forall j :: i <= j < id.Length ==> id[j] == old(id[j])
    {
      var alpha := f[i];
      id[i] := alpha * id[i] - alpha / 2;
    }
  }

  function BinaryNextChildFrom(f: seq<int>, y: MultiIndex, i: nat): (r: (MultiIndex, bool))
    requires |f| == |y| && i <= |y|
  {
    var t := BinaryNextChildSeq(f[i..], y[i..]);
    (y[..i] + t.0, t.1)
  }

  lemma {:induction false} BinaryNextChildFromStep(f: seq<int>, y: MultiIndex, i: nat)
    requires |f| == |y| && i < |y|
    ensures f[i] < 2 ==> BinaryNextChildFrom(f, y, i) == BinaryNextChildFrom(f, y, i + 1)
    ensures f[i] >= 2 ==>
              var c := Toggle2(y[i]);
              if HasBit1(c) then BinaryNextChildFrom(f, y, i) == (y[i := c], true)
              else BinaryNextChildFrom(f, y, i) == BinaryNextChildFrom(f, y[i := c], i + 1)
  {
    var c := Toggle2(y[i]);
    assert f[i..][1..] == f[i + 1..] && y[i..][1..] == y[i + 1..] && y[i..][0] == y[i];
    var t := BinaryNextChildSeq(f[i + 1..], y[i + 1..]);
    if f[i] < 2 {
      assert BinaryNextChildSeq(f[i..], y[i..]) == ([y[i]] + t.0, t.1);
      assert y[..i] + ([y[i]] + t.0) == y[..i + 1] + t.0;
    } else if HasBit1(c) {
      assert y[..i] + ([c] + y[i + 1..]) == y[i := c];
    } else {
      var z := y[i := c];
      assert BinaryNextChildSeq(f[i..], y[i..]) == ([c] + t.0, t.1);
      assert z[i + 1..] == y[i + 1..];
      assert z[..i + 1] == y[..i] + [c];
      assert y[..i] + ([c] + t.0) == z[..i + 1] + t.0;
    }
  }

  /** `nextChild(id)` of SPBinaryRefinement. */
  method BinaryNextChild(f: seq<int>, id: array<int>) returns (more: bool)
    requires id.Length == |f|
    modifies id
    ensures (id[..], more) == BinaryNextChildSeq(f, old(id[..]))
  {
    ghost var x := id[..];
    assert f[0..] == f && x[0..] == x && x[..0] == [];
    ghost var whole := BinaryNextChildSeq(f, x);
    assert BinaryNextChildFrom(f, x, 0) == ([] + whole.0, whole.1);
    assert [] + whole.0 == whole.0;
    var i := 0;
    while i < id.Length
      invariant 0 <= i <= id.Length
      invariant BinaryNextChildFrom(f, id[..], i) == BinaryNextChildSeq(f, x)
    {
      ghost var y := id[..];
      BinaryNextChildFromStep(f, y, i);
      if f[i] >= 2 {
        id[i] := if (id[i] / 2) % 2 == 1 then id[i] - 2 else id[i] + 2;
        assert id[..] == y[i := Toggle2(y[i])];
        if (id[i] / 2) % 2 == 1 {
          assert (id[..], true) == BinaryNextChildSeq(f, x);
          return true;
        }
      }
      i := i + 1;
    }
    assert f[i..] == [] && id[..][..i] == id[..] && id[..][i..] == [];
    ghost var tail := BinaryNextChildSeq(f[i..], id[..][i..]);
    assert tail == ([], false);
    assert BinaryNextChildFrom(f, id[..], i) == (id[..][..i] + tail.0, tail.1);
    assert id[..][..i] + tail.0 == id[..];
    more := false;
  }

  /** `isCopy(id)` of SPBinaryRefinement. */
  method BinaryIsCopy(f: seq<int>, id: array<int>) returns (copy: bool)
    requires id.Length == |f|
    ensures copy == BinaryIsCopyOf(f, id[..])
  {
    copy := true;
    for i := 0 to id.Length
      invariant copy == forall j :: 0 <= j < i ==> f[j] == 1 || id[j] % 4 == 0
    {
      copy := copy && (f[i] == 1 || id[i] % 4 == 0);
    }
  }

  // ---------------------------------------------------------------------
  // SPBisectionRefinement
  // ---------------------------------------------------------------------

  method BisectionFatherOp(dir: int, id: array<int>)
    requires 0 <= dir < id.Length
    modifies id
    ensures id[..] == BisectionFather(old(id[..]), dir)
  {
    var q := id[dir] / 2;
    id[dir] := (q - q % 2) + id[dir] % 2;
  }

  method BisectionChildOp(dir: int, id: array<int>, index: int)
    requires 0 <= dir < id.Length && 0 <= index < 2
    modifies id
    ensures id[..] == BisectionChild(old(id[..]), dir, index)
  {
    id[dir] := 2 * (id[dir] + index) - 1;
  }

  method BisectionChildIndexOp(dir: int, id: array<int>) returns (index: int)
    requires 0 <= dir < id.Length
    ensures index == BisectionChildIndex(id[..], dir)
  {
    index := (id[dir] / 2) % 2;
  }

  method BisectionFirstChildOp(dir: int, id: array<int>)
    requires 0 <= dir < id.Length
    modifies id
    ensures id[..] == BisectionFirstChild(old(id[..]), dir)
  {
    id[dir] := 2 * id[dir] - 1;
  }

  method BisectionNextChildOp(dir: int, id: array<int>) returns (more: bool)
    requires 0 <= dir < id.Length
    modifies id
    ensures (id[..], more) == BisectionNextChild(old(id[..]), dir)
  {
    id[dir] := if (id[dir] / 2) % 2 == 1 then id[dir] - 2 else id[dir] + 2;
    more := (id[dir] / 2) % 2 == 1;
  }

  method BisectionIsCopyOp(dir: int, id: array<int>) returns (copy: bool)
    requires 0 <= dir < id.Length
    ensures copy == BisectionIsCopy(id[..], dir)
  {
    copy := id[dir] % 4 == 0;
  }

  // ---------------------------------------------------------------------
  // The refinement of a grid level
  // ---------------------------------------------------------------------

  /** Which class does the index arithmetic. */
  datatype Kind =
    | DefaultKind    // SPDefaultRefinement, also SPArbitraryRefinement
    | BinaryKind     // SPBinaryRefinement: SPIsotropicRefinement, SPAnisotropicRefinement
    | BisectionKind  // SPBisectionRefinement

  datatype Refinement = Refinement(kind: Kind, policy: Policy)

  predicate ValidRefinement(dim: nat, r: Refinement)
  {
    ValidPolicy(dim, r.policy)
    && match r.kind
       case DefaultKind => true
       case BinaryKind => r.policy.IsotropicPolicy? || r.policy.AnisotropicPolicy?
       case BisectionKind => r.policy.BisectionPolicy?
  }

  /** The operations of SPBisectionRefinement assert that the policy has an axis. */
  predicate Ready(dim: nat, r: Refinement)
  {
    ValidRefinement(dim, r) && (r.kind == BisectionKind ==> r.policy.dir >= 0)
  }

  function RefFactors(dim: nat, r: Refinement): (f: seq<int>)
    requires ValidRefinement(dim, r)
    ensures |f| == dim && ValidFactors(f)
    ensures r.kind != DefaultKind ==> BinaryFactors(f)
  {
    Factors(dim, r.policy)
  }

  function IsotropicRefinement(): (r: Refinement)
    ensures forall dim: nat :: Ready(dim, r)
  {
    Refinement(BinaryKind, IsotropicPolicy)
  }

  function AnisotropicRefinement(dim: nat, p: Policy): (r: Refinement)
    requires p.AnisotropicPolicy? && ValidPolicy(dim, p)
    ensures Ready(dim, r) && r.policy == p
  {
    Refinement(BinaryKind, p)
  }

  function BisectionRefinement(dim: nat, p: Policy): (r: Refinement)
    requires p.BisectionPolicy? && ValidPolicy(dim, p)
    ensures ValidRefinement(dim, r) && r.policy == p
  {
    Refinement(BisectionKind, p)
  }

  function ArbitraryRefinement(dim: nat, p: Policy): (r: Refinement)
    requires p.ArbitraryPolicy? && ValidPolicy(dim, p)
    ensures Ready(dim, r) && r.policy == p
  {
    Refinement(DefaultKind, p)
  }

  /**
   * The refinement of the next level, made from the father level's
   * refinement and the policy passed to globalRefine: only bisection looks
   * at the father, and then the new level always has an axis.
   */
  function ChildRefinement(dim: nat, father: Refinement, policy: Policy): (r: Refinement)
    requires ValidRefinement(dim, father) && ValidPolicy(dim, policy)
    requires father.kind == BisectionKind ==> dim >= 1 && policy.BisectionPolicy?
    requires father.kind == BinaryKind ==> policy.IsotropicPolicy? || policy.AnisotropicPolicy?
    ensures r.kind == father.kind && Ready(dim, r)
    ensures father.kind != BisectionKind ==> r.policy == policy
    ensures father.kind == BisectionKind && policy.dir >= 0 ==> r.policy == policy
  {
    if father.kind == BisectionKind then
      Refinement(BisectionKind, BisectionChildPolicy(dim, father.policy, policy))
    else Refinement(father.kind, policy)
  }

  /** `numChildren()` of each class. */
  function RefNumChildren(dim: nat, r: Refinement): int
    requires Ready(dim, r)
  {
    match r.kind
    case BisectionKind => 2
    case BinaryKind =>
      if r.policy.IsotropicPolicy? then Pow2(dim) else Pow2(PopCount(r.policy.refDir))
    case DefaultKind => Product(RefFactors(dim, r))
  }

  /** Every class's numChildren is the product of its factors. */
  lemma {:induction false} NumChildrenIsProduct(dim: nat, r: Refinement)
    requires Ready(dim, r)
    ensures RefNumChildren(dim, r) == Product(RefFactors(dim, r)) >= 1
  {
    ProductPositive(RefFactors(dim, r));
    match r.kind
    case BisectionKind => BisectionChildren(dim, r.policy.dir);
    case BinaryKind =>
      if r.policy.IsotropicPolicy? {
        IsotropicChildren(dim);
      } else {
        AnisotropicChildren(dim, r.policy.refDir);
      }
    case DefaultKind =>
  }

  function RefFather(dim: nat, r: Refinement, x: MultiIndex): (y: MultiIndex)
    requires Ready(dim, r) && |x| == dim
    ensures |y| == dim
  {
    if r.kind == BisectionKind then BisectionFather(x, r.policy.dir)
    else FatherOf(RefFactors(dim, r), x)
  }

  function RefChildIndex(dim: nat, r: Refinement, x: MultiIndex): int
    requires Ready(dim, r) && |x| == dim
  {
    if r.kind == BisectionKind then BisectionChildIndex(x, r.policy.dir)
    else ChildIndexOf(RefFactors(dim, r), x)
  }

  function RefFirstChild(dim: nat, r: Refinement, x: MultiIndex): (y: MultiIndex)
    requires Ready(dim, r) && |x| == dim
    ensures |y| == dim
  {
    match r.kind
    case BisectionKind => BisectionFirstChild(x, r.policy.dir)
    case BinaryKind => BinaryFirstChildOf(RefFactors(dim, r), x)
    case DefaultKind => FirstChildOf(RefFactors(dim, r), x)
  }

  function RefNextChild(dim: nat, r: Refinement, x: MultiIndex): (y: (MultiIndex, bool))
    requires Ready(dim, r) && |x| == dim
    ensures |y.0| == dim
  {
    match r.kind
    case BisectionKind => BisectionNextChild(x, r.policy.dir)
    case BinaryKind => BinaryNextChildSeq(RefFactors(dim, r), x)
    case DefaultKind => NextChildSeq(RefFactors(dim, r), x)
  }

  predicate RefIsCopy(dim: nat, r: Refinement, x: MultiIndex)
    requires Ready(dim, r) && |x| == dim
  {
    match r.kind
    case BisectionKind => BisectionIsCopy(x, r.policy.dir)
    case BinaryKind => BinaryIsCopyOf(RefFactors(dim, r), x)
    case DefaultKind => IsCopyOf(RefFactors(dim, r), x)
  }

  /**
   * Whatever the class, its operations are those of the default refinement
   * for its factors: the bisection and binary shortcuts compute the same ids.
   */
  lemma {:induction false} RefinementsAgree(dim: nat, r: Refinement, x: MultiIndex)
    requires Ready(dim, r) && |x| == dim
    ensures RefFather(dim, r, x) == FatherOf(RefFactors(dim, r), x)
    ensures RefChildIndex(dim, r, x) == ChildIndexOf(RefFactors(dim, r), x)
    ensures RefNextChild(dim, r, x) == NextChildSeq(RefFactors(dim, r), x)
    ensures RefIsCopy(dim, r, x) == IsCopyOf(RefFactors(dim, r), x)
    ensures IsElement(x) ==> RefFirstChild(dim, r, x) == FirstChildOf(RefFactors(dim, r), x)
  {
    var f := RefFactors(dim, r);
    if r.kind == BisectionKind {
      var dir := r.policy.dir;
      BisectionFactorsArePolicyFactors(dim, dir);
      BisectionFatherIsDefault(x, dir);
      BisectionChildIndexIsDefault(x, dir);
      BisectionNextChildIsBinary(x, dir);
      BisectionIsCopyIsBinary(x, dir);
      BisectionFirstChildIsBinary(x, dir);
    }
    if r.kind != DefaultKind {
      BinaryNextChildAgrees(f, x);
      BinaryIsCopyAgrees(f, x);
      if IsElement(x) {
        BinaryFirstChildAgrees(f, x);
      }
    }
  }

  /**
   * The children of an element under any refinement: numChildren of them,
   * each with the element as father and its own number as child index,
   * visited in order from firstChild by nextChild, which answers false
   * exactly once, on the last child, and returns to the first.
   */
  lemma {:induction false} RefinementChildren(dim: nat, r: Refinement, x: MultiIndex, k: int)
    requires Ready(dim, r) && |x| == dim && IsElement(x)
    requires 0 <= k < RefNumChildren(dim, r)
    ensures var f := RefFactors(dim, r);
            var n := RefNumChildren(dim, r);
            && IsElement(ChildOf(f, x, k))
            && RefFather(dim, r, ChildOf(f, x, k)) == x
            && RefChildIndex(dim, r, ChildOf(f, x, k)) == k
            && RefFirstChild(dim, r, x) == ChildOf(f, x, 0)
            && RefNextChild(dim, r, ChildOf(f, x, k))
               == if k + 1 < n then (ChildOf(f, x, k + 1), true) else (ChildOf(f, x, 0), false)
  {
    var f := RefFactors(dim, r);
    NumChildrenIsProduct(dim, r);
    FatherOfChild(f, x, k);
    RefinementsAgree(dim, r, ChildOf(f, x, k));
    RefinementsAgree(dim, r, x);
    ChildIndexOfChild(f, x, k);
    FirstChildIsChildZero(f, x);
    NextChildOfChild(f, x, k);
  }

  // The operations of the refinement of a level, on a multi-index in place.

  method RefineFather(dim: nat, r: Refinement, id: array<int>)
    requires Ready(dim, r) && id.Length == dim
    modifies id
    ensures id[..] == RefFather(dim, r, old(id[..]))
  {
    if r.kind == BisectionKind {
      BisectionFatherOp(r.policy.dir, id);
    } else {
      Father(RefFactors(dim, r), id);
    }
  }

  method RefineChildIndex(dim: nat, r: Refinement, id: array<int>) returns (index: int)
    requires Ready(dim, r) && id.Length == dim
    ensures index == RefChildIndex(dim, r, id[..])
  {
    if r.kind == BisectionKind {
      index := BisectionChildIndexOp(r.policy.dir, id);
    } else {
      index := ChildIndex(RefFactors(dim, r), id);
    }
  }

  method RefineFirstChild(dim: nat, r: Refinement, id: array<int>)
    requires Ready(dim, r) && id.Length == dim
    modifies id
    ensures id[..] == RefFirstChild(dim, r, old(id[..]))
  {
    match r.kind
    case BisectionKind => BisectionFirstChildOp(r.policy.dir, id);
    case BinaryKind => BinaryFirstChild(RefFactors(dim, r), id);
    case DefaultKind => FirstChild(RefFactors(dim, r), id);
  }

  method RefineNextChild(dim: nat, r: Refinement, id: array<int>) returns (more: bool)
    requires Ready(dim, r) && id.Length == dim
    modifies id
    ensures (id[..], more) == RefNextChild(dim, r, old(id[..]))
  {
    match r.kind
    case BisectionKind => more := BisectionNextChildOp(r.policy.dir, id);
    case BinaryKind => more := BinaryNextChild(RefFactors(dim, r), id);
    case DefaultKind => more := NextChild(RefFactors(dim, r), id);
  }

  method RefineIsCopy(dim: nat, r: Refinement, id: array<int>) returns (copy: bool)
    requires Ready(dim, r) && id.Length == dim
    ensures copy == RefIsCopy(dim, r, id[..])
  {
    match r.kind
    case BisectionKind => copy := BisectionIsCopyOp(r.policy.dir, id);
    case BinaryKind => copy := BinaryIsCopy(RefFactors(dim, r), id);
    case DefaultKind => copy := IsCopy(RefFactors(dim, r), id);
  }
}
