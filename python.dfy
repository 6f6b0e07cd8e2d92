// The Python front end of SPGrid.
//
// Each factory builds the C++ type name of the grid, lists the headers to
// include and hands both to the external code generator `module()`; the
// model returns that request instead of calling it.  `getDimgrid(domain)`
// and `checkconfiguration.have` are external as well: their outcomes are
// parameters.  The embedded C++ `globalRefine` of the anisotropic factory
// turns a list of flags into a refinement direction mask.

module PythonFrontEnd {
  import opened Bits
  import opened Errors
  import opened Policies

  datatype Family = Bisection | Isotropic | Anisotropic

  function FamilyName(f: Family): string
  {
    match f
    case Bisection => "Bisection"
    case Isotropic => "Isotropic"
    case Anisotropic => "Anisotropic"
  }

  // ---------------------------------------------------------------------
  // str() of an integer
  // ---------------------------------------------------------------------

  predicate IsDigit(c: char)
  {
    '0' <= c <= '9'
  }

  function DigitChar(d: nat): (c: char)
    requires d < 10
    ensures IsDigit(c) && c as int - '0' as int == d
  {
    ('0' as int + d) as char
  }

  /** Every character is a decimal digit. */
  predicate AllDigits(s: string)
  {
    forall i :: 0 <= i < |s| ==> IsDigit(s[i])
  }

  /** Python's decimal rendering of a natural number. */
  function NatToString(n: nat): (s: string)
    ensures |s| >= 1 && IsDigit(s[0]) && AllDigits(s)
  {
    if n < 10 then [DigitChar(n)] else NatToString(n / 10) + [DigitChar(n % 10)]
  }

  /** `str(n)` for an int: a minus sign before the digits of |n|. */
  function IntToString(n: int): (s: string)
    ensures |s| >= 1 && (s[0] == '-' <==> n < 0)
    ensures n < 0 ==> s[1..] == NatToString(-n)
    ensures n >= 0 ==> s == NatToString(n)
  {
    if n < 0 then "-" + NatToString(-n) else NatToString(n)
  }

  lemma IntToStringNoComma(n: int)
    ensures forall i :: 0 <= i < |IntToString(n)| ==> IntToString(n)[i] != ','
  {
    var s := IntToString(n);
    if n < 0 {
      assert forall i :: 1 <= i < |s| ==> s[i] == NatToString(-n)[i - 1];
    }
  }

  /** The number a string of decimal digits denotes. */
  function DigitsValue(s: string): nat
    requires AllDigits(s)
  {
    if s == [] then 0
    else
      assert IsDigit(s[|s| - 1]);
      10 * DigitsValue(s[..|s| - 1]) + (s[|s| - 1] as int - '0' as int)
  }

  lemma {:induction false} NatToStringValue(n: nat)
    ensures DigitsValue(NatToString(n)) == n
  {
    var s := NatToString(n);
    if n >= 10 {
      NatToStringValue(n / 10);
      assert s[..|s| - 1] == NatToString(n / 10);
    }
  }

  /** Distinct integers render differently. */
  lemma IntToStringInjective(a: int, b: int)
    requires IntToString(a) == IntToString(b)
    ensures a == b
  {
    if a < 0 {
      NatToStringValue(-a);
      NatToStringValue(-b);
    } else {
      NatToStringValue(a);
      NatToStringValue(b);
    }
  }

  /** A common prefix cancels. */
  lemma PrefixCancel(h: string, x: string, y: string)
    requires h + x == h + y
    ensures x == y
  {
    assert x == (h + x)[|h|..];
    assert y == (h + y)[|h|..];
  }

  /** A common suffix cancels. */
  lemma SuffixCancel(x: string, y: string, t: string)
    requires x + t == y + t
    ensures x == y
  {
    assert x == (x + t)[..|x|];
    assert y == (y + t)[..|y|];
  }

  /** In a comma-free word followed by a comma-led tail, the first comma ends the word. */
  lemma CommaAt(a: string, ta: string)
    requires forall i :: 0 <= i < |a| ==> a[i] != ','
    requires |ta| >= 1 && ta[0] == ','
    ensures (a + ta)[|a|] == ','
    ensures forall i :: 0 <= i < |a| ==> (a + ta)[i] != ','
  {
  }

  /** Two comma-free words followed by comma-led tails: words and tails agree. */
  lemma SplitAtComma(a: string, ta: string, b: string, tb: string)
    requires forall i :: 0 <= i < |a| ==> a[i] != ','
    requires forall i :: 0 <= i < |b| ==> b[i] != ','
    requires |ta| >= 1 && ta[0] == ',' && |tb| >= 1 && tb[0] == ','
    requires a + ta == b + tb
    ensures a == b && ta == tb
  {
    var w := a + ta;
    CommaAt(a, ta);
    CommaAt(b, tb);
    assert |a| == |b|;
    assert a == w[..|a|] && b == w[..|b|];
    assert ta == w[|a|..] && tb == w[|b|..];
  }

  // ---------------------------------------------------------------------
  // Type names
  // ---------------------------------------------------------------------

  /** "Dune::SPGrid< ctype, " */
  function TypeHead(ctype: string): string
  {
    "Dune::SPGrid< " + ctype + ", "
  }

  /** ", Dune::SP<Family>Refinement >" */
  function FamilyTail(family: Family): (t: string)
    ensures |t| > 10 && t[0] == ',' && t[10] == FamilyName(family)[0]
  {
    ", Dune::SP" + FamilyName(family) + "Refinement >"
  }

  /** "Dune::SPGrid< ctype, dimgrid, Dune::SP<Family>Refinement >". */
  function TypeName(ctype: string, dimgrid: int, family: Family): string
  {
    TypeHead(ctype) + (IntToString(dimgrid) + FamilyTail(family))
  }

  /** For a given coordinate type the type name names the dimension and the family. */
  lemma TypeNameDetermines(ctype: string, d1: int, f1: Family, d2: int, f2: Family)
    requires TypeName(ctype, d1, f1) == TypeName(ctype, d2, f2)
    ensures d1 == d2 && f1 == f2
  {
    var a, b := IntToString(d1), IntToString(d2);
    IntToStringNoComma(d1);
    IntToStringNoComma(d2);
    PrefixCancel(TypeHead(ctype), a + FamilyTail(f1), b + FamilyTail(f2));
    SplitAtComma(a, FamilyTail(f1), b, FamilyTail(f2));
    IntToStringInjective(d1, d2);
    assert FamilyName(f1)[0] == FamilyName(f2)[0];
  }

  /** The factories' left-nested concatenation spells TypeName. */
  lemma Layout(ctype: string, dim: int, family: Family, literal: string)
    requires literal == FamilyTail(family)
    ensures "Dune::SPGrid< " + ctype + ", " + IntToString(dim) + literal == TypeName(ctype, dim, family)
  {
  }

  lemma BisectionTail()
    ensures FamilyTail(Bisection) == ", Dune::SPBisectionRefinement >"
  {
  }

  lemma IsotropicTail()
    ensures FamilyTail(Isotropic) == ", Dune::SPIsotropicRefinement >"
  {
  }

  lemma AnisotropicTail()
    ensures FamilyTail(Anisotropic) == ", Dune::SPAnisotropicRefinement >"
  {
  }

  // ---------------------------------------------------------------------
  // What a factory passes to module()
  // ---------------------------------------------------------------------

  /** The generated method of the anisotropic factory: `globalRefine(level, refDir)` for `dim`. */
  datatype GeneratedMethod = GlobalRefineByFlags(dim: int)

  datatype ModuleRequest = ModuleRequest(includes: seq<string>, typeName: string, methods: seq<GeneratedMethod>)

  /** The outcome of a Python call: a value, or the exception it raised. */
  datatype Outcome<T> = Returns(value: T) | Raises(exception: string)

  const InitIncludes: seq<string> := ["dune/grid/spgrid.hh", "dune/grid/spgrid/dgfparser.hh"]

  const AddonIncludes: seq<string> := ["dune/grid/spgrid.hh", "dune/grid/spgrid/dgfparser.hh", "dune/grid/spgrid/pickle.hh"]

  /** `dimgrid` is inferred from the domain only when it is None. */
  function GridDimension(dimgrid: Option<int>, domainDim: int): (d: int)
    ensures dimgrid.Some? ==> d == dimgrid.value
    ensures dimgrid.None? ==> d == domainDim
  {
    if dimgrid.None? then domainDim else dimgrid.value
  }

  // The factories of __init__.py; `domainDim` is what getDimgrid(domain) returns.

  function SpBisectionGrid(domainDim: int, dimgrid: Option<int> := None, ctype: string := "double"): (r: ModuleRequest)
    ensures r.typeName == TypeName(ctype, GridDimension(dimgrid, domainDim), Bisection)
    ensures r.includes == InitIncludes && r.methods == []
  {
    BisectionTail();
    Layout(ctype, GridDimension(dimgrid, domainDim), Bisection, ", Dune::SPBisectionRefinement >");
    var dim := if dimgrid.None? then domainDim else dimgrid.value;
    ModuleRequest(["dune/grid/spgrid.hh", "dune/grid/spgrid/dgfparser.hh"],
      "Dune::SPGrid< " + ctype + ", " + IntToString(dim) + ", Dune::SPBisectionRefinement >", [])
  }

  function SpIsotropicGrid(domainDim: int, dimgrid: Option<int> := None, ctype: string := "double"): (r: ModuleRequest)
    ensures r.typeName == TypeName(ctype, GridDimension(dimgrid, domainDim), Isotropic)
    ensures r.includes == InitIncludes && r.methods == []
  {
    IsotropicTail();
    Layout(ctype, GridDimension(dimgrid, domainDim), Isotropic, ", Dune::SPIsotropicRefinement >");
    var dim := if dimgrid.None? then domainDim else dimgrid.value;
    ModuleRequest(["dune/grid/spgrid.hh", "dune/grid/spgrid/dgfparser.hh"],
      "Dune::SPGrid< " + ctype + ", " + IntToString(dim) + ", Dune::SPIsotropicRefinement >", [])
  }

  function SpAnisotropicGrid(domainDim: int, dimgrid: Option<int> := None, ctype: string := "double"): (r: ModuleRequest)
    ensures r.typeName == TypeName(ctype, GridDimension(dimgrid, domainDim), Anisotropic)
    ensures r.includes == InitIncludes
    ensures r.methods == [GlobalRefineByFlags(GridDimension(dimgrid, domainDim))]
  {
    AnisotropicTail();
    Layout(ctype, GridDimension(dimgrid, domainDim), Anisotropic, ", Dune::SPAnisotropicRefinement >");
    var dim := if dimgrid.None? then domainDim else dimgrid.value;
    ModuleRequest(["dune/grid/spgrid.hh", "dune/grid/spgrid/dgfparser.hh"],
      "Dune::SPGrid< " + ctype + ", " + IntToString(dim) + ", Dune::SPAnisotropicRefinement >",
      [GlobalRefineByFlags(dim)])
  }

  // The factories of _grids.py; `gate` is the outcome of
  // checkconfiguration.have("HAVE_DUNE_SPGRID"), whose value is discarded.

  function AddonBisectionGrid(gate: Outcome<bool>, dimgrid: int, ctype: string := "double"): (r: Outcome<ModuleRequest>)
    ensures gate.Raises? ==> r == Raises(gate.exception)
    ensures gate.Returns? ==>
      r.Returns? && r.value.includes == AddonIncludes && r.value.methods == [] && r.value.typeName == TypeName(ctype, dimgrid, Bisection)
  {
    BisectionTail();
    Layout(ctype, dimgrid, Bisection, ", Dune::SPBisectionRefinement >");
    if gate.Raises? then Raises(gate.exception)
    else Returns(ModuleRequest(["dune/grid/spgrid.hh", "dune/grid/spgrid/dgfparser.hh", "dune/grid/spgrid/pickle.hh"],
      "Dune::SPGrid< " + ctype + ", " + IntToString(dimgrid) + ", Dune::SPBisectionRefinement >", []))
  }

  function AddonIsotropicGrid(gate: Outcome<bool>, dimgrid: int, ctype: string := "double"): (r: Outcome<ModuleRequest>)
    ensures gate.Raises? ==> r == Raises(gate.exception)
    ensures gate.Returns? ==>
      r.Returns? && r.value.includes == AddonIncludes && r.value.methods == [] && r.value.typeName == TypeName(ctype, dimgrid, Isotropic)
  {
    IsotropicTail();
    Layout(ctype, dimgrid, Isotropic, ", Dune::SPIsotropicRefinement >");
    if gate.Raises? then Raises(gate.exception)
    else Returns(ModuleRequest(["dune/grid/spgrid.hh", "dune/grid/spgrid/dgfparser.hh", "dune/grid/spgrid/pickle.hh"],
      "Dune::SPGrid< " + ctype + ", " + IntToString(dimgrid) + ", Dune::SPIsotropicRefinement >", []))
  }

  /** The add-on factories request the same type as the __init__ ones, with pickle.hh appended. */
  lemma AddonMatchesInit(gate: Outcome<bool>, dimgrid: int, ctype: string)
    requires gate.Returns?
    ensures AddonBisectionGrid(gate, dimgrid, ctype).value.typeName == SpBisectionGrid(0, Some(dimgrid), ctype).typeName
    ensures AddonIsotropicGrid(gate, dimgrid, ctype).value.typeName == SpIsotropicGrid(0, Some(dimgrid), ctype).typeName
    ensures AddonIncludes == InitIncludes + ["dune/grid/spgrid/pickle.hh"]
  {
  }

  // ---------------------------------------------------------------------
  // The registry
  // ---------------------------------------------------------------------

  /** The factories of __init__.py, as registry values. */
  datatype Factory = SpBisection | SpIsotropic | SpAnisotropic

  function Invoke(f: Factory, domainDim: int, dimgrid: Option<int>, ctype: string): ModuleRequest
  {
    match f
    case SpBisection => SpBisectionGrid(domainDim, dimgrid, ctype)
    case SpIsotropic => SpIsotropicGrid(domainDim, dimgrid, ctype)
    case SpAnisotropic => SpAnisotropicGrid(domainDim, dimgrid, ctype)
  }

  /** registry["grid"]. */
  function GridRegistry(): (m: map<string, Factory>)
    ensures m.Keys == {"SP", "SPBisection", "SPIsotropic", "SPAnisotropic"}
  {
    map["SP" := SpIsotropic, "SPBisection" := SpBisection, "SPIsotropic" := SpIsotropic, "SPAnisotropic" := SpAnisotropic]
  }

  /**
   * Every registered name builds the grid of the family it names, "SP"
   * being the isotropic grid.
   */
  lemma RegistryFamilies(domainDim: int, dimgrid: Option<int>, ctype: string)
    ensures Invoke(GridRegistry()["SP"], domainDim, dimgrid, ctype).typeName
      == TypeName(ctype, GridDimension(dimgrid, domainDim), Isotropic)
    ensures Invoke(GridRegistry()["SPIsotropic"], domainDim, dimgrid, ctype).typeName
      == TypeName(ctype, GridDimension(dimgrid, domainDim), Isotropic)
    ensures Invoke(GridRegistry()["SPBisection"], domainDim, dimgrid, ctype).typeName
      == TypeName(ctype, GridDimension(dimgrid, domainDim), Bisection)
    ensures Invoke(GridRegistry()["SPAnisotropic"], domainDim, dimgrid, ctype).typeName
      == TypeName(ctype, GridDimension(dimgrid, domainDim), Anisotropic)
    ensures forall k :: k in GridRegistry() ==> (Invoke(GridRegistry()[k], domainDim, dimgrid, ctype).methods != [] <==> k == "SPAnisotropic")
  {
  }

  // ---------------------------------------------------------------------
  // The direction mask of the generated globalRefine
  // ---------------------------------------------------------------------

  /** Flag i: the entry i exists (i < min(dim, |refDir|)) and is non-zero. */
  function MaskFlags(dim: nat, refDir: seq<int>): (bs: seq<bool>)
    ensures |bs| == dim
    ensures forall i :: 0 <= i < dim ==> (bs[i] <==> i < |refDir| && refDir[i] != 0)
  {
    seq(dim, i requires 0 <= i < dim => i < |refDir| && refDir[i] != 0)
  }

  /**
   * The loop of the generated `globalRefine`: `s[i] = 1` for every
   * non-zero refDir[i] with i < min(dim, refDir.size()).  The result is
   * the mask FromBits(MaskFlags(...)), below 2^dim, so the anisotropic
   * policy constructor accepts it.  (The source passes the bitset itself
   * where the policy takes an unsigned int; the model uses its value.)
   */
  method GlobalRefineMask(dim: nat, refDir: seq<int>) returns (s: nat)
    ensures s == FromBits(MaskFlags(dim, refDir))
    ensures forall i :: 0 <= i < dim ==> (Bit(s, i) == 1 <==> i < |refDir| && refDir[i] != 0)
    ensures MakeAnisotropic(dim, s) == Ok(AnisotropicPolicy(s))
  {
    ghost var bs := MaskFlags(dim, refDir);
    s := 0;
    var size := if |refDir| >= dim then dim else |refDir|;
    var i := 0;
    while i < size
      invariant 0 <= i <= size
      invariant s < Pow2(i) && BitsAre(s, bs, i)
    {
      BitsAreStep(s, bs, i);
      if refDir[i] != 0 {
        s := Or(s, Pow2(i));
      } else {
        assert Or(s, Pow2(i) * 0) == s;
      }
      i := i + 1;
    }
    while i < dim
      invariant size <= i <= dim
      invariant s < Pow2(i) && BitsAre(s, bs, i)
    {
      BitsAreStep(s, bs, i);
      assert Or(s, Pow2(i) * 0) == s;
      i := i + 1;
    }
    BitsAreFromBits(s, bs);
    forall k | 0 <= k < dim
      ensures Bit(s, k) == 1 <==> k < |refDir| && refDir[k] != 0
    {
      FromBitsBit(bs, k);
    }
  }
}
