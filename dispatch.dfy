/** The choice of interpolation pass from its user-given name. */
module Dispatch {

  datatype Option<T> = None | Some(value: T)

  /** The four passes the resampler can run. */
  datatype Interpolation = LinearKind | PiecewiseConstantKind | TangentlessHermiteKind | CatmullRomKind

  /** ASCII lower-casing of one character. */
  function LowerChar(c: char): char
  {
    if 'A' <= c <= 'Z' then (c as int - 'A' as int + 'a' as int) as char else c
  }

  /** ASCII lower-casing of a name, character by character. */
  function ToLower(s: string): string
  {
    seq(|s|, i requires 0 <= i < |s| => LowerChar(s[i]))
  }

  /** The names accepted for each pass (all lower case). */
  function Aliases(kind: Interpolation): set<string>
  {
    match kind
    case LinearKind => {"lerp", "linear", "l"}
    case PiecewiseConstantKind => {"piecewise_constant", "piecewise", "piece", "p"}
    case TangentlessHermiteKind => {"tangentless_hermite", "th"}
    case CatmullRomKind => {"catmull_rom", "cat", "cr"}
  }

  /** The selection of `do_resample`: lower-case the name, then match it
      against the aliases in order; `None` where the source panics. */
  function Select(name: string): (r: Option<Interpolation>)
    ensures r.Some? ==> ToLower(name) in Aliases(r.value)
    ensures r.None? ==>
      ToLower(name) !in Aliases(LinearKind) + Aliases(PiecewiseConstantKind) + Aliases(TangentlessHermiteKind) + Aliases(CatmullRomKind)
  {
    var n := ToLower(name);
    if n == "lerp" || n == "linear" || n == "l" then Some(LinearKind)
    else if n == "piecewise_constant" || n == "piecewise" || n == "piece" || n == "p" then Some(PiecewiseConstantKind)
    else if n == "tangentless_hermite" || n == "th" then Some(TangentlessHermiteKind)
    else if n == "catmull_rom" || n == "cat" || n == "cr" then Some(CatmullRomKind)
    else None
  }

  /** Lower-casing leaves no upper-case letter and is idempotent. */
  lemma ToLowerIdempotent(s: string)
    ensures forall i :: 0 <= i < |ToLower(s)| ==> !('A' <= ToLower(s)[i] <= 'Z')
    ensures ToLower(ToLower(s)) == ToLower(s)
  {
  }

  /** No name is an alias of two passes. */
  lemma AliasesDisjoint(k1: Interpolation, k2: Interpolation)
    requires k1 != k2
    ensures Aliases(k1) !! Aliases(k2)
  {
  }

  /** A name selects a pass exactly when its lower-cased form is one of
      that pass's aliases, and no pass exactly when it is nobody's alias. */
  lemma SelectByAliases(name: string, kind: Interpolation)
    ensures Select(name) == Some(kind) <==> ToLower(name) in Aliases(kind)
    ensures Select(name) == None <==>
      ToLower(name) !in Aliases(LinearKind) + Aliases(PiecewiseConstantKind) + Aliases(TangentlessHermiteKind) + Aliases(CatmullRomKind)
  {
  }

  /** Selection ignores ASCII case. */
  lemma SelectCaseInsensitive(name: string)
    ensures Select(name) == Select(ToLower(name))
  {
    ToLowerIdempotent(name);
  }

  /** Names as the command line may give them, in any case. */
  lemma SelectAcceptedExamples()
    ensures Select("LERP") == Some(LinearKind)
    ensures Select("Cat") == Some(CatmullRomKind)
    ensures Select("th") == Some(TangentlessHermiteKind)
    ensures Select("P") == Some(PiecewiseConstantKind)
  {
    assert ToLower("LERP") == "lerp";
    assert ToLower("Cat") == "cat";
    assert ToLower("th") == "th";
    assert ToLower("P") == "p";
  }

  /** A name that is nobody's alias, and the empty name, select nothing. */
  lemma SelectRejectedExamples()
    ensures Select("cubic") == None
    ensures Select("") == None
  {
    assert ToLower("cubic") == "cubic";
  }
}
