/** The type classifier shared by both attribute macros: which declared
    types may cross the host/device boundary. */
module TyCheck {
  import opened Syntax
  import opened Wrappers

  /** Names of the generic parameters known to carry the required capability
      in the declaration being checked. */
  type GenericParamSet = set<string>

  /** The three primitive scalar types a kernel may exchange with the host. */
  const AllowedPrimitiveTypes: seq<string> := ["u32", "i32", "f32"]

  /** The identifier of the last segment of a path, if it has any segment. */
  function LastIdent(p: Path): (r: Option<string>)
    ensures r.None? <==> |p.segments| == 0
    ensures r.Some? ==> r.value == p.segments[|p.segments| - 1].ident
  {
    if |p.segments| == 0 then None else Some(p.segments[|p.segments| - 1].ident)
  }

  /** The element type reached by peeling every array layer off `t`. */
  function Innermost(t: Type): (r: Type)
    ensures !r.TypeArray?
  {
    match t
    case TypeArray(elem) => Innermost(elem)
    case _ => t
  }

  /** Whether a non-array type is acceptable on its own: a path whose last
      identifier is an allowed primitive or an accepted generic. */
  predicate IsAllowedLeaf(t: Type, generics: GenericParamSet)
  {
    match t
    case TypePath(p) =>
      LastIdent(p).Some? && (LastIdent(p).value in AllowedPrimitiveTypes || LastIdent(p).value in generics)
    case _ => false
  }

  /** The classifier: a path type is judged by its last segment only; an
      array by its element type; every other form is rejected. */
  function IsValidType(t: Type, generics: GenericParamSet): (valid: bool)
    ensures valid <==> IsAllowedLeaf(Innermost(t), generics)
  {
    match t
    case TypePath(p) =>
      if |p.segments| > 0 then
        var ident := p.segments[|p.segments| - 1].ident;
        ident in AllowedPrimitiveTypes || ident in generics
      else
        false
    case TypeArray(elem) => IsValidType(elem, generics)
    case TypeOther(_) => false
  }

  /** Whether an argument type is `u32`, recognised by its last path segment. */
  function IsU32(t: Type): (r: bool)
    ensures r ==> t.TypePath? && LastIdent(t.path) == Some("u32")
    ensures t.TypePath? && LastIdent(t.path) == Some("u32") ==> r
  {
    if t.TypePath? && |t.path.segments| > 0 then
      t.path.segments[|t.path.segments| - 1].ident == "u32"
    else
      false
  }

  /** `t` wrapped in `n` array layers: `[[t; _]; _]` for `n == 2`. */
  function WrapArray(t: Type, n: nat): (r: Type)
    ensures Innermost(r) == Innermost(t)
  {
    if n == 0 then t else TypeArray(WrapArray(t, n - 1))
  }

  /** A path type is valid exactly when it has a last segment whose identifier
      is an allowed primitive or an accepted generic. */
  lemma PathValidity(p: Path, generics: GenericParamSet)
    ensures IsValidType(TypePath(p), generics) <==>
      |p.segments| > 0 &&
      (p.segments[|p.segments| - 1].ident in AllowedPrimitiveTypes ||
       p.segments[|p.segments| - 1].ident in generics)
  {
  }

  /** A path with no segment is rejected, whatever generics are accepted. */
  lemma EmptyPathInvalid(leadingColon: bool, generics: GenericParamSet)
    ensures !IsValidType(TypePath(Path(leadingColon, [])), generics)
  {
  }

  /** Only the last segment matters: any prefix can be put in front of a
      valid path without changing its validity. */
  lemma QualifiedPathValidity(prefix: seq<PathSegment>, last: PathSegment, leadingColon: bool, generics: GenericParamSet)
    ensures IsValidType(TypePath(Path(leadingColon, prefix + [last])), generics) <==>
            IsValidType(TypePath(SimplePath(last.ident)), generics)
  {
  }

  /** Array wrapping neither creates nor destroys validity, at any depth. */
  lemma ArrayWrapPreservesValidity(t: Type, n: nat, generics: GenericParamSet)
    ensures IsValidType(WrapArray(t, n), generics) == IsValidType(t, generics)
  {
  }

  /** Every type form other than a path or an array is rejected. */
  lemma OtherFormsInvalid(kind: string, generics: GenericParamSet)
    ensures !IsValidType(TypeOther(kind), generics)
  {
  }

  /** Accepting more generics never rejects a type that was accepted. */
  lemma ValidityMonotonic(t: Type, small: GenericParamSet, large: GenericParamSet)
    requires small <= large
    requires IsValidType(t, small)
    ensures IsValidType(t, large)
  {
  }

  /** With no generics accepted, `u32` passes and `u64` does not. */
  lemma PrimitiveExamples()
    ensures IsValidType(TypePath(SimplePath("u32")), {})
    ensures !IsValidType(TypePath(SimplePath("u64")), {})
  {
  }

  /** `is_u32` holds exactly of paths ending in `u32`; in particular an array
      of `u32` is not `u32`, although it is a valid type. */
  lemma U32Recognition(p: Path)
    ensures IsU32(TypePath(p)) <==> |p.segments| > 0 && p.segments[|p.segments| - 1].ident == "u32"
    ensures !IsU32(TypeArray(TypePath(p)))
  {
  }

  /** A `u32` type is valid under any set of accepted generics. */
  lemma U32IsValid(t: Type, generics: GenericParamSet)
    requires IsU32(t)
    ensures IsValidType(t, generics)
  {
  }
}
