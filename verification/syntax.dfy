/** The subset of the host language's syntax trees that the two attribute
    macros inspect: types, trait bounds, generic parameters, function
    arguments, struct fields, and the function and struct declarations that
    carry them. Everything the macros pass through untouched (function
    bodies, return types, attributes, visibility, spans) is not represented. */
module Syntax {

  /** One `::`-separated segment of a path; `hasArguments` records whether it
      carries angle-bracketed or parenthesised generic arguments (`Vec<u32>`). */
  datatype PathSegment = PathSegment(ident: string, hasArguments: bool)

  /** A path such as `u32`, `std::vec::Vec<T>` or `::shared_type::Primitive`. */
  datatype Path = Path(leadingColon: bool, segments: seq<PathSegment>)

  /** A type as written in a declaration. Only two forms matter to the
      classifier: paths and fixed-size arrays `[T; N]` (the length is never
      looked at). Every other form (reference, slice, tuple, `*const T`,
      `fn(..)`, trait object, ...) is `TypeOther`, labelled by its kind. */
  datatype Type =
    | TypePath(path: Path)
    | TypeArray(elem: Type)
    | TypeOther(kind: string)

  /** A bound in the bound list of a type parameter. */
  datatype TypeParamBound =
    | TraitBound(path: Path)
    | LifetimeBound(lifetime: string)

  /** A generic parameter of a function or struct declaration. */
  datatype GenericParam =
    | TypeParam(ident: string, bounds: seq<TypeParamBound>)
    | LifetimeParam(lifetime: string)
    | ConstParam(ident: string, ty: Type)

  /** An argument pattern: a plain identifier, or any destructuring or
      wildcard pattern. */
  datatype Pat = PatIdent(ident: string) | PatOther

  /** A function argument: the `self` receiver of a method, or `pat: ty`. */
  datatype FnArg = Receiver | Typed(pat: Pat, ty: Type)

  /** A function declaration, reduced to its name, generics and arguments. */
  datatype ItemFn = ItemFn(ident: string, generics: seq<GenericParam>, inputs: seq<FnArg>)

  datatype NamedField = NamedField(ident: string, ty: Type)

  /** The three shapes of struct body: `{ a: T, .. }`, `( T, .. )` and none. */
  datatype Fields =
    | Named(named: seq<NamedField>)
    | Unnamed(unnamed: seq<Type>)
    | Unit

  datatype ItemStruct = ItemStruct(ident: string, generics: seq<GenericParam>, fields: Fields)

  /** A single-segment path without leading colon or arguments: how `u32`,
      `T` or `DeviceStructMarker` are written. */
  function SimplePath(ident: string): (p: Path)
    ensures |p.segments| == 1 && p.segments[0].ident == ident
  {
    Path(false, [PathSegment(ident, false)])
  }

  /** `syn::Path::is_ident`: the path is exactly the bare identifier `ident`. */
  predicate IsIdent(p: Path, ident: string)
  {
    && !p.leadingColon
    && |p.segments| == 1
    && !p.segments[0].hasArguments
    && p.segments[0].ident == ident
  }
}
