/** Generic-parameter normalisation, done identically by both attribute
    macros except for the bound they append: every type parameter whose
    bounds do not name `DeviceStructMarker` gets one more bound and joins the
    set of accepted generics. Lifetime and const parameters, and type
    parameters already bound by `DeviceStructMarker`, are left alone and are
    NOT accepted. */
module Generics {
  import opened Syntax

  const DeviceStructMarkerBound: TypeParamBound := TraitBound(SimplePath("DeviceStructMarker"))
  const PrimitiveBound: TypeParamBound := TraitBound(SimplePath("Primitive"))

  /** Whether some bound is the trait bound spelled exactly `DeviceStructMarker`
      (a qualified spelling such as `shared_type::DeviceStructMarker` is not). */
  predicate HasDeviceStructMarker(bounds: seq<TypeParamBound>)
  {
    exists k :: 0 <= k < |bounds| && bounds[k].TraitBound? && IsIdent(bounds[k].path, "DeviceStructMarker")
  }

  /** The parameters the normalisation acts on. */
  predicate NeedsBound(g: GenericParam)
  {
    g.TypeParam? && !HasDeviceStructMarker(g.bounds)
  }

  /** The rewritten generic parameter list and the accepted generic names. */
  datatype Normalised = Normalised(params: seq<GenericParam>, accepted: set<string>)

  /** Walks the parameters in order, appending `added` to the bounds of every
      parameter that needs a bound and collecting its name. */
  function Normalise(params: seq<GenericParam>, added: TypeParamBound): (r: Normalised)
    ensures |r.params| == |params|
    ensures forall i :: 0 <= i < |params| && NeedsBound(params[i]) ==>
      r.params[i] == TypeParam(params[i].ident, params[i].bounds + [added])
    ensures forall i :: 0 <= i < |params| && !NeedsBound(params[i]) ==> r.params[i] == params[i]
    ensures forall n :: n in r.accepted <==>
      exists i :: 0 <= i < |params| && NeedsBound(params[i]) && params[i].ident == n
    decreases |params|
  {
    if |params| == 0 then Normalised([], {})
    else
      var prefix := params[..|params| - 1];
      var last := params[|params| - 1];
      assert forall i :: 0 <= i < |prefix| ==> prefix[i] == params[i];
      var rest := Normalise(prefix, added);
      if NeedsBound(last) then
        Normalised(rest.params + [TypeParam(last.ident, last.bounds + [added])], rest.accepted + {last.ident})
      else
        Normalised(rest.params + [last], rest.accepted)
  }

  /** Appending the bound `DeviceStructMarker` itself satisfies the check. */
  lemma MarkerBoundRecognised(bounds: seq<TypeParamBound>)
    ensures HasDeviceStructMarker(bounds + [DeviceStructMarkerBound])
  {
    var all := bounds + [DeviceStructMarkerBound];
    assert all[|all| - 1] == DeviceStructMarkerBound;
  }

  /** The function-macro normalisation (which appends `DeviceStructMarker`)
      is idempotent: a second pass changes nothing and accepts nothing. */
  lemma KernelFnNormalisationIdempotent(params: seq<GenericParam>)
    ensures var once := Normalise(params, DeviceStructMarkerBound);
            Normalise(once.params, DeviceStructMarkerBound) == Normalised(once.params, {})
  {
    var once := Normalise(params, DeviceStructMarkerBound);
    var twice := Normalise(once.params, DeviceStructMarkerBound);
    forall i | 0 <= i < |params|
      ensures !NeedsBound(once.params[i])
    {
      if NeedsBound(params[i]) {
        MarkerBoundRecognised(params[i].bounds);
      }
    }
    assert twice.params == once.params;
    assert twice.accepted == {};
  }

  /** The struct-macro normalisation checks for `DeviceStructMarker` but
      appends `Primitive`, so a second pass appends `Primitive` again. */
  lemma KernelStructNormalisationNotIdempotent()
    ensures var params := [TypeParam("T", [])];
            var once := Normalise(params, PrimitiveBound);
            Normalise(once.params, PrimitiveBound).params == [TypeParam("T", [PrimitiveBound, PrimitiveBound])]
  {
    var params := [TypeParam("T", [])];
    assert NeedsBound(params[0]);
    var once := Normalise(params, PrimitiveBound);
    assert [] + [PrimitiveBound] == [PrimitiveBound];
    assert once.params == [TypeParam("T", [PrimitiveBound])];
    assert !IsIdent(PrimitiveBound.path, "DeviceStructMarker");
    assert NeedsBound(once.params[0]);
    assert [PrimitiveBound] + [PrimitiveBound] == [PrimitiveBound, PrimitiveBound];
  }

  /** A type parameter already bound by `DeviceStructMarker` is not accepted,
      unless some other, unbound parameter has the same name. */
  lemma MarkedGenericNotAccepted(params: seq<GenericParam>, added: TypeParamBound, name: string)
    requires forall i :: 0 <= i < |params| && params[i].TypeParam? && params[i].ident == name ==>
      HasDeviceStructMarker(params[i].bounds)
    ensures name !in Normalise(params, added).accepted
  {
  }

  /** An unbound type parameter is always accepted. */
  lemma UnboundGenericAccepted(params: seq<GenericParam>, added: TypeParamBound, i: nat)
    requires i < |params| && params[i].TypeParam? && !HasDeviceStructMarker(params[i].bounds)
    ensures params[i].ident in Normalise(params, added).accepted
  {
  }
}
