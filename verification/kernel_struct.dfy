/** The `kernel_struct` attribute macro: validates the field types of a
    device struct, re-emits the struct with its generics normalised, and
    implements `DeviceStructMarker` for it. */
module KernelStruct {
  import opened Syntax
  import opened TyCheck
  import opened Generics
  import opened Indices
  import opened Expansion

  /** The generics of `s` after normalisation. The macro tests for a
      `DeviceStructMarker` bound but appends `Primitive`. */
  function NormaliseStruct(s: ItemStruct): Normalised
  {
    Normalise(s.generics, PrimitiveBound)
  }

  predicate InvalidField(field: NamedField, accepted: GenericParamSet)
  {
    !IsValidType(field.ty, accepted)
  }

  function InvalidFieldOf(accepted: GenericParamSet): NamedField -> bool
  {
    field => InvalidField(field, accepted)
  }

  /** One diagnostic per named field with a rejected type, in field order. */
  function FieldErrors(fields: seq<NamedField>, structName: string, accepted: GenericParamSet): (r: seq<Diagnostic>)
    ensures |r| <= |fields|
    ensures forall k :: 0 <= k < |r| ==> r[k].FieldNotPrimitive? && r[k].structName == structName
    decreases |fields|
  {
    if |fields| == 0 then []
    else
      var last := fields[|fields| - 1];
      FieldErrors(fields[..|fields| - 1], structName, accepted)
        + (if InvalidField(last, accepted) then [FieldNotPrimitive(last.ident, structName)] else [])
  }

  /** Only structs with named fields are checked; tuple and unit structs never
      produce a diagnostic. */
  function Diagnostics(s: ItemStruct): (r: seq<Diagnostic>)
    ensures !s.fields.Named? ==> r == []
  {
    match s.fields
    case Named(fields) => FieldErrors(fields, s.ident, NormaliseStruct(s).accepted)
    case _ => []
  }

  /** The macro's output: the errors, then the struct with normalised
      generics, then `impl DeviceStructMarker` for it, whatever the errors. */
  function Expand(s: ItemStruct): (out: seq<Item>)
    ensures |out| == |Diagnostics(s)| + 2
    ensures forall k :: 0 <= k < |out| - 2 ==> out[k] == CompileError(Diagnostics(s)[k])
    ensures out[|out| - 2] == Struct(ItemStruct(s.ident, NormaliseStruct(s).params, s.fields))
    ensures out[|out| - 1] == DeviceStructMarkerImpl(s.ident)
  {
    AsErrors(Diagnostics(s)) + [Struct(s.(generics := NormaliseStruct(s).params)), DeviceStructMarkerImpl(s.ident)]
  }

  /** The macro as it is written: normalise the generics, then one pass over
      the named fields collecting errors. */
  method ExpandKernelStruct(s: ItemStruct) returns (out: seq<Item>)
    ensures out == Expand(s)
  {
    var normalised := Normalise(s.generics, PrimitiveBound);
    var errors: seq<Diagnostic> := [];
    if s.fields.Named? {
      var fields := s.fields.named;
      var i := 0;
      while i < |fields|
        invariant 0 <= i <= |fields|
        invariant errors == FieldErrors(fields[..i], s.ident, normalised.accepted)
      {
        assert fields[..i + 1][..i] == fields[..i];
        assert fields[..i + 1][i] == fields[i];
        if !IsValidType(fields[i].ty, normalised.accepted) {
          errors := errors + [FieldNotPrimitive(fields[i].ident, s.ident)];
        }
        i := i + 1;
      }
      assert fields[..i] == fields;
    }
    assert errors == Diagnostics(s);
    assert normalised == NormaliseStruct(s);
    out := AsErrors(errors) + [Struct(s.(generics := normalised.params)), DeviceStructMarkerImpl(s.ident)];
  }

  /** The field errors are exactly one per invalid field, in field order, and
      the k-th names the k-th invalid field. */
  lemma {:induction false} FieldErrorsExact(fields: seq<NamedField>, structName: string, accepted: GenericParamSet)
    ensures var pos := Positions(fields, InvalidFieldOf(accepted));
            var errors := FieldErrors(fields, structName, accepted);
            |errors| == |pos| &&
            forall k :: 0 <= k < |pos| ==> errors[k] == FieldNotPrimitive(fields[pos[k]].ident, structName)
    decreases |fields|
  {
    if |fields| > 0 {
      var prefix := fields[..|fields| - 1];
      FieldErrorsExact(prefix, structName, accepted);
      assert forall i :: 0 <= i < |prefix| ==> prefix[i] == fields[i];
      assert InvalidFieldOf(accepted)(fields[|fields| - 1]) == InvalidField(fields[|fields| - 1], accepted);
    }
  }

  /** A struct with named fields gets as many errors as it has invalid fields. */
  lemma ErrorCount(s: ItemStruct)
    requires s.fields.Named?
    ensures |Expand(s)| - 2 == |MatchSet(s.fields.named, InvalidFieldOf(NormaliseStruct(s).accepted))|
  {
    var accepted := NormaliseStruct(s).accepted;
    FieldErrorsExact(s.fields.named, s.ident, accepted);
    PositionsCount(s.fields.named, InvalidFieldOf(accepted));
  }

  /** A struct is accepted without error exactly when it has no named field
      with a rejected type. */
  lemma AcceptedIff(s: ItemStruct)
    ensures Diagnostics(s) == [] <==>
      (s.fields.Named? ==> forall i :: 0 <= i < |s.fields.named| ==>
        IsValidType(s.fields.named[i].ty, NormaliseStruct(s).accepted))
  {
    if s.fields.Named? {
      var accepted := NormaliseStruct(s).accepted;
      FieldErrorsExact(s.fields.named, s.ident, accepted);
      PositionsEmpty(s.fields.named, InvalidFieldOf(accepted));
      assert forall i :: 0 <= i < |s.fields.named| ==>
        InvalidFieldOf(accepted)(s.fields.named[i]) == InvalidField(s.fields.named[i], accepted);
    }
  }

  function Field(name: string, ty: string): NamedField
  {
    NamedField(name, TypePath(SimplePath(ty)))
  }

  /** `struct S { a: u32, b: f32 }` is accepted; `struct S { a: u32, b: f64 }`
      gets one error, naming `b`. */
  lemma PrimitiveFieldsExample()
    ensures Diagnostics(ItemStruct("S", [], Named([Field("a", "u32"), Field("b", "f32")]))) == []
    ensures Diagnostics(ItemStruct("S", [], Named([Field("a", "u32"), Field("b", "f64")]))) ==
      [FieldNotPrimitive("b", "S")]
  {
  }

  /** A generic field type is accepted when its parameter is unbounded, but
      rejected when the parameter is already bound by `DeviceStructMarker`. */
  lemma GenericFieldExample()
    ensures Diagnostics(ItemStruct("S", [TypeParam("T", [])], Named([Field("x", "T")]))) == []
    ensures Diagnostics(ItemStruct("S", [TypeParam("T", [DeviceStructMarkerBound])], Named([Field("x", "T")]))) ==
      [FieldNotPrimitive("x", "S")]
  {
    var fields := [Field("x", "T")];
    assert fields[..0] == [];
    var unbound := ItemStruct("S", [TypeParam("T", [])], Named(fields));
    assert NeedsBound(unbound.generics[0]);
    assert "T" in NormaliseStruct(unbound).accepted;
    var marked := ItemStruct("S", [TypeParam("T", [DeviceStructMarkerBound])], Named(fields));
    MarkerBoundRecognised([]);
    assert [] + [DeviceStructMarkerBound] == [DeviceStructMarkerBound];
    MarkedGenericNotAccepted(marked.generics, PrimitiveBound, "T");
    assert InvalidField(fields[0], NormaliseStruct(marked).accepted);
  }
}
