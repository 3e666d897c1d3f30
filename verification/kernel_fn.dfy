/** The `kernel_fn` attribute macro: validates a kernel function's signature
    and re-emits the function with its generics normalised. */
module KernelFn {
  import opened Syntax
  import opened TyCheck
  import opened Generics
  import opened Indices
  import opened Expansion

  const NumThreadBlocks: string := "num_thread_blocks"
  const ThreadBlockSize: string := "thread_block_size"
  const MissingNumThreadBlocks: string := "num_thread_blocks: u32"
  const MissingThreadBlockSize: string := "thread_block_size: u32"

  /** The arguments the macro looks at: typed arguments bound to a plain
      identifier. A `self` receiver or a destructuring pattern is skipped. */
  predicate IsChecked(a: FnArg)
  {
    a.Typed? && a.pat.PatIdent?
  }

  /** `a` is the control argument `name: u32`. */
  predicate IsControlParam(a: FnArg, name: string)
  {
    IsChecked(a) && a.pat.ident == name && IsU32(a.ty)
  }

  predicate HasControlParam(inputs: seq<FnArg>, name: string)
  {
    exists i :: 0 <= i < |inputs| && IsControlParam(inputs[i], name)
  }

  /** A checked argument whose type the classifier rejects. */
  predicate Offending(a: FnArg, accepted: GenericParamSet)
  {
    IsChecked(a) && !IsValidType(a.ty, accepted)
  }

  function OffendingArg(accepted: GenericParamSet): FnArg -> bool
  {
    a => Offending(a, accepted)
  }

  /** One diagnostic per offending argument, walking the arguments in order. */
  function ArgErrors(inputs: seq<FnArg>, accepted: GenericParamSet): (r: seq<Diagnostic>)
    ensures |r| <= |inputs|
    ensures forall k :: 0 <= k < |r| ==> r[k].ArgumentTypeNotAllowed? && !IsValidType(r[k].ty, accepted)
    decreases |inputs|
  {
    if |inputs| == 0 then []
    else
      var last := inputs[|inputs| - 1];
      ArgErrors(inputs[..|inputs| - 1], accepted)
        + (if Offending(last, accepted) then [ArgumentTypeNotAllowed(last.ty)] else [])
  }

  /** The control arguments that are absent, `num_thread_blocks` listed first. */
  function MissingControlParams(inputs: seq<FnArg>): (r: seq<string>)
    ensures MissingNumThreadBlocks in r <==> !HasControlParam(inputs, NumThreadBlocks)
    ensures MissingThreadBlockSize in r <==> !HasControlParam(inputs, ThreadBlockSize)
    ensures |r| == 2 ==> r == [MissingNumThreadBlocks, MissingThreadBlockSize]
    ensures |r| <= 2
  {
    (if HasControlParam(inputs, NumThreadBlocks) then [] else [MissingNumThreadBlocks])
      + (if HasControlParam(inputs, ThreadBlockSize) then [] else [MissingThreadBlockSize])
  }

  /** A single diagnostic naming every missing control argument, or none. */
  function ControlErrors(inputs: seq<FnArg>): (r: seq<Diagnostic>)
    ensures |r| <= 1
    ensures |r| == 1 <==> !HasControlParam(inputs, NumThreadBlocks) || !HasControlParam(inputs, ThreadBlockSize)
    ensures |r| == 1 ==> r[0] == MissingKernelArguments(MissingControlParams(inputs))
  {
    var missing := MissingControlParams(inputs);
    if |missing| == 0 then [] else [MissingKernelArguments(missing)]
  }

  /** The generics of `f` after normalisation with `DeviceStructMarker`. */
  function NormaliseFn(f: ItemFn): Normalised
  {
    Normalise(f.generics, DeviceStructMarkerBound)
  }

  /** Every diagnostic for `f`: argument errors in argument order, then the
      missing-control-argument error. */
  function Diagnostics(f: ItemFn): (r: seq<Diagnostic>)
    ensures forall k :: 0 <= k < |r| - 1 ==> r[k].ArgumentTypeNotAllowed?
  {
    ArgErrors(f.inputs, NormaliseFn(f).accepted) + ControlErrors(f.inputs)
  }

  /** The macro's output: one compile error per diagnostic, then the function
      with normalised generics, which is emitted whatever the errors. */
  function Expand(f: ItemFn): (out: seq<Item>)
    ensures |out| == |Diagnostics(f)| + 1
    ensures forall k :: 0 <= k < |out| - 1 ==> out[k] == CompileError(Diagnostics(f)[k])
    ensures out[|out| - 1] == Function(ItemFn(f.ident, NormaliseFn(f).params, f.inputs))
  {
    AsErrors(Diagnostics(f)) + [Function(f.(generics := NormaliseFn(f).params))]
  }

  /** The macro as it is written: normalise the generics, then one pass over
      the arguments that records the control arguments and collects the
      argument errors, then the combined missing-argument error. */
  method ExpandKernelFn(f: ItemFn) returns (out: seq<Item>)
    ensures out == Expand(f)
  {
    var normalised := Normalise(f.generics, DeviceStructMarkerBound);
    var hasNumThreadBlocks := false;
    var hasThreadBlockSize := false;
    var errors: seq<Diagnostic> := [];
    var i := 0;
    while i < |f.inputs|
      invariant 0 <= i <= |f.inputs|
      invariant hasNumThreadBlocks <==> HasControlParam(f.inputs[..i], NumThreadBlocks)
      invariant hasThreadBlockSize <==> HasControlParam(f.inputs[..i], ThreadBlockSize)
      invariant errors == ArgErrors(f.inputs[..i], normalised.accepted)
    {
      var arg := f.inputs[i];
      assert f.inputs[..i + 1][..i] == f.inputs[..i];
      assert forall j :: 0 <= j < i ==> f.inputs[..i + 1][j] == f.inputs[..i][j];
      if arg.Typed? && arg.pat.PatIdent? {
        if arg.pat.ident == NumThreadBlocks && IsU32(arg.ty) {
          hasNumThreadBlocks := true;
        }
        if arg.pat.ident == ThreadBlockSize && IsU32(arg.ty) {
          hasThreadBlockSize := true;
        }
        if !IsValidType(arg.ty, normalised.accepted) {
          errors := errors + [ArgumentTypeNotAllowed(arg.ty)];
        }
      }
      assert f.inputs[..i + 1][i] == arg;
      i := i + 1;
    }
    assert f.inputs[..i] == f.inputs;
    if !hasNumThreadBlocks || !hasThreadBlockSize {
      var missing: seq<string> := [];
      if !hasNumThreadBlocks {
        missing := missing + [MissingNumThreadBlocks];
      }
      if !hasThreadBlockSize {
        missing := missing + [MissingThreadBlockSize];
      }
      assert missing == MissingControlParams(f.inputs);
      errors := errors + [MissingKernelArguments(missing)];
    }
    out := AsErrors(errors) + [Function(f.(generics := normalised.params))];
  }

  /** The argument errors are exactly one per offending argument, in argument
      order: the k-th error carries the type of the k-th offending argument. */
  lemma {:induction false} ArgErrorsExact(inputs: seq<FnArg>, accepted: GenericParamSet)
    ensures var pos := Positions(inputs, OffendingArg(accepted));
            var errors := ArgErrors(inputs, accepted);
            |errors| == |pos| &&
            forall k :: 0 <= k < |pos| ==> errors[k] == ArgumentTypeNotAllowed(inputs[pos[k]].ty)
    decreases |inputs|
  {
    if |inputs| > 0 {
      var prefix := inputs[..|inputs| - 1];
      ArgErrorsExact(prefix, accepted);
      assert forall i :: 0 <= i < |prefix| ==> prefix[i] == inputs[i];
      assert OffendingArg(accepted)(inputs[|inputs| - 1]) == Offending(inputs[|inputs| - 1], accepted);
    }
  }

  /** The number of errors is the number of offending arguments, plus one
      when a control argument is missing. */
  lemma ErrorCount(f: ItemFn)
    ensures |Expand(f)| - 1 == |MatchSet(f.inputs, OffendingArg(NormaliseFn(f).accepted))|
      + (if HasControlParam(f.inputs, NumThreadBlocks) && HasControlParam(f.inputs, ThreadBlockSize) then 0 else 1)
  {
    var accepted := NormaliseFn(f).accepted;
    ArgErrorsExact(f.inputs, accepted);
    PositionsCount(f.inputs, OffendingArg(accepted));
  }

  /** The function is accepted without error exactly when every checked
      argument has a valid type and both control arguments are present. */
  lemma AcceptedIff(f: ItemFn)
    ensures Diagnostics(f) == [] <==>
      (forall i :: 0 <= i < |f.inputs| ==> !Offending(f.inputs[i], NormaliseFn(f).accepted))
      && HasControlParam(f.inputs, NumThreadBlocks) && HasControlParam(f.inputs, ThreadBlockSize)
  {
    var accepted := NormaliseFn(f).accepted;
    ArgErrorsExact(f.inputs, accepted);
    PositionsEmpty(f.inputs, OffendingArg(accepted));
    assert forall i :: 0 <= i < |f.inputs| ==>
      OffendingArg(accepted)(f.inputs[i]) == Offending(f.inputs[i], accepted);
  }

  /** If neither control argument is present the single error lists both, in
      a fixed order. */
  lemma BothMissingMessage(f: ItemFn)
    requires !HasControlParam(f.inputs, NumThreadBlocks) && !HasControlParam(f.inputs, ThreadBlockSize)
    ensures ControlErrors(f.inputs) == [MissingKernelArguments([MissingNumThreadBlocks, MissingThreadBlockSize])]
    ensures Message(ControlErrors(f.inputs)[0]) ==
      "kernel function must contain arguments: " + "num_thread_blocks: u32" + " and " + "thread_block_size: u32"
  {
  }

  /** An argument named `num_thread_blocks` satisfies the requirement only if
      its type is `u32`: with an `i32` one, that control argument is reported
      missing although an argument of that name exists. */
  lemma ControlParamNeedsU32()
    ensures var inputs := [Typed(PatIdent(NumThreadBlocks), TypePath(SimplePath("i32"))),
                           Typed(PatIdent(ThreadBlockSize), TypePath(SimplePath("u32")))];
            ControlErrors(inputs) == [MissingKernelArguments([MissingNumThreadBlocks])]
  {
    var inputs := [Typed(PatIdent(NumThreadBlocks), TypePath(SimplePath("i32"))),
                   Typed(PatIdent(ThreadBlockSize), TypePath(SimplePath("u32")))];
    assert IsControlParam(inputs[1], ThreadBlockSize);
    assert !IsControlParam(inputs[0], NumThreadBlocks);
    assert !IsControlParam(inputs[1], NumThreadBlocks);
    assert HasControlParam(inputs, ThreadBlockSize);
    assert !HasControlParam(inputs, NumThreadBlocks);
    assert MissingControlParams(inputs) == [MissingNumThreadBlocks];
  }

  /** An argument whose type is a generic parameter declared without a
      `DeviceStructMarker` bound is never reported. */
  lemma UnboundGenericArgumentAccepted(f: ItemFn, g: nat, a: nat)
    requires g < |f.generics| && f.generics[g].TypeParam? && !HasDeviceStructMarker(f.generics[g].bounds)
    requires a < |f.inputs| && f.inputs[a].Typed? && f.inputs[a].ty == TypePath(SimplePath(f.generics[g].ident))
    ensures !Offending(f.inputs[a], NormaliseFn(f).accepted)
  {
    UnboundGenericAccepted(f.generics, DeviceStructMarkerBound, g);
  }

  /** The opposite holds for a generic declared WITH the bound: it is not
      accepted, so an argument of that type is reported (unless the name is
      also a primitive's). */
  lemma MarkedGenericArgumentRejected(f: ItemFn, name: string, a: nat)
    requires name !in AllowedPrimitiveTypes
    requires forall i :: 0 <= i < |f.generics| && f.generics[i].TypeParam? && f.generics[i].ident == name ==>
      HasDeviceStructMarker(f.generics[i].bounds)
    requires a < |f.inputs| && IsChecked(f.inputs[a]) && f.inputs[a].ty == TypePath(SimplePath(name))
    ensures Offending(f.inputs[a], NormaliseFn(f).accepted)
  {
    MarkedGenericNotAccepted(f.generics, DeviceStructMarkerBound, name);
  }

  function Arg(name: string, ty: string): FnArg
  {
    Typed(PatIdent(name), TypePath(SimplePath(ty)))
  }

  /** `fn test_kernel_func(a: u32, b: i32, t: Test, num_thread_blocks: u32,
      thread_block_size: u32)` with a non-kernel struct `Test`: exactly one
      error, on the type of `t`. */
  lemma InvalidArgumentExample()
    ensures var f := ItemFn("test_kernel_func", [],
              [Arg("a", "u32"), Arg("b", "i32"), Arg("t", "Test"),
               Arg(NumThreadBlocks, "u32"), Arg(ThreadBlockSize, "u32")]);
            Diagnostics(f) == [ArgumentTypeNotAllowed(TypePath(SimplePath("Test")))]
  {
    var inputs := [Arg("a", "u32"), Arg("b", "i32"), Arg("t", "Test"),
                   Arg(NumThreadBlocks, "u32"), Arg(ThreadBlockSize, "u32")];
    assert IsControlParam(inputs[3], NumThreadBlocks);
    assert IsControlParam(inputs[4], ThreadBlockSize);
    var err := ArgumentTypeNotAllowed(TypePath(SimplePath("Test")));
    assert !Offending(inputs[0], {}) && !Offending(inputs[1], {});
    assert Offending(inputs[2], {});
    assert !Offending(inputs[3], {}) && !Offending(inputs[4], {});
    assert inputs[..1][..0] == [];
    assert ArgErrors(inputs[..1], {}) == [];
    assert inputs[..2][..1] == inputs[..1];
    assert ArgErrors(inputs[..2], {}) == [];
    assert inputs[..3][..2] == inputs[..2];
    assert ArgErrors(inputs[..3], {}) == [err];
    assert inputs[..4][..3] == inputs[..3];
    assert ArgErrors(inputs[..4], {}) == [err];
    assert inputs[..4] == inputs[..|inputs| - 1];
    assert ArgErrors(inputs, {}) == [err];
  }

  /** `fn test_kernel_func(a: u32, b: i32, thread_block_num: u32)`: no argument
      error, and one error naming both missing control arguments. */
  lemma MissingControlParamsExample()
    ensures var f := ItemFn("test_kernel_func", [],
              [Arg("a", "u32"), Arg("b", "i32"), Arg("thread_block_num", "u32")]);
            Diagnostics(f) == [MissingKernelArguments([MissingNumThreadBlocks, MissingThreadBlockSize])]
  {
    var inputs := [Arg("a", "u32"), Arg("b", "i32"), Arg("thread_block_num", "u32")];
    assert inputs[..2][..1][..0] == [];
    assert !Offending(inputs[0], {}) && !Offending(inputs[1], {}) && !Offending(inputs[2], {});
    assert ArgErrors(inputs, {}) == [];
    assert !IsControlParam(inputs[2], NumThreadBlocks) && !IsControlParam(inputs[2], ThreadBlockSize);
    assert !HasControlParam(inputs, NumThreadBlocks);
    assert !HasControlParam(inputs, ThreadBlockSize);
  }

  /** `fn test_kernel_func<T>(a: u32, b: i32, t: T, num_thread_blocks: u32,
      thread_block_size: u32)`: no error, and `T` is re-emitted with the
      bound `DeviceStructMarker`. */
  lemma GenericKernelExample()
    ensures var f := ItemFn("test_kernel_func", [TypeParam("T", [])],
              [Arg("a", "u32"), Arg("b", "i32"), Arg("t", "T"),
               Arg(NumThreadBlocks, "u32"), Arg(ThreadBlockSize, "u32")]);
            Expand(f) == [Function(f.(generics := [TypeParam("T", [DeviceStructMarkerBound])]))]
  {
    var generics := [TypeParam("T", [])];
    var inputs := [Arg("a", "u32"), Arg("b", "i32"), Arg("t", "T"),
                   Arg(NumThreadBlocks, "u32"), Arg(ThreadBlockSize, "u32")];
    var f := ItemFn("test_kernel_func", generics, inputs);
    assert NeedsBound(generics[0]);
    assert [] + [DeviceStructMarkerBound] == [DeviceStructMarkerBound];
    assert NormaliseFn(f).accepted == {"T"};
    assert NormaliseFn(f).params == [TypeParam("T", [DeviceStructMarkerBound])];
    assert IsControlParam(inputs[3], NumThreadBlocks);
    assert IsControlParam(inputs[4], ThreadBlockSize);
    assert forall i :: 0 <= i < |inputs| ==> !Offending(inputs[i], {"T"});
    AcceptedIff(f);
  }

  /** Control arguments go through the classifier too: `num_thread_blocks: u64`
      gets an argument error AND is reported missing. */
  lemma WrongTypedControlParamExample()
    ensures var f := ItemFn("k", [], [Arg(NumThreadBlocks, "u64"), Arg(ThreadBlockSize, "u32")]);
            Diagnostics(f) == [ArgumentTypeNotAllowed(TypePath(SimplePath("u64"))),
                               MissingKernelArguments([MissingNumThreadBlocks])]
  {
    var inputs := [Arg(NumThreadBlocks, "u64"), Arg(ThreadBlockSize, "u32")];
    var err := ArgumentTypeNotAllowed(TypePath(SimplePath("u64")));
    assert Offending(inputs[0], {}) && !Offending(inputs[1], {});
    assert inputs[..1][..0] == [];
    assert ArgErrors(inputs[..1], {}) == [err];
    assert inputs[..1] == inputs[..|inputs| - 1];
    assert ArgErrors(inputs, {}) == [err];
    assert IsControlParam(inputs[1], ThreadBlockSize);
    assert !IsControlParam(inputs[0], NumThreadBlocks) && !IsControlParam(inputs[1], NumThreadBlocks);
    assert MissingControlParams(inputs) == [MissingNumThreadBlocks];
  }
}
