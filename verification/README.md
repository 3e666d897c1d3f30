# rycl author-time validation and device selection, in Dafny

rycl lets an author mark a Rust function as a GPU compute kernel
(`#[kernel_fn]`) and a Rust struct as a device struct (`#[kernel_struct]`).
Both attribute macros check, when the crate is compiled, which types may cross
the host/device boundary. Each macro reports a compile error for every
offending argument or field and re-emits the declaration with its generic
parameters normalised. The Vulkan backend picks the physical device to run on
by a fixed preference rule.

This project models those three pieces as pure functions over a small
abstract syntax and proves their properties:

- `syntax.dfy` (module `Syntax`): the parts of a declaration the macros look
  at. These are path, array and other types; trait bounds; type, lifetime and
  const generic parameters; typed and receiver arguments; and named, tuple
  and unit struct fields.
- `ty_check.dfy` (module `TyCheck`): the type classifier `is_valid_type` and
  the helper `is_u32`.
- `generics.dfy` (module `Generics`): the generic normalisation both macros
  perform. The two macros differ only in the bound they append.
- `expansion.dfy` (module `Expansion`): the diagnostics, their message texts,
  and the items a macro emits.
- `kernel_fn.dfy`, `kernel_struct.dfy` (modules `KernelFn`, `KernelStruct`):
  the two macros. Each is written twice. A functional definition states what
  is emitted. A method follows the macro's own loop and is proved to emit the
  same thing.
- `vulkan.dfy` (module `Vulkan`): the device context (`Vulkan::new` and its
  accessors) and the physical-device selection pipeline.
- `indices.dfy` (module `Indices`): the increasing positions of the elements
  of a sequence that satisfy a predicate. This is the independent definition
  against which "one error per offending element, in order" is proved.
- `wrappers.dfy` (module `Wrappers`): `Option`.

The model follows the code, including these behaviours:

- Validation does not return a result that withholds the declaration. The
  macro always emits its errors and then the declaration. For a struct it
  also emits the `DeviceStructMarker` impl.
- The two missing control arguments give ONE combined error. It lists
  `num_thread_blocks: u32` before `thread_block_size: u32`, joined by ` and `.
- An argument error carries only the offending type, not the argument's
  name.
- Control arguments are also run through the classifier. So
  `num_thread_blocks: u64` gives an argument error and is also reported as
  missing.
- A generic parameter that already carries a `DeviceStructMarker` bound is
  NOT accepted. An argument or field of that type is therefore rejected.
- The bound must be spelled exactly `DeviceStructMarker`. A qualified path
  such as `shared_type::DeviceStructMarker` is not recognised.
- `kernel_struct` tests for a `DeviceStructMarker` bound but appends
  `Primitive`. A second pass would therefore append `Primitive` again.
- The `impl DeviceStructMarker for` item that `kernel_struct` emits names the
  struct without its generic parameters. The model records only the name.

The `Primitive` marker trait is implemented exactly for `u32`, `i32` and
`f32`, the same three names as the classifier's allowed-primitive constant.

## Model

| member | source | states |
|---|---|---|
| `TyCheck.IsValidType` | rycl_derive/src/ty_check.rs:9-25 | a type is valid iff, after peeling every array layer, it is a path whose last segment names an allowed primitive or an accepted generic |
| `TyCheck.IsU32` | rycl_derive/src/ty_check.rs:28-36 | true exactly for a path type whose last segment is `u32` |
| `TyCheck.PathValidity` | rycl_derive/src/ty_check.rs:11-18 | a path type is valid iff it has a last segment and that identifier is in {u32, i32, f32} or in the generic set |
| `TyCheck.EmptyPathInvalid` | rycl_derive/src/ty_check.rs:12-18 | a path with no segment is invalid under every generic set |
| `TyCheck.QualifiedPathValidity` | rycl_derive/src/ty_check.rs:12-16 | only the last segment counts: any qualifying prefix leaves validity unchanged |
| `TyCheck.ArrayWrapPreservesValidity` | rycl_derive/src/ty_check.rs:20-22 | wrapping a type in any number of array layers leaves its validity unchanged |
| `TyCheck.OtherFormsInvalid` | rycl_derive/src/ty_check.rs:23 | every type form other than a path or an array is invalid whatever the generic set |
| `TyCheck.ValidityMonotonic` | rycl_derive/src/ty_check.rs:9-25 | a type valid under a generic set is valid under every superset |
| `TyCheck.PrimitiveExamples` | rycl_derive/src/ty_check.rs:40-48 | with no generics, `u32` is valid and `u64` is not |
| `TyCheck.U32Recognition` | rycl_derive/src/ty_check.rs:28-36 | `is_u32` holds iff the path's last segment is `u32`; an array of `u32` is not `u32` |
| `TyCheck.U32IsValid` | rycl_derive/src/ty_check.rs:7-36 | every type `is_u32` accepts is valid under every generic set |
| `Generics.Normalise` | rycl_derive/src/lib.rs:32-45 | each type parameter without a `DeviceStructMarker` bound gets exactly the given bound appended and its name accepted; every other parameter is unchanged; the accepted set is exactly those names |
| `Generics.KernelFnNormalisationIdempotent` | rycl_derive/src/lib.rs:32-45 | normalising with `DeviceStructMarker` a second time changes nothing and accepts no name |
| `Generics.KernelStructNormalisationNotIdempotent` | rycl_derive/src/lib.rs:103-116 | normalising with `Primitive` twice appends `Primitive` twice, because the test looks for `DeviceStructMarker` |
| `Generics.MarkedGenericNotAccepted` | rycl_derive/src/lib.rs:35-43 | a name whose type parameters all carry `DeviceStructMarker` is not in the accepted set |
| `Generics.UnboundGenericAccepted` | rycl_derive/src/lib.rs:35-43 | a type parameter without that bound is always in the accepted set |
| `Expansion.Message` | rycl_derive/src/lib.rs:56-128 | the argument error is the fixed "argument type is not allowed ..." text; a missing-argument error is "kernel function must contain arguments: " followed by the missing names joined by " and "; a field error is "Field `<field>` in struct `<struct>` is not a primitive type." |
| `Expansion.JoinSnoc` | rycl_derive/src/lib.rs:74-77 | joining a list with one more part appends the separator and that part, for every non-empty list |
| `Expansion.Join` | rycl_derive/src/lib.rs:74-77 | `join(" and ")` gives the empty text for no part, the part itself for one, and the two parts around the separator for two; `JoinSnoc` extends this to every longer list |
| `Expansion.ArgumentMessageText` | rycl_derive/src/lib.rs:56-60 | the argument error lists the allowed primitives as `["u32", "i32", "f32"]` |
| `KernelFn.ArgErrors` | rycl_derive/src/lib.rs:46-63 | every argument error carries a type the classifier rejects, and there is at most one per argument |
| `KernelFn.ArgErrorsExact` | rycl_derive/src/lib.rs:46-63 | there is one error per typed identifier argument with an invalid type, in argument order, and the k-th error carries the k-th such argument's type |
| `KernelFn.MissingControlParams` | rycl_derive/src/lib.rs:66-74 | `num_thread_blocks: u32` is listed iff no `num_thread_blocks` argument of type `u32` exists, likewise `thread_block_size: u32`, and the first is listed first |
| `KernelFn.ControlErrors` | rycl_derive/src/lib.rs:66-79 | at most one missing-argument error, present iff a control argument is absent, listing every absent one |
| `KernelFn.ControlParamNeedsU32` | rycl_derive/src/lib.rs:50-55 | a `num_thread_blocks: i32` argument does not count as the control argument |
| `KernelFn.BothMissingMessage` | rycl_derive/src/lib.rs:66-79 | with both control arguments absent the message is "kernel function must contain arguments: num_thread_blocks: u32 and thread_block_size: u32" |
| `KernelFn.Diagnostics` | rycl_derive/src/lib.rs:46-79 | every diagnostic but the last is an argument error, so the missing-argument error comes after all of them |
| `KernelFn.Expand` | rycl_derive/src/lib.rs:84-88 | the output is the errors in order, then the function with normalised generics, which is emitted whatever the errors |
| `KernelFn.ExpandKernelFn` | rycl_derive/src/lib.rs:21-91 | the single pass over the arguments with two flags and an error list emits exactly the functional expansion |
| `KernelFn.ErrorCount` | rycl_derive/src/lib.rs:46-88 | the number of errors is the number of invalid checked arguments, plus one if a control argument is missing |
| `KernelFn.AcceptedIff` | rycl_derive/src/lib.rs:46-79 | no error iff every checked argument has a valid type and both control arguments are present |
| `KernelFn.UnboundGenericArgumentAccepted` | rycl_derive/src/lib.rs:32-61 | an argument whose type is an unbounded generic of the function is never reported |
| `KernelFn.MarkedGenericArgumentRejected` | rycl_derive/src/lib.rs:32-61 | an argument whose type is a generic already bound by `DeviceStructMarker` is reported |
| `KernelFn.InvalidArgumentExample` | rycl_derive/tests/macro_tests/invalid_kernel_func_arg_test.rs:3-9 | `fn(a: u32, b: i32, t: Test, num_thread_blocks: u32, thread_block_size: u32)` gets exactly one error, on `Test` |
| `KernelFn.MissingControlParamsExample` | rycl_derive/tests/macro_tests/invalid_kernel_func_test.rs:3-6 | `fn(a: u32, b: i32, thread_block_num: u32)` gets exactly one error, naming both control arguments |
| `KernelFn.GenericKernelExample` | rycl_derive/tests/macro_tests/valid_kernel_func_template_test.rs:8-11 | `fn<T>(.., t: T, ..)` with both control arguments gets no error and `T` gains the `DeviceStructMarker` bound |
| `KernelFn.WrongTypedControlParamExample` | rycl_derive/src/lib.rs:50-79 | `num_thread_blocks: u64` yields an argument error on `u64` and then the missing-argument error for `num_thread_blocks: u32` |
| `KernelStruct.FieldErrors` | rycl_derive/src/lib.rs:118-134 | every field error names the struct, and there is at most one per field |
| `KernelStruct.FieldErrorsExact` | rycl_derive/src/lib.rs:118-134 | there is one error per named field with an invalid type, in field order, and the k-th names the k-th such field |
| `KernelStruct.Diagnostics` | rycl_derive/src/lib.rs:118-134 | tuple and unit structs produce no error |
| `KernelStruct.Expand` | rycl_derive/src/lib.rs:136-144 | the output is the errors, then the struct with normalised generics, then `impl DeviceStructMarker` for it, whatever the errors |
| `KernelStruct.ExpandKernelStruct` | rycl_derive/src/lib.rs:96-145 | the single pass over the named fields emits exactly the functional expansion |
| `KernelStruct.ErrorCount` | rycl_derive/src/lib.rs:118-144 | a struct with named fields gets as many errors as it has invalid fields |
| `KernelStruct.AcceptedIff` | rycl_derive/src/lib.rs:103-134 | no error iff the struct has no named field with a rejected type |
| `KernelStruct.PrimitiveFieldsExample` | rycl_derive/src/lib.rs:118-134 | `{a: u32, b: f32}` is accepted; `{a: u32, b: f64}` gets one error, naming `b` |
| `KernelStruct.GenericFieldExample` | rycl_derive/src/lib.rs:103-134 | a field of an unbounded generic type is accepted; one of a `DeviceStructMarker`-bound generic type is rejected |
| `Vulkan.New` | compiler/src/backend/vulkan.rs:33-52 | the accessors return exactly the device id, device type and entry point given to `new` |
| `Vulkan.FirstComputeFamily` | compiler/src/backend/vulkan.rs:103-110 | the lowest index whose flags include COMPUTE, within the family count; none iff no family supports compute |
| `Vulkan.Rank` | compiler/src/backend/vulkan.rs:111-118 | ranks lie in 0..5, and rank 5 is given exactly to the kinds beyond the five named ones |
| `Vulkan.PreferenceOrder` | compiler/src/backend/vulkan.rs:111-118 | Discrete ranks before Integrated, then Virtual, then Cpu, then Other, then any other kind |
| `Vulkan.SupportedDevices` | compiler/src/backend/vulkan.rs:94-102 | only devices supporting the required extensions are kept |
| `Vulkan.Candidates` | compiler/src/backend/vulkan.rs:103-110 | each kept device is paired with its first compute queue family; devices without one are dropped |
| `Vulkan.FoldMin` | compiler/src/backend/vulkan.rs:111-118 | the fold returns its start or an element of the rest, and its key is no greater than that of the start or any element |
| `Vulkan.MinByKey` | compiler/src/backend/vulkan.rs:111-118 | `min_by_key` is none iff the list is empty; otherwise it returns an element of the list whose key is no greater than every element's |
| `Vulkan.SelectPhysicalDevice` | compiler/src/backend/vulkan.rs:99-119 | selection yields nothing iff no device both supports the required extensions and has a compute queue family |
| `Vulkan.SupportedDevicesMembers` | compiler/src/backend/vulkan.rs:94-102 | the filter keeps only devices from the input, and keeps every device supporting the required extensions |
| `Vulkan.SomeCandidateIffEligible` | compiler/src/backend/vulkan.rs:94-110 | filtering and pairing leave no candidate iff no device is eligible |
| `Vulkan.FoldMinSplit` | compiler/src/backend/vulkan.rs:111-118 | `min_by_key` keeps an earlier element unless the rest holds a strictly smaller key |
| `Vulkan.SelectCons` | compiler/src/backend/vulkan.rs:99-118 | the first device is chosen over the selection among the remaining devices unless that one has a strictly better rank |
| `Vulkan.SelectionIsFirstMinimum` | compiler/src/backend/vulkan.rs:94-119 | selection fails iff no device is eligible; otherwise it returns the first eligible device of minimal rank with its first compute queue family |
| `Vulkan.FirstMinimumUnique` | compiler/src/backend/vulkan.rs:111-118 | at most one device index is the first eligible one of minimal rank, so the rule is deterministic |
| `Vulkan.SelectionExamples` | compiler/src/backend/vulkan.rs:111-118 | [Cpu, Integrated, Discrete, Virtual] selects Discrete |
| `Vulkan.VirtualOverCpuExample` | compiler/src/backend/vulkan.rs:111-118 | [Cpu, Virtual] selects Virtual |
| `Vulkan.FilteringExamples` | compiler/src/backend/vulkan.rs:94-110 | a discrete GPU without the extension, or without a compute family, is passed over for a usable worse device |

## Left out

- The rest of `Vulkan::run` (compiler/src/backend/vulkan.rs:84-92 and 121-255) is left out. It covers library and instance creation, the logical device and queue, the shader module and pipeline, the buffer, the command buffer, and the fence wait and readback. All of it is GPU I/O through vulkano. The `n * 12` loop is a hard-coded check on device output.
- Failures inside the selection pipeline are not modelled. When enumeration fails, `run` unwraps and panics. The model's `None` stands only for "no eligible device", where the code also panics on `unwrap`.
- `build_spirv` (compiler/src/backend/vulkan.rs:54-79) is left out. It only calls the SPIR-V builder and emits an empty placeholder function, so it has no logic to verify.
- `KernelSyntaxValidator` (rycl_derive/src/lib.rs:147-180) is left out. Every arm is `todo!()`, and the default arm builds an error that is then discarded.
- Proc-macro plumbing is left out: parsing, token generation, spans, the `print!` of the output, and the unused `expanded` impl in `kernel_fn` (rycl_derive/src/lib.rs:81-83). Output is modelled as a list of items, and each error as its diagnostic.
- Function bodies, return types, attributes and visibility are not represented. The macros pass them through unchanged.
- Type parts the classifier never reads are not represented: a path's qualified-self, array length expressions, and generic arguments of type paths.
- Where clauses are not represented. The macros read only the bounds written inline on each type parameter (rycl_derive/src/lib.rs:35-38), so a `DeviceStructMarker` bound given in a where clause is not seen.
- The queue family index is kept as an unbounded natural number. The `as u32` cast cannot truncate, because Vulkan reports family counts as 32-bit values.
- The `DeviceCtx` trait (compiler/src/backend/device_ctx.rs) is modelled as accessor functions on the `Vulkan` datatype.
- The marker traits (shared_type/src/lib.rs) are used only as the fact stated above. The example program and the trybuild test runner are not part of this model.
