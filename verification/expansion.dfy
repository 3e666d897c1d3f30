/** What the attribute macros emit: compile errors (each carrying one
    diagnostic) followed by the declaration, rewritten, and for structs a
    marker-trait implementation. Token streams and spans are abstracted to
    this item list. */
module Expansion {
  import opened Syntax
  import TyCheck

  /** The diagnostics the two macros can report. */
  datatype Diagnostic =
      /** a kernel argument whose type the classifier rejects, spanned on that type */
    | ArgumentTypeNotAllowed(ty: Type)
      /** the control arguments a kernel lacks, in the order they are listed */
    | MissingKernelArguments(missing: seq<string>)
      /** a named struct field whose type the classifier rejects */
    | FieldNotPrimitive(field: string, structName: string)

  /** One item of a macro's output, in emission order. */
  datatype Item =
    | CompileError(diagnostic: Diagnostic)
    | Function(f: ItemFn)
    | Struct(s: ItemStruct)
    | DeviceStructMarkerImpl(structName: string)

  /** `parts` joined by `sep`, as the standard slice `join` does. */
  function Join(parts: seq<string>, sep: string): (r: string)
    ensures |parts| == 0 ==> r == ""
    ensures |parts| == 1 ==> r == parts[0]
    ensures |parts| == 2 ==> r == parts[0] + sep + parts[1]
  {
    if |parts| == 0 then ""
    else if |parts| == 1 then parts[0]
    else parts[0] + sep + Join(parts[1..], sep)
  }

  /** The debug rendering of a list of string slices: `["u32", "i32"]`. */
  function DebugStrings(items: seq<string>): string
  {
    "[" + QuotedList(items) + "]"
  }

  /** Each item in double quotes, separated by `, `. */
  function QuotedList(items: seq<string>): string
  {
    if |items| == 0 then ""
    else if |items| == 1 then "\"" + items[0] + "\""
    else "\"" + items[0] + "\", " + QuotedList(items[1..])
  }

  /** Appending one part appends the separator and that part. */
  lemma {:induction false} JoinSnoc(parts: seq<string>, sep: string, last: string)
    requires |parts| > 0
    ensures Join(parts + [last], sep) == Join(parts, sep) + sep + last
    decreases |parts|
  {
    var all := parts + [last];
    if |parts| > 1 {
      assert all[1..] == parts[1..] + [last];
      JoinSnoc(parts[1..], sep, last);
    } else {
      assert all == [parts[0], last];
    }
  }

  const ArgumentTypeMessage: string :=
    "argument type is not allowed in kernel functions, allowed types are: "
      + DebugStrings(TyCheck.AllowedPrimitiveTypes) + " and KernelStruct"

  /** The text of the compile error a diagnostic becomes. The argument error
      says nothing about the offending type (its span points at it); the
      missing-argument error lists the missing arguments joined by ` and `;
      the field error names the field and the struct. */
  function Message(d: Diagnostic): (r: string)
    ensures d.ArgumentTypeNotAllowed? ==> r == ArgumentTypeMessage
    ensures d.MissingKernelArguments? && |d.missing| == 1 ==>
      r == "kernel function must contain arguments: " + d.missing[0]
    ensures d.MissingKernelArguments? && |d.missing| == 2 ==>
      r == "kernel function must contain arguments: " + d.missing[0] + " and " + d.missing[1]
    ensures d.FieldNotPrimitive? ==>
      r == "Field `" + d.field + "` in struct `" + d.structName + "` is not a primitive type."
  {
    match d
    case ArgumentTypeNotAllowed(_) => ArgumentTypeMessage
    case MissingKernelArguments(missing) =>
      "kernel function must contain arguments: " + Join(missing, " and ")
    case FieldNotPrimitive(field, structName) =>
      "Field `" + field + "` in struct `" + structName + "` is not a primitive type."
  }

  /** Each diagnostic as a compile-error item, in the same order. */
  function AsErrors(ds: seq<Diagnostic>): (r: seq<Item>)
    ensures |r| == |ds|
    ensures forall k :: 0 <= k < |r| ==> r[k].CompileError? && r[k].diagnostic == ds[k]
  {
    seq(|ds|, k requires 0 <= k < |ds| => CompileError(ds[k]))
  }

  /** The rejected-argument message renders the allowed primitives in the
      order of the allowed-primitive constant. */
  lemma ArgumentMessageText()
    ensures DebugStrings(TyCheck.AllowedPrimitiveTypes) == "[\"u32\", \"i32\", \"f32\"]"
  {
  }
}
