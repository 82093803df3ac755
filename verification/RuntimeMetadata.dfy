/** Metadata of the embedded Warp runner: built and printed by Python
    (leapp/leapp_graph/custom_operator_registry/warp_operator/metadata.py), read back by the runtime
    (runtime/core/runtime_metadata.cc beside it). */
module RuntimeMetadata {
  import opened Ports
  import opened JsonText
  import opened FieldSearch
  import opened FieldReading
  import opened ObjectArrays
  import opened MetadataText

  // ----- the printed side

  datatype TensorSpec = TensorSpec(
    componentShape: seq<int>, dtype: string, logicalIndex: int, mask: Option<bool>, numBytes: nat,
    paramName: Option<string>, shape: seq<int>, warpDtype: Option<string>, warpShape: seq<int>)

  datatype Metadata = Metadata(inputs: seq<TensorSpec>, outputs: seq<TensorSpec>)

  function TextOrNull(s: Option<string>): Value {
    if s.Some? then Text(s.value) else Null
  }

  /** The specification's fields, in the order of their sorted keys. */
  function FieldsOf(s: TensorSpec): seq<Field> {
    [Field("component_shape", Numbers(s.componentShape)), Field("dtype", Text(s.dtype)),
     Field("logical_index", Number(s.logicalIndex))] +
    (if s.mask.Some? then [Field("mask", Flag(s.mask.value))] else []) +
    [Field("num_bytes", Number(s.numBytes)), Field("param_name", TextOrNull(s.paramName)),
     Field("shape", Numbers(s.shape)), Field("warp_dtype", TextOrNull(s.warpDtype)),
     Field("warp_shape", Numbers(s.warpShape))]
  }

  function AllFields(specs: seq<TensorSpec>): seq<seq<Field>> {
    seq(|specs|, i requires 0 <= i < |specs| => FieldsOf(specs[i]))
  }

  function SpecsText(specs: seq<TensorSpec>): string {
    CommaJoined(ObjectTexts(AllFields(specs)))
  }

  /** `{"inputs":[...],"outputs":[...]}`. */
  function Encode(m: Metadata): string {
    TopText(SpecsText(m.inputs), SpecsText(m.outputs))
  }

  // ----- the reading side

  datatype InputSpec = InputSpec(logicalIndex: int, paramName: string, dtype: string, shape: seq<int>, numBytes: nat)

  datatype OutputSpec = OutputSpec(logicalIndex: int, mask: bool, paramName: string, dtype: string,
                                   shape: seq<int>, numBytes: nat)

  datatype Runtime = Runtime(deviceKind: string, deviceIndex: int, bundleNumBytes: nat, bundleSha256: string,
                             inputs: seq<InputSpec>, outputs: seq<OutputSpec>)

  /** The element types the runtime knows, by name. */
  predicate KnownDtype(name: string) {
    name in {"bool", "uint8", "int8", "int16", "int32", "int64", "float16", "bfloat16", "float32", "float64"}
  }

  /** A 64-bit number cut to a C++ `int`. */
  function ToInt(v: int): int {
    (v + 0x8000_0000) % 0x1_0000_0000 - 0x8000_0000
  }

  /** A 64-bit number as a `size_t`. */
  function ToSize(v: int): nat {
    v % 0x1_0000_0000_0000_0000
  }

  /** An optional number: its fallback when missing, and an exception when out of range. */
  function OrElse(r: Read<int>, fallback: int): Option<int> {
    match r
    case Found(v) => Some(v)
    case Missing => Some(fallback)
    case OutOfRange => None
  }

  function MakeInput(index: Read<int>, name: Option<string>, dtype: Option<string>, shape: Read<seq<int>>,
                     bytes: Read<int>): Option<InputSpec> {
    if index.Found? && bytes.Found? && name.Some? && dtype.Some? && shape.Found? && KnownDtype(dtype.value)
    then Some(InputSpec(ToInt(index.value), name.value, dtype.value, shape.value, ToSize(bytes.value)))
    else None
  }

  function ReadInput(text: string): Option<InputSpec> {
    MakeInput(ExtractInt(text, "logical_index"), ExtractString(text, "param_name"), ExtractString(text, "dtype"),
              ExtractShape(text), ExtractInt(text, "num_bytes"))
  }

  function MakeOutput(index: Read<int>, mask: Option<bool>, found: Option<string>, dtype: Option<string>,
                      shape: Read<seq<int>>, bytes: Read<int>): Option<OutputSpec> {
    var name := if found.Some? then found.value else "";
    if index.Found? && bytes.Found? && mask.Some? && dtype.Some? && shape.Found? && KnownDtype(dtype.value) &&
       !(mask.value && name == "")
    then Some(OutputSpec(ToInt(index.value), mask.value, name, dtype.value, shape.value, ToSize(bytes.value)))
    else None
  }

  function ReadOutput(text: string): Option<OutputSpec> {
    MakeOutput(ExtractInt(text, "logical_index"), ExtractBool(text, "mask"), ExtractString(text, "param_name"),
               ExtractString(text, "dtype"), ExtractShape(text), ExtractInt(text, "num_bytes"))
  }

  function ReadAll<T>(texts: seq<string>, read: string -> Option<T>): Option<seq<T>> {
    if texts == [] then Some([])
    else
      var front := ReadAll(texts[..|texts| - 1], read);
      var last := read(texts[|texts| - 1]);
      if front.Some? && last.Some? then Some(front.value + [last.value]) else None
  }

  function Assemble(kind: Option<string>, sha: Option<string>, index: Option<int>, bytes: Option<int>,
                    inputs: Option<seq<InputSpec>>, outputs: Option<seq<OutputSpec>>): Option<Runtime> {
    if index.None? || bytes.None? || inputs.None? || outputs.None? then None
    else Some(Runtime(if kind.Some? then kind.value else "", ToInt(index.value), ToSize(bytes.value),
                      if sha.Some? then sha.value else "", inputs.value, outputs.value))
  }

  function ReadArray<T>(texts: Option<seq<string>>, read: string -> Option<T>): Option<seq<T>> {
    if texts.None? then None else ReadAll(texts.value, read)
  }

  function Decode(json: string): Option<Runtime> {
    Assemble(ExtractString(json, "device_kind"), ExtractString(json, "sha256"),
             OrElse(ExtractInt(json, "device_index"), 0), OrElse(ExtractInt(json, "num_bytes"), 0),
             ReadArray(ArrayObjects(json, "inputs"), ReadInput), ReadArray(ArrayObjects(json, "outputs"), ReadOutput))
  }

  method ReadInputs(texts: seq<string>) returns (r: Option<seq<InputSpec>>)
    ensures r == ReadAll(texts, ReadInput)
  {
    var specs: seq<InputSpec> := [];
    for i := 0 to |texts|
      invariant ReadAll(texts[..i], ReadInput) == Some(specs)
    {
      assert texts[..i + 1][..i] == texts[..i];
      var spec := ReadInput(texts[i]);
      if spec.None? { Stuck(texts, i, ReadInput); return None; }
      specs := specs + [spec.value];
    }
    assert texts[..|texts|] == texts;
    return Some(specs);
  }

  method ReadOutputs(texts: seq<string>) returns (r: Option<seq<OutputSpec>>)
    ensures r == ReadAll(texts, ReadOutput)
  {
    var specs: seq<OutputSpec> := [];
    for i := 0 to |texts|
      invariant ReadAll(texts[..i], ReadOutput) == Some(specs)
    {
      assert texts[..i + 1][..i] == texts[..i];
      var spec := ReadOutput(texts[i]);
      if spec.None? { Stuck(texts, i, ReadOutput); return None; }
      specs := specs + [spec.value];
    }
    assert texts[..|texts|] == texts;
    return Some(specs);
  }

  /** The runtime's parser; absent when it throws. */
  method ParseRuntimeMetadata(json: string) returns (r: Option<Runtime>)
    ensures r == Decode(json)
  {
    var kind, sha := ExtractString(json, "device_kind"), ExtractString(json, "sha256");
    var index, bytes := OrElse(ExtractInt(json, "device_index"), 0), OrElse(ExtractInt(json, "num_bytes"), 0);
    if index.None? || bytes.None? { return None; }
    var inputs := ExtractObjectArray(json, "inputs");
    if inputs.None? { return None; }
    var ins := ReadInputs(inputs.value);
    if ins.None? { return None; }
    var outputs := ExtractObjectArray(json, "outputs");
    if outputs.None? { return None; }
    var outs := ReadOutputs(outputs.value);
    if outs.None? { return None; }
    return Assemble(kind, sha, index, bytes, ins, outs);
  }

  lemma {:induction false} Stuck<T>(texts: seq<string>, i: nat, read: string -> Option<T>)
    requires i < |texts| && read(texts[i]).None?
    ensures ReadAll(texts, read).None?
  {
    if i < |texts| - 1 { Stuck(texts[..|texts| - 1], i, read); }
  }

  lemma {:induction false} EachIsRead<T>(texts: seq<string>, read: string -> Option<T>, values: seq<T>)
    requires |texts| == |values| && forall i | 0 <= i < |texts| :: read(texts[i]) == Some(values[i])
    ensures ReadAll(texts, read) == Some(values)
  {
    if texts != [] {
      var n := |texts| - 1;
      EachIsRead(texts[..n], read, values[..n]);
      assert values == values[..n] + [values[n]];
    }
  }

  // ----- what can be read back

  predicate InLong(v: int) {
    -LONG_MAX - 1 <= v <= LONG_MAX
  }

  predicate PrintableName(s: string) {
    Plain(s) && NoBraces(s)
  }

  /** Plain texts without braces, numbers that fit the runtime's types, and a known element type. */
  predicate Readable(s: TensorSpec) {
    PrintableName(s.dtype) && KnownDtype(s.dtype) &&
    (s.paramName.Some? ==> PrintableName(s.paramName.value)) &&
    (s.warpDtype.Some? ==> PrintableName(s.warpDtype.value)) &&
    -0x8000_0000 <= s.logicalIndex < 0x8000_0000 && s.numBytes <= LONG_MAX &&
    forall i | 0 <= i < |s.shape| :: InLong(s.shape[i])
  }

  predicate ReadableInput(s: TensorSpec) {
    Readable(s) && s.mask.None?
  }

  /** A kept output needs a name. */
  predicate ReadableOutput(s: TensorSpec) {
    Readable(s) && s.mask.Some? && (s.mask.value ==> s.paramName.Some? && s.paramName.value != "")
  }

  function NameOf(s: TensorSpec): string {
    if s.paramName.Some? then s.paramName.value else ""
  }

  function AsInput(s: TensorSpec): InputSpec {
    InputSpec(s.logicalIndex, NameOf(s), s.dtype, s.shape, s.numBytes)
  }

  function AsOutput(s: TensorSpec): OutputSpec {
    OutputSpec(s.logicalIndex, s.mask == Some(true), NameOf(s), s.dtype, s.shape, s.numBytes)
  }

  lemma Names()
    ensures Word("component_shape") && Word("dtype") && Word("logical_index") && Word("mask") && Word("num_bytes")
    ensures Word("param_name") && Word("shape") && Word("warp_dtype") && Word("warp_shape")
    ensures Word("inputs") && Word("outputs") && Word("device_kind") && Word("device_index") && Word("sha256")
  {
  }

  lemma FieldsAreClean(s: TensorSpec)
    requires Readable(s)
    ensures CleanFields(FieldsOf(s))
  {
    Names();
  }

  predicate NamesDiffer(fields: seq<Field>) {
    forall i, j | 0 <= i < j < |fields| :: fields[i].name != fields[j].name
  }

  lemma FieldsDiffer(s: TensorSpec)
    ensures NamesDiffer(FieldsOf(s))
  {
    var names := ["component_shape", "dtype", "logical_index"] + (if s.mask.Some? then ["mask"] else []) +
      ["num_bytes", "param_name", "shape", "warp_dtype", "warp_shape"];
    assert forall i | 0 <= i < |names| :: FieldsOf(s)[i].name == names[i];
    assert forall i, j | 0 <= i < j < |names| :: names[i] != names[j];
  }

  /** Where the fields the runtime reads stand among those printed. */
  predicate Holds(fs: seq<Field>, s: TensorSpec) {
    var m := if s.mask.Some? then 1 else 0;
    |fs| == 8 + m && fs[1] == Field("dtype", Text(s.dtype)) && fs[2] == Field("logical_index", Number(s.logicalIndex)) &&
    (s.mask.Some? ==> fs[3] == Field("mask", Flag(s.mask.value))) && fs[3 + m] == Field("num_bytes", Number(s.numBytes)) &&
    fs[4 + m] == Field("param_name", TextOrNull(s.paramName)) && fs[5 + m] == Field("shape", Numbers(s.shape))
  }

  lemma PrintedFields(s: TensorSpec)
    requires Readable(s)
    ensures Holds(FieldsOf(s), s) && CleanFields(FieldsOf(s)) && NamesDiffer(FieldsOf(s))
  {
    FieldsAreClean(s);
    FieldsDiffer(s);
  }

  predicate Reads(text: string, s: TensorSpec) {
    ExtractInt(text, "logical_index") == Found(s.logicalIndex) && ExtractInt(text, "num_bytes") == Found(s.numBytes) &&
    ExtractString(text, "param_name") == Some(NameOf(s)) && ExtractString(text, "dtype") == Some(s.dtype) &&
    ExtractShape(text) == Found(s.shape) && (s.mask.Some? ==> ExtractBool(text, "mask") == Some(s.mask.value))
  }

  lemma FieldsAreRead(fs: seq<Field>, s: TensorSpec)
    requires Readable(s) && Holds(fs, s) && CleanFields(fs) && NamesDiffer(fs)
    ensures Reads(ObjectText(fs), s)
  {
    var m := if s.mask.Some? then 1 else 0;
    StringIsRead(fs, 1);
    IntIsRead(fs, 2);
    if s.mask.Some? { BoolIsRead(fs, 3); }
    IntIsRead(fs, 3 + m);
    StringIsRead(fs, 4 + m);
    ShapeIsRead(fs, 5 + m);
  }

  /** Each field of a printed specification is read back; in particular the first quoted `shape` is
      never the tail of `component_shape`. */
  lemma SpecIsRead(s: TensorSpec)
    requires Readable(s)
    ensures Reads(ObjectText(FieldsOf(s)), s)
  {
    PrintedFields(s);
    FieldsAreRead(FieldsOf(s), s);
  }

  // ----- the whole text

  lemma ForeignToSpec(s: TensorSpec, key: string)
    requires Foreign(key)
    ensures forall i | 0 <= i < |FieldsOf(s)| :: FieldsOf(s)[i].name != key
  {
  }

  lemma SpecNoStart(s: TensorSpec, key: string)
    requires Readable(s) && Foreign(key)
    ensures NoStart(ObjectText(FieldsOf(s)), key)
  {
    FieldsAreClean(s);
    ForeignToSpec(s, key);
    ForeignIsWord(key);
    ObjectNoStart(FieldsOf(s), key);
  }

  lemma SpecsNoStart(specs: seq<TensorSpec>, key: string)
    requires AllReadable(specs) && Foreign(key)
    ensures NoStart(SpecsText(specs), key)
  {
    var parts := ObjectTexts(AllFields(specs));
    forall i | 0 <= i < |parts| ensures NoStart(parts[i], key) { SpecNoStart(specs[i], key); }
    JoinedNoStart(parts, key);
  }

  predicate AllReadable(specs: seq<TensorSpec>) {
    forall i | 0 <= i < |specs| :: Readable(specs[i])
  }

  lemma SpecsAreBraced(specs: seq<TensorSpec>)
    requires AllReadable(specs)
    ensures forall i | 0 <= i < |specs| :: Braced(ObjectTexts(AllFields(specs))[i])
  {
    forall i | 0 <= i < |specs| ensures Braced(ObjectText(FieldsOf(specs[i]))) {
      FieldsAreClean(specs[i]);
      CleanIsBraced(FieldsOf(specs[i]));
    }
  }

  lemma ArraysAreCut(m: Metadata)
    requires AllReadable(m.inputs) && AllReadable(m.outputs)
    ensures ArrayObjects(Encode(m), "inputs") == Some(ObjectTexts(AllFields(m.inputs)))
    ensures ArrayObjects(Encode(m), "outputs") == Some(ObjectTexts(AllFields(m.outputs)))
  {
    SpecsAreBraced(m.inputs);
    SpecsAreBraced(m.outputs);
    SpecsNoStart(m.inputs, "outputs");
    InputsAreCut(ObjectTexts(AllFields(m.inputs)), SpecsText(m.outputs));
    OutputsAreCut(SpecsText(m.inputs), ObjectTexts(AllFields(m.outputs)));
  }

  lemma NothingElse(m: Metadata)
    requires AllReadable(m.inputs) && AllReadable(m.outputs)
    ensures ExtractString(Encode(m), "device_kind").None? && ExtractString(Encode(m), "sha256").None?
    ensures ExtractInt(Encode(m), "device_index").Missing?
  {
    Missed(m, "device_kind", StringKind);
    Missed(m, "sha256", StringKind);
    Missed(m, "device_index", IntKind);
  }

  lemma Missed(m: Metadata, key: string, kind: Kind)
    requires AllReadable(m.inputs) && AllReadable(m.outputs) && Foreign(key) && key != "inputs" && key != "outputs"
    ensures Search(Encode(m), key, kind).None?
  {
    SpecsNoStart(m.inputs, key);
    SpecsNoStart(m.outputs, key);
    ForeignIsWord(key);
    TopMissing(SpecsText(m.inputs), SpecsText(m.outputs), key, kind);
  }

  // ----- the byte count of the bundle

  /** What the runtime takes for the size of the bundle: there is no such entry, so it is the first
      tensor's byte count. */
  function BundleBytes(m: Metadata): nat {
    if m.inputs != [] then m.inputs[0].numBytes
    else if m.outputs != [] then m.outputs[0].numBytes
    else 0
  }

  lemma FirstSpecBytes(specs: seq<TensorSpec>, rest: string)
    requires specs != [] && Readable(specs[0])
    ensures ExtractInt(SpecsText(specs) + rest, "num_bytes") == Found(specs[0].numBytes)
  {
    PrintedFields(specs[0]);
    var parts := ObjectTexts(AllFields(specs));
    assert parts[0] == ObjectText(FieldsOf(specs[0]));
    FirstObjectNumber(FieldsOf(specs[0]), if specs[0].mask.Some? then 4 else 3, parts, rest);
  }

  lemma BundleBytesRead(m: Metadata)
    requires AllReadable(m.inputs) && AllReadable(m.outputs)
    ensures OrElse(ExtractInt(Encode(m), "num_bytes"), 0) == Some(BundleBytes(m))
  {
    var a, b := SpecsText(m.inputs), SpecsText(m.outputs);
    TopNumber(a, b);
    if m.inputs != [] {
      FirstSpecBytes(m.inputs, "]," + ListText("outputs", b, "]}"));
    } else if m.outputs != [] {
      FirstSpecBytes(m.outputs, "]}");
    }
  }

  // ----- the round trip

  lemma InputIsRead(s: TensorSpec)
    requires ReadableInput(s)
    ensures ReadInput(ObjectText(FieldsOf(s))) == Some(AsInput(s))
  {
    SpecIsRead(s);
    Sizes(s);
    assert MakeInput(Found(s.logicalIndex), Some(NameOf(s)), Some(s.dtype), Found(s.shape), Found(s.numBytes)) ==
      Some(AsInput(s));
  }

  lemma Sizes(s: TensorSpec)
    requires Readable(s)
    ensures ToInt(s.logicalIndex) == s.logicalIndex && ToSize(s.numBytes) == s.numBytes
  {
  }

  lemma OutputIsRead(s: TensorSpec)
    requires ReadableOutput(s)
    ensures ReadOutput(ObjectText(FieldsOf(s))) == Some(AsOutput(s))
  {
    SpecIsRead(s);
    Sizes(s);
    assert MakeOutput(Found(s.logicalIndex), s.mask, Some(NameOf(s)), Some(s.dtype), Found(s.shape), Found(s.numBytes)) ==
      Some(AsOutput(s));
  }

  function InputSpecs(specs: seq<TensorSpec>): seq<InputSpec> {
    seq(|specs|, i requires 0 <= i < |specs| => AsInput(specs[i]))
  }

  function OutputSpecs(specs: seq<TensorSpec>): seq<OutputSpec> {
    seq(|specs|, i requires 0 <= i < |specs| => AsOutput(specs[i]))
  }

  /** What the runtime is to see: no device or digest, and every tensor in order. */
  function Seen(m: Metadata): Runtime {
    Runtime("", 0, BundleBytes(m), "", InputSpecs(m.inputs), OutputSpecs(m.outputs))
  }

  /** The runtime reads back every input and output of readable metadata, in order: index, name (empty
      for null), element type, shape, byte count and mask. */
  lemma MetadataRoundTrip(m: Metadata)
    requires forall i | 0 <= i < |m.inputs| :: ReadableInput(m.inputs[i])
    requires forall i | 0 <= i < |m.outputs| :: ReadableOutput(m.outputs[i])
    ensures Decode(Encode(m)) == Some(Seen(m))
  {
    NothingElse(m);
    BundleBytesRead(m);
    ListsAreRead(m);
    Decoded(Encode(m), BundleBytes(m), InputSpecs(m.inputs), OutputSpecs(m.outputs));
  }

  lemma ListsAreRead(m: Metadata)
    requires forall i | 0 <= i < |m.inputs| :: ReadableInput(m.inputs[i])
    requires forall i | 0 <= i < |m.outputs| :: ReadableOutput(m.outputs[i])
    ensures ReadArray(ArrayObjects(Encode(m), "inputs"), ReadInput) == Some(InputSpecs(m.inputs))
    ensures ReadArray(ArrayObjects(Encode(m), "outputs"), ReadOutput) == Some(OutputSpecs(m.outputs))
  {
    ArraysAreCut(m);
    InputsAreRead(m.inputs);
    OutputsAreRead(m.outputs);
  }

  lemma Decoded(json: string, bytes: nat, inputs: seq<InputSpec>, outputs: seq<OutputSpec>)
    requires ExtractString(json, "device_kind").None? && ExtractString(json, "sha256").None?
    requires ExtractInt(json, "device_index").Missing? && bytes <= LONG_MAX
    requires OrElse(ExtractInt(json, "num_bytes"), 0) == Some(bytes)
    requires ReadArray(ArrayObjects(json, "inputs"), ReadInput) == Some(inputs)
    requires ReadArray(ArrayObjects(json, "outputs"), ReadOutput) == Some(outputs)
    ensures Decode(json) == Some(Runtime("", 0, bytes, "", inputs, outputs))
  {
    Assembled(ExtractString(json, "device_kind"), ExtractString(json, "sha256"), ExtractInt(json, "device_index"),
              bytes, inputs, outputs);
  }

  lemma Assembled(kind: Option<string>, sha: Option<string>, index: Read<int>, bytes: nat,
                  inputs: seq<InputSpec>, outputs: seq<OutputSpec>)
    requires kind.None? && sha.None? && index.Missing? && bytes <= LONG_MAX
    ensures Assemble(kind, sha, OrElse(index, 0), Some(bytes), Some(inputs), Some(outputs)) ==
      Some(Runtime("", 0, bytes, "", inputs, outputs))
  {
  }

  lemma InputsAreRead(specs: seq<TensorSpec>)
    requires forall i | 0 <= i < |specs| :: ReadableInput(specs[i])
    ensures ReadAll(ObjectTexts(AllFields(specs)), ReadInput) == Some(InputSpecs(specs))
  {
    var texts := ObjectTexts(AllFields(specs));
    forall i | 0 <= i < |texts| ensures ReadInput(texts[i]) == Some(AsInput(specs[i])) { InputIsRead(specs[i]); }
    EachIsRead(texts, ReadInput, InputSpecs(specs));
  }

  lemma OutputsAreRead(specs: seq<TensorSpec>)
    requires forall i | 0 <= i < |specs| :: ReadableOutput(specs[i])
    ensures ReadAll(ObjectTexts(AllFields(specs)), ReadOutput) == Some(OutputSpecs(specs))
  {
    var texts := ObjectTexts(AllFields(specs));
    forall i | 0 <= i < |texts| ensures ReadOutput(texts[i]) == Some(AsOutput(specs[i])) { OutputIsRead(specs[i]); }
    EachIsRead(texts, ReadOutput, OutputSpecs(specs));
  }
}
