/** Building the metadata of an embedded Warp runner from the segment's tensor references
    (leapp/leapp_graph/custom_operator_registry/warp_operator/metadata.py). */
module RunnerMetadata {
  import opened Ports
  import opened JsonText
  import opened ObjectArrays
  import opened RuntimeMetadata

  /** A tensor at the segment's boundary: its segment-local name, and its array and storage form. */
  datatype Ref = Ref(name: string, dtype: Option<string>, shape: seq<nat>, componentShape: seq<nat>,
                     storageShape: seq<nat>, storageDtype: Option<string>)

  // ----- element types

  /** The known names, longest first. */
  const NAMES := ["bfloat16", "float16", "float32", "float64", "uint8", "int16", "int32", "int64", "bool", "int8"]

  predicate Contains(text: string, part: string) {
    (|part| <= |text| && text[..|part|] == part) || (text != "" && Contains(text[1..], part))
  }

  function FirstContained(text: string, names: seq<string>): (r: Option<string>)
    ensures r.Some? ==> r.value in names && Contains(text, r.value)
    ensures r.None? ==> forall n | n in names :: !Contains(text, n)
  {
    if names == [] then None
    else if Contains(text, names[0]) then Some(names[0])
    else FirstContained(text, names[1..])
  }

  function Stripped(dtype: string): string {
    if |dtype| >= 3 && dtype[..3] == "wp." then dtype[3..] else dtype
  }

  function NormalizeDtypeName(dtype: string): string {
    var name := Stripped(dtype);
    var known := FirstContained(name, NAMES);
    if known.Some? then known.value else name
  }

  lemma {:induction false} ContainedIsShorter(text: string, part: string)
    requires Contains(text, part)
    ensures |part| <= |text| && (|part| == |text| ==> part == text)
    ensures |text| == |part| + 1 ==> text[..|part|] == part || text[1..] == part
  {
    if !(|part| <= |text| && text[..|part|] == part) { ContainedIsShorter(text[1..], part); }
  }

  predicate LongestFirst(names: seq<string>) {
    forall i, j | 0 <= i < j < |names| :: |names[i]| >= |names[j]|
  }

  /** `r` is one of the names in the text, and none in it is longer. */
  predicate LongestIn(text: string, names: seq<string>, r: string) {
    r in names && Contains(text, r) && forall n | n in names && Contains(text, n) :: |n| <= |r|
  }

  predicate HoldsNone(text: string, names: seq<string>) {
    forall n | n in names :: !Contains(text, n)
  }

  lemma {:induction false} FirstIsLongest(text: string, names: seq<string>)
    requires LongestFirst(names)
    ensures FirstContained(text, names).None? <==> HoldsNone(text, names)
    ensures FirstContained(text, names).Some? ==> LongestIn(text, names, FirstContained(text, names).value)
  {
    if names != [] && !Contains(text, names[0]) { FirstIsLongest(text, names[1..]); }
  }

  lemma NamesAreLongestFirst()
    ensures LongestFirst(NAMES)
  {
  }

  /** Normalisation yields the longest known name in the type's name, if it holds any. */
  lemma LongestContained(dtype: string)
    ensures HoldsNone(Stripped(dtype), NAMES) ==> NormalizeDtypeName(dtype) == Stripped(dtype)
    ensures !HoldsNone(Stripped(dtype), NAMES) ==> LongestIn(Stripped(dtype), NAMES, NormalizeDtypeName(dtype))
  {
    NamesAreLongestFirst();
    FirstIsLongest(Stripped(dtype), NAMES);
  }

  /** A name without a dot cannot straddle the dot that ends a module path. */
  lemma {:induction false} ContainedInPart(path: string, own: string, part: string)
    requires part != "" && '.' !in part && (path == "" || path[|path| - 1] == '.')
    ensures Contains(path + own, part) <==> Contains(path, part) || Contains(own, part)
  {
    if path == "" {
      assert path + own == own;
    } else {
      assert (path + own)[1..] == path[1..] + own;
      ContainedInPart(path[1..], own, part);
      if |part| <= |path| {
        assert (path + own)[..|part|] == path[..|part|];
      } else {
        assert part[|path| - 1] != '.';
        assert |part| <= |path + own| ==> (path + own)[..|part|][|path| - 1] == '.';
      }
    }
  }

  lemma KnownNames(name: string)
    requires name in NAMES
    ensures name != "" && '.' !in name
  {
  }

  /** A path like "torch.": empty or ended by a dot, without the name of a type in it. */
  predicate Path(path: string) {
    (path == "" || path[|path| - 1] == '.') && HoldsNone(path, NAMES)
  }

  lemma StrippedPath(path: string, own: string) returns (rest: string)
    requires Path(path) && '.' !in own
    ensures Path(rest) && Stripped(path + own) == rest + own && (rest == "" <==> path == "" || path == "wp.")
  {
    if |path| >= 3 && path[..3] == "wp." {
      rest := path[3..];
      assert (path + own)[..3] == "wp." && (path + own)[3..] == rest + own;
      forall n | n in NAMES ensures !Contains(rest, n) {
        assert path[1..][1..][1..] == rest;
        assert Contains(path[1..][1..], n) ==> Contains(path[1..], n);
      }
    } else {
      rest := path;
      if |path| >= 3 {
        assert (path + own)[..3] == path[..3];
      } else if |path + own| >= 3 {
        assert (path + own)[2] == own[2 - |path|] && own[2 - |path|] in own;
      }
    }
  }

  /** A type is described under its own name exactly when that name is known, or when it holds no known
      name and no path but "wp." comes before it. */
  lemma OwnNameKept(path: string, own: string)
    requires Path(path) && '.' !in own
    ensures NormalizeDtypeName(path + own) == own <==>
      own in NAMES || ((path == "" || path == "wp.") && HoldsNone(own, NAMES))
  {
    var rest := StrippedPath(path, own);
    LongestContained(path + own);
    forall n | n in NAMES ensures Contains(rest + own, n) <==> Contains(own, n) {
      KnownNames(n);
      ContainedInPart(rest, own, n);
    }
    if own in NAMES {
      assert |own| <= |own| && own[..|own|] == own;
      assert Contains(own, own);
      var r := NormalizeDtypeName(path + own);
      ContainedIsShorter(own, r);
    }
    assert rest != "" ==> |rest + own| > |own|;
    assert rest == "" ==> rest + own == own;
  }

  lemma OneLetterMore(signed: string)
    requires signed in NAMES && |signed| == 5 && signed[0] == 'i' && signed[3] != '8'
    ensures NormalizeDtypeName(['u'] + signed) == signed
  {
    var text := ['u'] + signed;
    assert text[..3][0] == 'u' && text[1..] == signed && signed[..5] == signed;
    assert Contains(signed, signed) && Contains(text, signed);
    LongestContained(text);
    var r := NormalizeDtypeName(text);
    ContainedIsShorter(text, r);
    LongKnownNames(r);
    assert text[..5][0] == 'u' && text[..5][4] == signed[3];
  }

  /** The unsigned types the table leaves out are described as the signed ones. */
  lemma UnsignedIsSigned(bits: string)
    requires bits in ["16", "32", "64"]
    ensures NormalizeDtypeName("uint" + bits) == "int" + bits
  {
    SignedIsKnown(bits);
    OneLetterMore("int" + bits);
    assert ['u'] + ("int" + bits) == "uint" + bits;
  }

  lemma SignedIsKnown(bits: string)
    requires bits in ["16", "32", "64"]
    ensures "int" + bits in NAMES
  {
    assert "int" + "16" == NAMES[5] && "int" + "32" == NAMES[6] && "int" + "64" == NAMES[7];
  }

  lemma LongKnownNames(name: string)
    requires name in NAMES && 5 <= |name| <= 6
    ensures |name| == 5 && (name[0] == 'i' || name[4] == '8')
  {
  }

  function ItemSize(dtype: string): nat {
    if dtype in ["bool", "uint8", "int8"] then 1
    else if dtype in ["int16", "float16", "bfloat16"] then 2
    else if dtype in ["int32", "float32"] then 4
    else if dtype in ["int64", "float64"] then 8
    else 0
  }

  function Elements(shape: seq<nat>): nat {
    if shape == [] then 1 else Elements(shape[..|shape| - 1]) * shape[|shape| - 1]
  }

  function NumBytes(shape: seq<nat>, dtype: string): nat {
    if shape == [] then 0 else Elements(shape) * ItemSize(dtype)
  }

  // ----- the specifications

  function SpecOf(index: nat, ref: Ref, shape: seq<nat>, dtype: string, mask: Option<bool>): TensorSpec {
    TensorSpec(ref.componentShape, dtype, index, mask, NumBytes(shape, dtype),
               if mask == Some(false) then None else Some(ref.name), shape, ref.dtype, ref.shape)
  }

  function StorageDtype(ref: Ref): string {
    NormalizeDtypeName(if ref.storageDtype.Some? then ref.storageDtype.value else "")
  }

  function InputSpecOf(inputs: seq<Ref>, i: nat): TensorSpec
    requires i < |inputs|
  {
    SpecOf(i, inputs[i], inputs[i].storageShape, StorageDtype(inputs[i]), None)
  }

  function OutputSpecOf(outputs: seq<Ref>, shapes: seq<seq<nat>>, dtypes: seq<string>, mask: seq<bool>, i: nat): TensorSpec
    requires |outputs| == |shapes| == |dtypes| == |mask| && i < |outputs|
  {
    SpecOf(i, outputs[i], shapes[i], NormalizeDtypeName(dtypes[i]), Some(mask[i]))
  }

  function InputSpecsOf(inputs: seq<Ref>): seq<TensorSpec> {
    seq(|inputs|, i requires 0 <= i < |inputs| => InputSpecOf(inputs, i))
  }

  function OutputSpecsOf(outputs: seq<Ref>, shapes: seq<seq<nat>>, dtypes: seq<string>, mask: seq<bool>): seq<TensorSpec>
    requires |outputs| == |shapes| == |dtypes| == |mask|
  {
    seq(|outputs|, i requires 0 <= i < |outputs| => OutputSpecOf(outputs, shapes, dtypes, mask, i))
  }

  /** Refused unless there is one shape, one element type and one mark for each output. */
  function BuildRuntimeMetadata(inputs: seq<Ref>, outputs: seq<Ref>, shapes: seq<seq<nat>>, dtypes: seq<string>,
                                mask: seq<bool>): Option<Metadata> {
    if |outputs| != |shapes| || |outputs| != |dtypes| || |outputs| != |mask| then None
    else Some(Metadata(InputSpecsOf(inputs), OutputSpecsOf(outputs, shapes, dtypes, mask)))
  }

  // ----- what the runtime gets

  /** A reference that can be described: a plain name, a known element type and a size in range. */
  predicate Describable(index: nat, ref: Ref, shape: seq<nat>, dtype: string) {
    PrintableName(ref.name) && (ref.dtype.Some? ==> PrintableName(ref.dtype.value)) && index < 0x8000_0000 &&
    KnownDtype(dtype) && NumBytes(shape, dtype) <= 0x7fff_ffff_ffff_ffff &&
    forall k | 0 <= k < |shape| :: InLong(shape[k])
  }

  lemma KnownIsPrintable(name: string)
    requires KnownDtype(name)
    ensures PrintableName(name)
  {
  }

  lemma DescribableIsReadable(index: nat, ref: Ref, shape: seq<nat>, dtype: string, mask: Option<bool>)
    requires Describable(index, ref, shape, dtype)
    ensures Readable(SpecOf(index, ref, shape, dtype, mask))
  {
    KnownIsPrintable(dtype);
  }

  predicate DescribableOutput(outputs: seq<Ref>, shapes: seq<seq<nat>>, dtypes: seq<string>, mask: seq<bool>, i: nat)
    requires |outputs| == |shapes| == |dtypes| == |mask| && i < |outputs|
  {
    Describable(i, outputs[i], shapes[i], NormalizeDtypeName(dtypes[i])) && (mask[i] ==> outputs[i].name != "")
  }

  /** What the runtime is to get for an input: its own index, name, element type, shape and size. */
  function ArrivedInput(inputs: seq<Ref>, i: nat): InputSpec
    requires i < |inputs|
  {
    var dtype := StorageDtype(inputs[i]);
    InputSpec(i, inputs[i].name, dtype, inputs[i].storageShape, NumBytes(inputs[i].storageShape, dtype))
  }

  function ArrivedOutput(outputs: seq<Ref>, shapes: seq<seq<nat>>, dtypes: seq<string>, mask: seq<bool>, i: nat): OutputSpec
    requires |outputs| == |shapes| == |dtypes| == |mask| && i < |outputs|
  {
    var dtype := NormalizeDtypeName(dtypes[i]);
    OutputSpec(i, mask[i], if mask[i] then outputs[i].name else "", dtype, shapes[i], NumBytes(shapes[i], dtype))
  }

  lemma InputArrives(inputs: seq<Ref>, i: nat)
    requires i < |inputs| && Describable(i, inputs[i], inputs[i].storageShape, StorageDtype(inputs[i]))
    ensures ReadableInput(InputSpecOf(inputs, i))
    ensures AsInput(InputSpecOf(inputs, i)) == ArrivedInput(inputs, i)
  {
    DescribableIsReadable(i, inputs[i], inputs[i].storageShape, StorageDtype(inputs[i]), None);
  }

  lemma OutputArrives(outputs: seq<Ref>, shapes: seq<seq<nat>>, dtypes: seq<string>, mask: seq<bool>, i: nat)
    requires |outputs| == |shapes| == |dtypes| == |mask| && i < |outputs|
    requires DescribableOutput(outputs, shapes, dtypes, mask, i)
    ensures ReadableOutput(OutputSpecOf(outputs, shapes, dtypes, mask, i))
    ensures AsOutput(OutputSpecOf(outputs, shapes, dtypes, mask, i)) == ArrivedOutput(outputs, shapes, dtypes, mask, i)
  {
    DescribableIsReadable(i, outputs[i], shapes[i], NormalizeDtypeName(dtypes[i]), Some(mask[i]));
  }

  lemma InputsArrive(inputs: seq<Ref>)
    requires forall i | 0 <= i < |inputs| ::
      Describable(i, inputs[i], inputs[i].storageShape, StorageDtype(inputs[i]))
    ensures forall i | 0 <= i < |inputs| :: ReadableInput(InputSpecsOf(inputs)[i])
    ensures forall i | 0 <= i < |inputs| :: InputSpecs(InputSpecsOf(inputs))[i] == ArrivedInput(inputs, i)
  {
    forall i | 0 <= i < |inputs|
      ensures ReadableInput(InputSpecsOf(inputs)[i]) && InputSpecs(InputSpecsOf(inputs))[i] == ArrivedInput(inputs, i)
    {
      InputArrives(inputs, i);
    }
  }

  lemma OutputsArrive(outputs: seq<Ref>, shapes: seq<seq<nat>>, dtypes: seq<string>, mask: seq<bool>)
    requires |outputs| == |shapes| == |dtypes| == |mask|
    requires forall i | 0 <= i < |outputs| :: DescribableOutput(outputs, shapes, dtypes, mask, i)
    ensures forall i | 0 <= i < |outputs| :: ReadableOutput(OutputSpecsOf(outputs, shapes, dtypes, mask)[i])
    ensures forall i | 0 <= i < |outputs| ::
      OutputSpecs(OutputSpecsOf(outputs, shapes, dtypes, mask))[i] == ArrivedOutput(outputs, shapes, dtypes, mask, i)
  {
    forall i | 0 <= i < |outputs|
      ensures ReadableOutput(OutputSpecsOf(outputs, shapes, dtypes, mask)[i])
      ensures OutputSpecs(OutputSpecsOf(outputs, shapes, dtypes, mask))[i] ==
        ArrivedOutput(outputs, shapes, dtypes, mask, i)
    {
      OutputArrives(outputs, shapes, dtypes, mask, i);
    }
  }

  /** From the references to the runtime: every tensor arrives in order with its index, storage shape
      and byte count, a kept one under its own name and a dropped one under none. */
  lemma RunnerSeesReferences(inputs: seq<Ref>, outputs: seq<Ref>, shapes: seq<seq<nat>>, dtypes: seq<string>,
                             mask: seq<bool>, m: Metadata)
    requires BuildRuntimeMetadata(inputs, outputs, shapes, dtypes, mask) == Some(m)
    requires forall i | 0 <= i < |inputs| ::
      Describable(i, inputs[i], inputs[i].storageShape, StorageDtype(inputs[i]))
    requires forall i | 0 <= i < |outputs| :: DescribableOutput(outputs, shapes, dtypes, mask, i)
    ensures Decode(Encode(m)) == Some(Seen(m)) && |Seen(m).inputs| == |inputs| && |Seen(m).outputs| == |outputs|
    ensures forall i | 0 <= i < |inputs| :: Seen(m).inputs[i] == ArrivedInput(inputs, i)
    ensures forall i | 0 <= i < |outputs| :: Seen(m).outputs[i] == ArrivedOutput(outputs, shapes, dtypes, mask, i)
  {
    InputsArrive(inputs);
    OutputsArrive(outputs, shapes, dtypes, mask);
    MetadataRoundTrip(m);
  }
}
