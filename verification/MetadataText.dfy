/** The outer text of the runtime metadata, around two lists of printed specifications. */
module MetadataText {
  import opened Ports
  import opened JsonText
  import opened FieldSearch
  import opened FieldReading
  import opened ObjectArrays

  /** The member `name`, a list, and what follows it. */
  function ListText(name: string, list: string, close: string): string {
    Marker(name) + ("[" + (list + close))
  }

  function TopText(inputs: string, outputs: string): string {
    ("{" + ListText("inputs", inputs, "],")) + ListText("outputs", outputs, "]}")
  }

  /** A name that no field of a specification has. */
  predicate Foreign(key: string) {
    key in {"inputs", "outputs", "device_kind", "device_index", "sha256"}
  }

  lemma ForeignIsWord(key: string)
    requires Foreign(key)
    ensures Word(key)
  {
  }

  lemma ListNames()
    ensures Word("inputs") && Word("outputs") && Word("num_bytes")
  {
  }

  lemma ObjectNoStart(fs: seq<Field>, key: string)
    requires PlainFields(fs) && Word(key) && forall i | 0 <= i < |fs| :: fs[i].name != key
    ensures NoStart(ObjectText(fs), key)
  {
    FieldsNoStart(fs, '}', key);
    NoStartWithoutQuotes("{", key);
    NoStartJoin("{", FieldsText(fs) + ['}'], key);
    assert ObjectText(fs) == "{" + (FieldsText(fs) + ['}']);
  }

  lemma {:induction false} JoinedNoStart(parts: seq<string>, key: string)
    requires forall i | 0 <= i < |parts| :: NoStart(parts[i], key)
    ensures NoStart(CommaJoined(parts), key)
  {
    if parts == [] {
      NoStartWithoutQuotes("", key);
    } else if |parts| == 1 {
      assert CommaJoined(parts) == parts[0];
    } else {
      JoinedNoStart(parts[1..], key);
      NoStartWithoutQuotes(",", key);
      NoStartJoin(",", CommaJoined(parts[1..]), key);
      NoStartJoin(parts[0], "," + CommaJoined(parts[1..]), key);
    }
  }

  lemma NoStartName(name: string, key: string)
    requires Word(name) && Word(key) && name != key
    ensures NoStart(Marker(name), key)
  {
    NoStartQuoted(name, ':', key);
    assert Marker(name) == "\"" + name + "\"" + [':'];
  }

  /** `name`, a bracket, a list and what closes it hold no start of another name. */
  lemma ListNoStart(name: string, list: string, close: string, key: string)
    requires NoStart(list, key) && Word(name) && Word(key) && '"' !in close && name != key
    ensures NoStart(ListText(name, list, close), key)
  {
    NoStartWithoutQuotes(close, key);
    NoStartJoin(list, close, key);
    NoStartWithoutQuotes("[", key);
    NoStartJoin("[", list + close, key);
    NoStartName(name, key);
    NoStartJoin(Marker(name), "[" + (list + close), key);
  }

  lemma LeftNoStart(inputs: string, key: string)
    requires NoStart(inputs, key) && Word(key) && key != "inputs"
    ensures NoStart("{" + ListText("inputs", inputs, "],"), key)
  {
    ListNames();
    ListNoStart("inputs", inputs, "],", key);
    NoStartWithoutQuotes("{", key);
    NoStartJoin("{", ListText("inputs", inputs, "],"), key);
  }

  lemma {:induction false} AbsentIsMissed(text: string, key: string, kind: Kind)
    requires NoStart(text, key)
    ensures Search(text, key, kind).None?
  {
    SearchSkips(text, "", key, kind);
    Empty(text);
  }

  lemma Empty(s: string)
    ensures s + "" == s
  {
  }

  /** A name that neither the lists nor the outer text has is not found anywhere. */
  lemma TopMissing(inputs: string, outputs: string, key: string, kind: Kind)
    requires NoStart(inputs, key) && NoStart(outputs, key) && Word(key) && key != "inputs" && key != "outputs"
    ensures Search(TopText(inputs, outputs), key, kind).None?
  {
    ListNames();
    LeftNoStart(inputs, key);
    ListNoStart("outputs", outputs, "]}", key);
    NoStartJoin("{" + ListText("inputs", inputs, "],"), ListText("outputs", outputs, "]}"), key);
    AbsentIsMissed(TopText(inputs, outputs), key, kind);
  }

  // ----- the two lists

  lemma ListIsFound(name: string, list: string, close: string, rest: string)
    ensures Search(ListText(name, list, close) + rest, name, ArrayKind) == Some("[" + (list + (close + rest)))
  {
    Nested(Marker(name), list, close, rest);
    Behind("[", list + (close + rest));
    Behind(Marker(name), "[" + (list + (close + rest)));
    MarkerIsText(name);
  }

  lemma MarkerIsText(name: string)
    ensures Marker(name) != "" && Marker(name)[0] == '"'
  {
  }

  lemma Nested(a: string, b: string, c: string, d: string)
    ensures (a + ("[" + (b + c))) + d == a + ("[" + (b + (c + d)))
  {
  }

  lemma ListIsCut(parts: seq<string>, close: string)
    requires forall i | 0 <= i < |parts| :: Braced(parts[i])
    ensures Scan("[" + (CommaJoined(parts) + ("]" + close)), 1, 1, 0, None, []) == Some(parts)
  {
    Behind("[", CommaJoined(parts) + ("]" + close));
    ScanJoined("[" + (CommaJoined(parts) + ("]" + close)), 1, parts, close, []);
    assert [] + parts == parts;
  }

  lemma CloseSplits(rest: string)
    ensures "]," + rest == "]" + ("," + rest)
  {
  }

  lemma InputsAreCut(parts: seq<string>, outputs: string)
    requires forall i | 0 <= i < |parts| :: Braced(parts[i])
    ensures ArrayObjects(TopText(CommaJoined(parts), outputs), "inputs") == Some(parts)
  {
    var list, right := CommaJoined(parts), ListText("outputs", outputs, "]}");
    Associates("{", ListText("inputs", list, "],"), right);
    NoStartWithoutQuotes("{", "inputs");
    SearchSkips("{", ListText("inputs", list, "],") + right, "inputs", ArrayKind);
    ListIsFound("inputs", list, "],", right);
    CloseSplits(right);
    ListIsCut(parts, "," + right);
  }

  lemma OutputsAreCut(inputs: string, parts: seq<string>)
    requires NoStart(inputs, "outputs") && forall i | 0 <= i < |parts| :: Braced(parts[i])
    ensures ArrayObjects(TopText(inputs, CommaJoined(parts)), "outputs") == Some(parts)
  {
    ListNames();
    LeftNoStart(inputs, "outputs");
    SearchSkips("{" + ListText("inputs", inputs, "],"), ListText("outputs", CommaJoined(parts), "]}"), "outputs", ArrayKind);
    LastListIsCut("outputs", parts);
  }

  lemma LastListIsCut(name: string, parts: seq<string>)
    requires forall i | 0 <= i < |parts| :: Braced(parts[i])
    ensures ArrayObjects(ListText(name, CommaJoined(parts), "]}"), name) == Some(parts)
  {
    Empty(ListText(name, CommaJoined(parts), "]}"));
    ListIsFound(name, CommaJoined(parts), "]}", "");
    Empty("]}");
    assert "]" + "}" == "]}";
    ListIsCut(parts, "}");
  }

  // ----- the first number of a name

  /** The number in the first object of a list, whatever follows. */
  lemma FirstObjectNumber(fs: seq<Field>, k: nat, parts: seq<string>, rest: string)
    requires PlainFields(fs) && k < |fs| && fs[k].value.Number? && parts != [] && parts[0] == ObjectText(fs)
    requires forall i | 0 <= i < k :: fs[i].name != fs[k].name
    requires -LONG_MAX - 1 <= fs[k].value.number <= LONG_MAX
    ensures ExtractInt(CommaJoined(parts) + rest, fs[k].name) == Found(fs[k].value.number)
  {
    var more := if |parts| == 1 then "" else "," + CommaJoined(parts[1..]);
    InBraces(FieldsText(fs), more, rest);
    NoStartWithoutQuotes("{", fs[k].name);
    SearchSkips("{", FieldsText(fs) + ['}'] + (more + rest), fs[k].name, IntKind);
    NumberIsFound(fs, k, more + rest);
  }

  lemma NumberIsFound(fs: seq<Field>, k: nat, rest: string)
    requires PlainFields(fs) && k < |fs| && fs[k].value.Number?
    requires forall i | 0 <= i < k :: fs[i].name != fs[k].name
    requires -LONG_MAX - 1 <= fs[k].value.number <= LONG_MAX
    ensures ExtractInt(FieldsText(fs) + ['}'] + rest, fs[k].name) == Found(fs[k].value.number)
  {
    var tail := FieldIsFound(fs, k, IntKind, '}', rest);
    IntReadsBack(fs[k].value.number, tail);
    Behind(IntText(fs[k].value.number), tail);
  }

  lemma InBraces(inner: string, a: string, b: string)
    ensures (("{" + inner + "}") + a) + b == "{" + (inner + ['}'] + (a + b))
  {
  }

  lemma OpeningNoStart(name: string)
    requires name == "inputs" || name == "outputs"
    ensures NoStart(Marker(name) + "[", "num_bytes")
  {
    ListNames();
    NoStartName(name, "num_bytes");
    NoStartWithoutQuotes("[", "num_bytes");
    NoStartJoin(Marker(name), "[", "num_bytes");
  }

  /** The byte count found in the whole text is the one found in the first list that has any. */
  lemma TopNumber(inputs: string, outputs: string)
    ensures ExtractInt(TopText(inputs, outputs), "num_bytes") ==
      ExtractInt(inputs + ("]," + ListText("outputs", outputs, "]}")), "num_bytes")
    ensures inputs == "" ==>
      ExtractInt(TopText(inputs, outputs), "num_bytes") == ExtractInt(outputs + "]}", "num_bytes")
    ensures inputs == "" && outputs == "" ==> ExtractInt(TopText(inputs, outputs), "num_bytes").Missing?
  {
    var right := ListText("outputs", outputs, "]}");
    NoStartWithoutQuotes("{", "num_bytes");
    OpeningNoStart("inputs");
    NoStartJoin("{", Marker("inputs") + "[", "num_bytes");
    OpeningText(Marker("inputs"), inputs, "],", right);
    SearchSkips("{" + (Marker("inputs") + "["), inputs + ("]," + right), "num_bytes", IntKind);
    if inputs == "" {
      assert inputs + ("]," + right) == "]," + right;
      OpeningNoStart("outputs");
      NoStartWithoutQuotes("],", "num_bytes");
      SearchSkips("],", right, "num_bytes", IntKind);
      Associates(Marker("outputs"), "[", outputs + "]}");
      SearchSkips(Marker("outputs") + "[", outputs + "]}", "num_bytes", IntKind);
      if outputs == "" {
        assert outputs + "]}" == "]}";
        NoStartWithoutQuotes("]}", "num_bytes");
        AbsentIsMissed("]}", "num_bytes", IntKind);
      }
    }
  }

  lemma OpeningText(marker: string, list: string, close: string, rest: string)
    ensures ("{" + (marker + ("[" + (list + close)))) + rest == ("{" + (marker + "[")) + (list + (close + rest))
  {
  }
}
