/** The runtime's bracket scanner, which cuts a printed array of objects into their texts
    (leapp/leapp_graph/custom_operator_registry/warp_operator/runtime/core/runtime_metadata.cc). */
module ObjectArrays {
  import opened Ports
  import opened JsonText
  import opened FieldSearch
  import opened FieldReading

  /** The scan from position `pos` on, with the depths and the objects cut so far. */
  function Scan(text: string, pos: nat, arrayDepth: int, objectDepth: int, start: Option<nat>, objects: seq<string>)
    : Option<seq<string>>
    decreases |text| - pos
  {
    if pos >= |text| then (if arrayDepth == 0 && objectDepth == 0 then Some(objects) else None)
    else
      var c := text[pos];
      if c == '[' && objectDepth == 0 then Scan(text, pos + 1, arrayDepth + 1, objectDepth, start, objects)
      else if c == ']' && objectDepth == 0 then
        (if arrayDepth == 1 then Some(objects)
         else Scan(text, pos + 1, arrayDepth - 1, objectDepth, start, objects))
      else if c == '{' then
        Scan(text, pos + 1, arrayDepth, objectDepth + 1, if objectDepth == 0 then Some(pos) else start, objects)
      else if c == '}' then
        (if objectDepth == 1 && start.Some? && start.value <= pos
         then Scan(text, pos + 1, arrayDepth, 0, None, objects + [text[start.value..pos + 1]])
         else Scan(text, pos + 1, arrayDepth, objectDepth - 1, start, objects))
      else Scan(text, pos + 1, arrayDepth, objectDepth, start, objects)
  }

  function ArrayObjects(json: string, key: string): Option<seq<string>> {
    match Search(json, key, ArrayKind)
    case None => None
    case Some(found) => Scan(found, 1, 1, 0, None, [])
  }

  method ExtractObjectArray(json: string, key: string) returns (r: Option<seq<string>>)
    ensures r == ArrayObjects(json, key)
  {
    var found := Search(json, key, ArrayKind);
    if found.None? { return None; }
    var text := found.value;
    var pos, arrayDepth, objectDepth := 1, 1, 0;
    var start: Option<nat> := None;
    var objects: seq<string> := [];
    while pos < |text|
      invariant pos >= 1 && arrayDepth >= 1 && (start.Some? ==> start.value < pos)
      invariant Scan(text, pos, arrayDepth, objectDepth, start, objects) == Scan(text, 1, 1, 0, None, [])
    {
      var c := text[pos];
      if c == '[' && objectDepth == 0 {
        arrayDepth := arrayDepth + 1;
      } else if c == ']' && objectDepth == 0 {
        arrayDepth := arrayDepth - 1;
        if arrayDepth == 0 { return Some(objects); }
      } else if c == '{' {
        if objectDepth == 0 { start := Some(pos); }
        objectDepth := objectDepth + 1;
      } else if c == '}' {
        objectDepth := objectDepth - 1;
        if objectDepth == 0 && start.Some? {
          objects := objects + [text[start.value..pos + 1]];
          start := None;
        }
      }
      pos := pos + 1;
    }
    return None;
  }

  // ----- what it makes of a printed array

  predicate NoBraces(s: string) {
    '{' !in s && '}' !in s
  }

  lemma {:induction false} ScanInside(text: string, p: nat, e: nat, depth: int, start: nat, objects: seq<string>)
    requires p <= e < |text| && start < e && NoBraces(text[p..e]) && text[e] == '}'
    ensures Scan(text, p, depth, 1, Some(start), objects) ==
      Scan(text, e + 1, depth, 0, None, objects + [text[start..e + 1]])
    decreases e - p
  {
    if p < e {
      assert text[p] == text[p..e][0] && text[p + 1..e] == text[p..e][1..];
      ScanInside(text, p + 1, e, depth, start, objects);
    }
  }

  /** A text in braces with none inside. */
  predicate Braced(s: string) {
    |s| >= 2 && s[0] == '{' && s[|s| - 1] == '}' && NoBraces(s[1..|s| - 1])
  }

  lemma Window(text: string, p: nat, a: string, b: string)
    requires p <= |text| && text[p..] == a + b
    ensures p + |a| <= |text| && text[p..p + |a|] == a && text[p + |a|..] == b
  {
    assert forall i | 0 <= i < |a| :: text[p + i] == text[p..][i] == a[i];
    assert forall i | 0 <= i < |b| :: text[p + |a| + i] == text[p..][|a| + i] == b[i];
  }

  lemma ScanOne(text: string, p: nat, s: string, later: string, before: seq<string>)
    requires Braced(s) && p <= |text| && text[p..] == s + later
    ensures p + |s| <= |text| && text[p + |s|..] == later
    ensures Scan(text, p, 1, 0, None, before) == Scan(text, p + |s|, 1, 0, None, before + [s])
  {
    Window(text, p, s, later);
    var e := p + |s| - 1;
    assert text[p..e + 1] == s;
    assert forall i | 0 <= i < |s| :: s[i] == text[p + i];
    assert text[p + 1..e] == s[1..|s| - 1];
    assert text[p] == '{' && text[e] == '}';
    ScanInside(text, p + 1, e, 1, p, before);
  }

  /** Scanning comma-joined braced texts up to the closing bracket cuts exactly these texts. */
  lemma {:induction false} ScanJoined(text: string, p: nat, parts: seq<string>, rest: string, before: seq<string>)
    requires forall i | 0 <= i < |parts| :: Braced(parts[i])
    requires p <= |text| && text[p..] == CommaJoined(parts) + ("]" + rest)
    ensures Scan(text, p, 1, 0, None, before) == Some(before + parts)
    decreases |parts|
  {
    if parts == [] {
      Window(text, p, "]", rest);
      assert text[p] == text[p..p + 1][0];
      assert before + parts == before;
    } else if |parts| == 1 {
      ScanOne(text, p, parts[0], "]" + rest, before);
      Window(text, p + |parts[0]|, "]", rest);
      assert text[p + |parts[0]|] == text[p + |parts[0]|..p + |parts[0]| + 1][0];
      assert before + parts == before + [parts[0]];
    } else {
      var others := CommaJoined(parts[1..]);
      Associates(parts[0], "," + others, "]" + rest);
      Associates(",", others, "]" + rest);
      ScanOne(text, p, parts[0], "," + (others + ("]" + rest)), before);
      var q := p + |parts[0]|;
      Window(text, q, ",", others + ("]" + rest));
      assert text[q] == text[q..q + 1][0];
      ScanJoined(text, q + 1, parts[1..], rest, before + [parts[0]]);
      assert before + [parts[0]] + parts[1..] == before + parts;
    }
  }

  /** Texts free of braces are printed without braces, whatever brackets they hold. */
  predicate CleanFields(fields: seq<Field>) {
    PlainFields(fields) && forall i | 0 <= i < |fields| :: fields[i].value.Text? ==> NoBraces(fields[i].value.text)
  }

  lemma NoBracesJoin(a: string, b: string)
    requires NoBraces(a) && NoBraces(b)
    ensures NoBraces(a + b)
  {
  }

  lemma FieldIsBraceless(f: Field)
    requires Word(f.name) && PlainValue(f.value) && (f.value.Text? ==> NoBraces(f.value.text))
    ensures NoBraces(FieldText(f))
  {
    NamedField(f.name, f.value);
    NoBracesJoin(Marker(f.name), ValueText(f.value)) by {
      match f.value
      case Text(s) => PlainIsUnchanged(s);
      case Number(i) => IntTextNumeric(i);
      case Numbers(ns) => NumbersTextNumeric(ns);
      case _ =>
    }
  }

  lemma {:induction false} CleanIsBraceless(fields: seq<Field>)
    requires CleanFields(fields)
    ensures NoBraces(FieldsText(fields))
  {
    if fields != [] {
      FieldIsBraceless(fields[0]);
      CleanIsBraceless(fields[1..]);
    }
  }

  lemma CleanIsBraced(fields: seq<Field>)
    requires CleanFields(fields)
    ensures Braced(ObjectText(fields))
  {
    CleanIsBraceless(fields);
    var s := ObjectText(fields);
    assert s[1..|s| - 1] == FieldsText(fields);
  }
}
