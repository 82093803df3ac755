/** Reading back each field of a printed object by the pattern searches. */
module FieldReading {
  import opened Ports
  import opened JsonText
  import opened FieldSearch

  predicate PlainValue(v: Value) {
    v.Text? ==> Plain(v.text)
  }

  predicate PlainFields(fields: seq<Field>) {
    forall i | 0 <= i < |fields| :: Word(fields[i].name) && PlainValue(fields[i].value)
  }

  /** What stands behind a value in an object's text. */
  predicate Ends(c: char) {
    c == ',' || c == '}'
  }

  predicate Fits(v: Value, kind: Kind) {
    match v
    case Number(_) => kind == IntKind
    case Text(_) => kind == StringKind
    case Null => kind == StringKind
    case Flag(_) => kind == BoolKind
    case Numbers(_) => kind == ShapeKind
  }

  // ----- characters of printed values

  predicate Numeric(s: string) {
    forall i | 0 <= i < |s| :: Digit(s[i]) || s[i] == '-' || s[i] == ','
  }

  lemma IntTextNumeric(i: int)
    ensures Numeric(IntText(i)) && IntText(i) != ""
  {
  }

  lemma {:induction false} NumbersTextNumeric(ns: seq<int>)
    ensures Numeric(NumbersText(ns))
  {
    if ns != [] {
      IntTextNumeric(ns[0]);
      NumbersTextNumeric(ns[1..]);
    }
  }

  lemma WordIsPlain(s: string)
    requires Word(s)
    ensures Plain(s) && Escaped(s) == s
  {
    PlainIsUnchanged(s);
  }

  lemma ValueNoStart(v: Value, c: char, key: string)
    requires PlainValue(v) && Ends(c) && Word(key)
    ensures NoStart(ValueText(v) + [c], key)
  {
    match v
    case Text(s) =>
      PlainIsUnchanged(s);
      NoStartQuoted(s, c, key);
    case Number(i) =>
      IntTextNumeric(i);
      NoStartWithoutQuotes(ValueText(v) + [c], key);
    case Numbers(ns) =>
      NumbersTextNumeric(ns);
      NoStartWithoutQuotes(ValueText(v) + [c], key);
    case _ =>
      NoStartWithoutQuotes(ValueText(v) + [c], key);
  }

  lemma FieldNoStart(f: Field, c: char, key: string)
    requires Word(f.name) && PlainValue(f.value) && Ends(c) && Word(key) && f.name != key
    ensures NoStart(FieldText(f) + [c], key)
  {
    WordIsPlain(f.name);
    NoStartQuoted(f.name, ':', key);
    ValueNoStart(f.value, c, key);
    NoStartJoin("\"" + f.name + "\"" + [':'], ValueText(f.value) + [c], key);
    assert FieldText(f) + [c] == "\"" + f.name + "\"" + [':'] + (ValueText(f.value) + [c]);
  }

  lemma FirstOfMany(fields: seq<Field>, c: char, rest: string)
    requires |fields| > 1
    ensures FieldsText(fields) + [c] + rest ==
      (FieldText(fields[0]) + [',']) + (FieldsText(fields[1..]) + [c] + rest)
  {
    Regroup(FieldText(fields[0]), FieldsText(fields[1..]), c, rest);
  }

  lemma Regroup(a: string, b: string, c: char, rest: string)
    ensures a + ("," + b) + [c] + rest == (a + [',']) + (b + [c] + rest)
  {
  }

  lemma Associates(a: string, b: string, c: string)
    ensures (a + b) + c == a + (b + c)
  {
  }

  lemma {:induction false} FieldsNoStart(fields: seq<Field>, c: char, key: string)
    requires PlainFields(fields) && Ends(c) && Word(key)
    requires forall i | 0 <= i < |fields| :: fields[i].name != key
    ensures NoStart(FieldsText(fields) + [c], key)
  {
    if fields == [] {
      NoStartWithoutQuotes([c], key);
      assert FieldsText(fields) + [c] == [c];
    } else if |fields| == 1 {
      FieldNoStart(fields[0], c, key);
      assert FieldsText(fields) == FieldText(fields[0]);
    } else {
      FieldNoStart(fields[0], ',', key);
      FieldsNoStart(fields[1..], c, key);
      NoStartJoin(FieldText(fields[0]) + [','], FieldsText(fields[1..]) + [c], key);
      FirstOfMany(fields, c, "");
      Unended(FieldsText(fields), c);
      Unended(FieldsText(fields[1..]), c);
    }
  }

  lemma Unended(s: string, c: char)
    ensures s + [c] + "" == s + [c]
  {
  }

  // ----- finding a field

  lemma Behind(pre: string, rest: string)
    ensures StartsWith(pre + rest, pre) && (pre + rest)[|pre|..] == rest
  {
  }

  lemma {:induction false} UntilFirst(body: string, c: char, rest: string)
    requires c !in body
    ensures Until(body + ([c] + rest), c) == Some(|body|)
  {
    if body == "" {
      assert body + ([c] + rest) == [c] + rest;
    } else {
      UntilFirst(body[1..], c, rest);
      assert (body + ([c] + rest))[1..] == body[1..] + ([c] + rest);
    }
  }

  /** A quoted text read up to its closing quote. */
  lemma QuotedIsRead(s: string, tail: string)
    requires Plain(s)
    ensures
      var found := Quoted(s) + tail;
      StartsWith(found, "\"") && !StartsWith(found, "null") &&
      Until(found[1..], '"') == Some(|s|) && found[1..][..|s|] == s
  {
    PlainIsUnchanged(s);
    var found := Quoted(s) + tail;
    assert found[1..] == s + (['"'] + tail);
    UntilFirst(s, '"', tail);
    assert found[0] == '"';
  }

  lemma BracketIsRead(body: string, tail: string)
    requires ']' !in body
    ensures
      var found := "[" + body + "]" + tail;
      StartsWith(found, "[") && Until(found[1..], ']') == Some(|body|) && found[1..][..|body|] == body
  {
    var found := "[" + body + "]" + tail;
    assert found[1..] == body + ([']'] + tail);
    UntilFirst(body, ']', tail);
  }

  lemma ValueIsFound(v: Value, tail: string, kind: Kind)
    requires PlainValue(v) && Fits(v, kind) && tail != "" && Ends(tail[0])
    ensures ValueFits(kind, ValueText(v) + tail)
  {
    match v
    case Number(i) => IntReadsBack(i, tail);
    case Text(s) => QuotedIsRead(s, tail);
    case Null => Behind("null", tail);
    case Flag(b) => Behind(if b then "true" else "false", tail);
    case Numbers(ns) =>
      NumbersTextNumeric(ns);
      BracketIsRead(NumbersText(ns), tail);
  }

  lemma FirstIsFound(name: string, v: Value, tail: string, kind: Kind)
    requires Word(name) && PlainValue(v) && Fits(v, kind) && tail != "" && Ends(tail[0])
    ensures Search(FieldText(Field(name, v)) + tail, name, kind) == Some(ValueText(v) + tail)
  {
    WordIsPlain(name);
    ValueIsFound(v, tail, kind);
    Behind(Marker(name), ValueText(v) + tail);
    Associates(Marker(name), ValueText(v), tail);
    NamedField(name, v);
  }

  lemma NamedField(name: string, v: Value)
    requires Word(name)
    ensures FieldText(Field(name, v)) == Marker(name) + ValueText(v)
  {
    WordIsPlain(name);
    var text := ValueText(v);
    assert "\"" + name + "\"" + ":" + text == "\"" + name + "\":" + text;
  }

  /** The search finds the value of the first field of that name. */
  lemma {:induction false} FieldIsFound(fields: seq<Field>, k: nat, kind: Kind, c: char, rest: string)
    returns (tail: string)
    requires PlainFields(fields) && k < |fields| && Ends(c) && Fits(fields[k].value, kind)
    requires forall i | 0 <= i < k :: fields[i].name != fields[k].name
    ensures tail != "" && Ends(tail[0])
    ensures Search(FieldsText(fields) + [c] + rest, fields[k].name, kind) == Some(ValueText(fields[k].value) + tail)
  {
    var key, v := fields[k].name, fields[k].value;
    var later := if |fields| == 1 then [c] + rest else [','] + (FieldsText(fields[1..]) + [c] + rest);
    if |fields| == 1 {
      Associates(FieldText(fields[0]), [c], rest);
    } else {
      FirstOfMany(fields, c, rest);
      Associates(FieldText(fields[0]), [','], FieldsText(fields[1..]) + [c] + rest);
    }
    assert FieldsText(fields) + [c] + rest == FieldText(fields[0]) + later;
    if k == 0 {
      tail := later;
      FirstIsFound(key, v, tail, kind);
      assert fields[0] == Field(key, v);
    } else {
      tail := FieldIsFound(fields[1..], k - 1, kind, c, rest);
      FieldNoStart(fields[0], ',', key);
      SearchSkips(FieldText(fields[0]) + [','], FieldsText(fields[1..]) + [c] + rest, key, kind);
    }
  }

  lemma ObjectFieldIsFound(fields: seq<Field>, k: nat, kind: Kind) returns (tail: string)
    requires PlainFields(fields) && k < |fields| && Fits(fields[k].value, kind)
    requires forall i | 0 <= i < k :: fields[i].name != fields[k].name
    ensures tail != "" && Ends(tail[0])
    ensures Search(ObjectText(fields), fields[k].name, kind) == Some(ValueText(fields[k].value) + tail)
  {
    tail := FieldIsFound(fields, k, kind, '}', "");
    Unended(FieldsText(fields), '}');
    NoStartWithoutQuotes("{", fields[k].name);
    SearchSkips("{", FieldsText(fields) + ['}'], fields[k].name, kind);
    assert ObjectText(fields) == "{" + (FieldsText(fields) + ['}']);
  }

  // ----- reading a field

  lemma StringIsRead(fields: seq<Field>, k: nat)
    requires PlainFields(fields) && k < |fields| && (fields[k].value.Text? || fields[k].value.Null?)
    requires forall i | 0 <= i < k :: fields[i].name != fields[k].name
    ensures ExtractString(ObjectText(fields), fields[k].name) ==
      Some(if fields[k].value.Text? then fields[k].value.text else "")
  {
    var tail := ObjectFieldIsFound(fields, k, StringKind);
    if fields[k].value.Text? {
      QuotedIsRead(fields[k].value.text, tail);
    } else {
      Behind("null", tail);
    }
  }

  lemma IntIsRead(fields: seq<Field>, k: nat)
    requires PlainFields(fields) && k < |fields| && fields[k].value.Number?
    requires forall i | 0 <= i < k :: fields[i].name != fields[k].name
    requires -LONG_MAX - 1 <= fields[k].value.number <= LONG_MAX
    ensures ExtractInt(ObjectText(fields), fields[k].name) == Found(fields[k].value.number)
  {
    var tail := ObjectFieldIsFound(fields, k, IntKind);
    var i := fields[k].value.number;
    IntReadsBack(i, tail);
    Behind(IntText(i), tail);
  }

  lemma BoolIsRead(fields: seq<Field>, k: nat)
    requires PlainFields(fields) && k < |fields| && fields[k].value.Flag?
    requires forall i | 0 <= i < k :: fields[i].name != fields[k].name
    ensures ExtractBool(ObjectText(fields), fields[k].name) == Some(fields[k].value.flag)
  {
    var tail := ObjectFieldIsFound(fields, k, BoolKind);
    Behind(ValueText(fields[k].value), tail);
    if !fields[k].value.flag {
      assert ("false" + tail)[0] == 'f';
    }
  }

  lemma {:induction false} NumbersAreRead(ns: seq<int>)
    requires forall i | 0 <= i < |ns| :: -LONG_MAX - 1 <= ns[i] <= LONG_MAX
    ensures NumbersIn(NumbersText(ns)) == Found(ns)
  {
    if ns != [] {
      var first, rest := IntText(ns[0]), NumbersText(ns[1..]);
      NumbersAreRead(ns[1..]);
      IntTextNumeric(ns[0]);
      if |ns| == 1 {
        IntReadsBack(ns[0], "");
        assert first + "" == first && first[..|first|] == first && first[|first|..] == "";
        assert [ns[0]] + ns[1..] == ns;
      } else {
        IntReadsBack(ns[0], "," + rest);
        var body := first + ("," + rest);
        assert NumbersText(ns) == body;
        assert body[..|first|] == first && body[|first|..] == "," + rest;
        assert ("," + rest)[1..] == rest && ("," + rest)[0..] == "," + rest;
        assert NumbersIn("," + rest) == NumbersIn(rest);
        assert [ns[0]] + ns[1..] == ns;
      }
    }
  }

  lemma ShapeIsRead(fields: seq<Field>, k: nat)
    requires PlainFields(fields) && k < |fields| && fields[k].value.Numbers? && fields[k].name == "shape"
    requires forall i | 0 <= i < k :: fields[i].name != "shape"
    requires forall i | 0 <= i < |fields[k].value.numbers| :: -LONG_MAX - 1 <= fields[k].value.numbers[i] <= LONG_MAX
    ensures ExtractShape(ObjectText(fields)) == Found(fields[k].value.numbers)
  {
    var tail := ObjectFieldIsFound(fields, k, ShapeKind);
    var body := NumbersText(fields[k].value.numbers);
    NumbersTextNumeric(fields[k].value.numbers);
    BracketIsRead(body, tail);
    NumbersAreRead(fields[k].value.numbers);
  }
}
