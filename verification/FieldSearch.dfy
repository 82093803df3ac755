/** The runtime's reading of one field of an object's text: a pattern search for its quoted name
    (leapp/leapp_graph/custom_operator_registry/warp_operator/runtime/core/runtime_metadata.cc). */
module FieldSearch {
  import opened Ports
  import opened JsonText

  predicate StartsWith(text: string, prefix: string) {
    |prefix| <= |text| && text[..|prefix|] == prefix
  }

  function Marker(key: string): string {
    "\"" + key + "\":"
  }

  /** What a search asks of the text behind the name. */
  datatype Kind = StringKind | IntKind | BoolKind | ShapeKind | ArrayKind

  /** How many characters stand before the first `c`. */
  function Until(text: string, c: char): (n: Option<nat>)
    ensures n.Some? ==> n.value < |text| && text[n.value] == c && c !in text[..n.value]
    ensures n.None? ==> c !in text
  {
    if text == "" then None
    else if text[0] == c then Some(0)
    else
      var rest := Until(text[1..], c);
      if rest.None? then None else Some(rest.value + 1)
  }

  predicate ValueFits(kind: Kind, text: string) {
    match kind
    case StringKind => StartsWith(text, "null") || (StartsWith(text, "\"") && Until(text[1..], '"').Some?)
    case IntKind => IntMatch(text).Some?
    case BoolKind => StartsWith(text, "true") || StartsWith(text, "false")
    case ShapeKind => StartsWith(text, "[") && Until(text[1..], ']').Some?
    case ArrayKind => StartsWith(text, "[")
  }

  /** The text behind the first place where the quoted name, a colon and a fitting value stand. */
  function Search(text: string, key: string, kind: Kind): (r: Option<string>)
    ensures r.Some? ==> ValueFits(kind, r.value)
  {
    if text == "" then None
    else if StartsWith(text, Marker(key)) && ValueFits(kind, text[|Marker(key)|..]) then Some(text[|Marker(key)|..])
    else Search(text[1..], key, kind)
  }

  function ExtractString(text: string, key: string): Option<string> {
    match Search(text, key, StringKind)
    case None => None
    case Some(found) =>
      if StartsWith(found, "null") then Some("") else Some(found[1..][..Until(found[1..], '"').value])
  }

  const LONG_MAX := 0x7fff_ffff_ffff_ffff

  datatype Read<T> = Missing | OutOfRange | Found(value: T)

  function ExtractInt(text: string, key: string): Read<int> {
    match Search(text, key, IntKind)
    case None => Missing
    case Some(found) =>
      var digits := found[..IntMatch(found).value];
      MatchStands(found);
      if -LONG_MAX - 1 <= IntOf(digits) <= LONG_MAX then Found(IntOf(digits)) else OutOfRange
  }

  lemma MatchStands(text: string)
    requires IntMatch(text).Some?
    ensures IntMatch(text).value <= |text|
    ensures IntMatch(text[..IntMatch(text).value]) == Some(IntMatch(text).value)
  {
    var sign := if text[0] == '-' then 1 else 0;
    var run := DigitRun(text[sign..]);
    var matched := text[..sign + run];
    assert matched[sign..] == text[sign..][..run];
    DigitRunStops(matched[sign..], "");
    assert matched[sign..] + "" == matched[sign..];
  }

  function ExtractBool(text: string, key: string): Option<bool> {
    match Search(text, key, BoolKind)
    case None => None
    case Some(found) => Some(StartsWith(found, "true"))
  }

  /** Every match of `-?[0-9]+`, from left to right. */
  function NumbersIn(body: string): (r: Read<seq<int>>)
    decreases |body|
  {
    if body == "" then Found([])
    else if IntMatch(body).None? then NumbersIn(body[1..])
    else
      var n := IntMatch(body).value;
      MatchStands(body);
      if !(-LONG_MAX - 1 <= IntOf(body[..n]) <= LONG_MAX) then OutOfRange
      else
        match NumbersIn(body[n..])
        case Found(rest) => Found([IntOf(body[..n])] + rest)
        case other => other
  }

  function ExtractShape(text: string): Read<seq<int>> {
    match Search(text, "shape", ShapeKind)
    case None => Missing
    case Some(found) => NumbersIn(found[1..][..Until(found[1..], ']').value])
  }

  // ----- text in which a name cannot start

  predicate WordChar(c: char) {
    'a' <= c <= 'z' || c == '_' || Digit(c)
  }

  predicate Word(s: string) {
    s != "" && forall i | 0 <= i < |s| :: WordChar(s[i])
  }

  /** No place in `pre` starts the quoted name and a colon, whatever follows `pre`. */
  ghost predicate NoStart(pre: string, key: string) {
    forall rest: string, i: nat | i < |pre| :: !StartsWith((pre + rest)[i..], Marker(key))
  }

  lemma {:induction false} SearchSkips(pre: string, rest: string, key: string, kind: Kind)
    requires NoStart(pre, key)
    ensures Search(pre + rest, key, kind) == Search(rest, key, kind)
  {
    if pre == "" {
      assert pre + rest == rest;
    } else {
      var later := pre[1..];
      assert (pre + rest)[1..] == later + rest && (pre + rest)[0..] == pre + rest;
      assert !StartsWith((pre + rest)[0..], Marker(key));
      forall r: string, i: nat | i < |later| ensures !StartsWith((later + r)[i..], Marker(key)) {
        assert (later + r)[i..] == (pre + r)[i + 1..];
        assert !StartsWith((pre + r)[i + 1..], Marker(key));
      }
      SearchSkips(later, rest, key, kind);
    }
  }

  lemma NoStartJoin(a: string, b: string, key: string)
    requires NoStart(a, key) && NoStart(b, key)
    ensures NoStart(a + b, key)
  {
    forall rest: string, i: nat | i < |a + b| ensures !StartsWith((a + b + rest)[i..], Marker(key)) {
      if i < |a| {
        assert a + b + rest == a + (b + rest);
        assert !StartsWith((a + (b + rest))[i..], Marker(key));
      } else {
        assert (a + b + rest)[i..] == (b + rest)[i - |a|..];
        assert !StartsWith((b + rest)[i - |a|..], Marker(key));
      }
    }
  }

  lemma NoStartWithoutQuotes(s: string, key: string)
    requires '"' !in s
    ensures NoStart(s, key)
  {
    forall rest: string, i: nat | i < |s| ensures !StartsWith((s + rest)[i..], Marker(key)) {
      assert (s + rest)[i..][0] == s[i];
      assert Marker(key)[0] == '"';
    }
  }

  /** A quoted text and the character behind it, where that character cannot begin the name, and a
      colon follows only another name. */
  lemma NoStartQuoted(q: string, c: char, key: string)
    requires '"' !in q && Word(key) && !WordChar(c) && c != '"' && (c == ':' ==> q != key)
    ensures NoStart("\"" + q + "\"" + [c], key)
  {
    var s, m := "\"" + q + "\"" + [c], Marker(key);
    forall rest: string, i: nat | i < |s| ensures !StartsWith((s + rest)[i..], m) {
      var t := (s + rest)[i..];
      assert t[0] == s[i] && m[0] == '"';
      if i == 0 {
        if StartsWith(t, m) { QuotedNameMatches(q, c, rest, key); }
      } else if i == |q| + 1 {
        assert t[1] == c && m[1] == key[0] && WordChar(key[0]);
        PrefixChars(t, m);
      } else if i <= |q| {
        assert s[i] == q[i - 1];
      }
    }
  }

  lemma PrefixChars(text: string, prefix: string)
    ensures StartsWith(text, prefix) ==> forall k | 0 <= k < |prefix| :: text[k] == prefix[k]
  {
    if StartsWith(text, prefix) {
      assert forall k | 0 <= k < |prefix| :: text[k] == text[..|prefix|][k];
    }
  }

  lemma QuotedNameMatches(q: string, c: char, rest: string, key: string)
    requires '"' !in q && Word(key) && StartsWith(("\"" + q + "\"" + [c] + rest)[0..], Marker(key))
    ensures q == key && c == ':'
  {
    var t, m := "\"" + q + "\"" + [c] + rest, Marker(key);
    assert t[0..] == t;
    PrefixChars(t, m);
    assert forall k | 1 <= k < 1 + |q| :: t[k] == q[k - 1] && t[k] != '"';
    assert forall k | 1 <= k < 1 + |key| :: m[k] == key[k - 1] && WordChar(m[k]);
    assert t[1 + |q|] == '"' && m[1 + |key|] == '"';
    assert |key| == |q|;
    assert t[2 + |q|] == c && m[2 + |key|] == ':';
    assert q == t[1..1 + |q|] == m[1..1 + |q|] == key;
  }
}
