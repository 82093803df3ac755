/** Port keys: the `node/port` strings the pipeline description is written in. */
module Ports {

  datatype Option<+T> = None | Some(value: T)

  /** Python's `text.split("/")`. */
  function Split(text: string): (parts: seq<string>)
    ensures |parts| >= 1
  {
    if text == "" then [""]
    else
      var rest := Split(text[1..]);
      if text[0] == '/' then [""] + rest else [[text[0]] + rest[0]] + rest[1..]
  }

  function PortKey(node: string, port: string): string {
    node + "/" + port
  }

  /** `node, port = key.split("/")`: unpacking fails unless there are exactly two parts. */
  function ParseKey(key: string): Option<(string, string)> {
    var parts := Split(key);
    if |parts| == 2 then Some((parts[0], parts[1])) else None
  }

  lemma {:induction false} SplitPlain(text: string)
    ensures '/' !in text <==> |Split(text)| == 1
    ensures '/' !in text ==> Split(text) == [text]
  {
    if text != "" {
      SplitPlain(text[1..]);
      assert text == [text[0]] + text[1..];
    }
  }

  lemma {:induction false} SplitJoin(node: string, port: string)
    ensures Split(PortKey(node, port)) == Split(node) + Split(port)
  {
    if node == "" {
      assert PortKey(node, port)[1..] == port;
    } else {
      SplitJoin(node[1..], port);
      assert PortKey(node, port)[1..] == PortKey(node[1..], port);
    }
  }

  /** A written key is read back as the pair it was written from exactly when neither name holds a
      slash; with a slash anywhere the reader rejects it. */
  lemma KeyRoundTrip(node: string, port: string)
    ensures '/' !in node && '/' !in port ==> ParseKey(PortKey(node, port)) == Some((node, port))
    ensures '/' in node || '/' in port ==> ParseKey(PortKey(node, port)) == None
  {
    SplitJoin(node, port);
    SplitPlain(node);
    SplitPlain(port);
  }

  /** What the reader accepts is the key of the pair it returns. */
  lemma {:induction false} ParsedKeyIsWritten(key: string)
    ensures ParseKey(key).Some? ==> key == PortKey(ParseKey(key).value.0, ParseKey(key).value.1)
  {
    if ParseKey(key).Some? {
      SplitPlain(key[1..]);
      assert key == [key[0]] + key[1..];
      if key[0] != '/' {
        ParsedKeyIsWritten(key[1..]);
      } else {
        assert Split(key[1..]) == [key[1..]];
      }
    }
  }

  /** Keys of slash-free node names never collide, whatever the port names hold. */
  lemma {:induction false} KeyInjective(n: string, p: string, m: string, q: string)
    requires '/' !in n && '/' !in m && PortKey(n, p) == PortKey(m, q)
    ensures n == m && p == q
  {
    assert PortKey(n, p)[0] == if n == "" then '/' else n[0];
    assert PortKey(m, q)[0] == if m == "" then '/' else m[0];
    if n != "" && m != "" {
      assert PortKey(n, p)[1..] == PortKey(n[1..], p) && PortKey(m, q)[1..] == PortKey(m[1..], q);
      KeyInjective(n[1..], p, m[1..], q);
      assert n == [n[0]] + n[1..] && m == [m[0]] + m[1..];
    } else {
      assert PortKey(n, p)[|n| + 1..] == p && PortKey(m, q)[|m| + 1..] == q;
    }
  }
}
