/**
 * The node tree of `postcss-value-parser` and its `stringify`.
 * The parser itself (text to tokens) is a collaborator of the import
 * parser and is passed in; `stringify` is modelled here because the
 * import parser's results are built from it.
 */
module ValueParser {

  datatype Token =
    | Word(value: string)
    | Str(quote: string, value: string, unclosed: bool)
    | Space(value: string)
    | Div(before: string, value: string, after: string)
    | Comment(value: string, unclosed: bool)
    | Function(value: string, before: string, nodes: seq<Token>, after: string, unclosed: bool)
    | UnicodeRange(value: string)

  /** `valueParser.stringify(nodes)`: each node's text, concatenated. */
  function Stringify(ts: seq<Token>): string
    decreases ts
  {
    if ts == [] then "" else StringifyNode(ts[0]) + Stringify(ts[1..])
  }

  /** The text of one node; a string node without a quote prints only its value. */
  function StringifyNode(t: Token): string
    decreases t
  {
    match t
    case Word(v) => v
    case Space(v) => v
    case UnicodeRange(v) => v
    case Str(q, v, unclosed) => q + v + (if unclosed then "" else q)
    case Comment(v, unclosed) => "/*" + v + (if unclosed then "" else "*/")
    case Div(b, v, a) => b + v + a
    case Function(name, b, nodes, a, unclosed) =>
      name + "(" + b + Stringify(nodes) + a + (if unclosed then "" else ")")
  }

  /** Stringify distributes over concatenation of node lists. */
  lemma {:induction false} StringifyAppend(a: seq<Token>, b: seq<Token>)
    ensures Stringify(a + b) == Stringify(a) + Stringify(b)
    decreases |a|
  {
    if a != [] {
      assert (a + b)[0] == a[0] && (a + b)[1..] == a[1..] + b;
      StringifyAppend(a[1..], b);
    } else {
      assert a + b == b;
    }
  }
}
