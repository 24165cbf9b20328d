/**
 * The `Once` pass: a comment `/* @mpx-import "x.css" */` becomes the
 * at-rule `@import "x.css"` at the comment's place, so that imports
 * written as comments survive tools that drop at-rules.
 */
module MpxComments {
  import opened Wrappers
  import opened JsText
  import opened CssAst

  const Marker: string := "@mpx-import"

  /** `/^(@mpx-import\s+)/` matches the comment text. */
  predicate HasMarker(text: string) {
    |text| > |Marker| && text[..|Marker|] == Marker && IsSpace(text[|Marker|])
  }

  /** The text with the match of `/^(@mpx-import\s+)/` removed; `\s+` is greedy. */
  function StripMarker(text: string): (r: string)
    requires HasMarker(text)
    ensures r == [] || !IsSpace(r[0])
    ensures |r| <= |text| - |Marker| && text == Marker + text[|Marker|..|text| - |r|] + r
    ensures AllSpace(text[|Marker|..|text| - |r|])
  {
    var rest := text[|Marker|..];
    var r := TrimStart(rest);
    assert text == text[..|Marker|] + rest;
    assert rest == rest[..|rest| - |r|] + r;
    assert text[|Marker|..|text| - |r|] == rest[..|rest| - |r|];
    r
  }

  predicate IsQuote(c: char) {
    c == '"' || c == '\''
  }

  /**
   * `/(["'].+["'])/` can match `s[i..j + 1]`: a quote at each end, at least
   * one character between them, and no line terminator (which `.` does not match).
   */
  predicate QuotedSpan(s: string, i: nat, j: nat) {
    && i + 2 <= j < |s|
    && IsQuote(s[i]) && IsQuote(s[j])
    && forall k :: i < k < j ==> !IsLineTerminator(s[k])
  }

  /** The first line terminator at or after `from`, or the end of `s`. */
  function LineEnd(s: string, from: nat): (e: nat)
    requires from <= |s|
    ensures from <= e <= |s|
    ensures forall k :: from <= k < e ==> !IsLineTerminator(s[k])
    ensures e == |s| || IsLineTerminator(s[e])
    decreases |s| - from
  {
    if from == |s| || IsLineTerminator(s[from]) then from else LineEnd(s, from + 1)
  }

  /** The last quote in `s[lo..hi]`. */
  function LastQuoteIn(s: string, lo: nat, hi: nat): (j: Option<nat>)
    requires hi <= |s|
    ensures j.Some? ==> lo <= j.value < hi && IsQuote(s[j.value]) && forall k :: j.value < k < hi ==> !IsQuote(s[k])
    ensures j.None? ==> forall k :: lo <= k < hi ==> !IsQuote(s[k])
    decreases hi
  {
    if hi <= lo then None
    else if IsQuote(s[hi - 1]) then Some(hi - 1)
    else LastQuoteIn(s, lo, hi - 1)
  }

  /** Where a match starting at `i` ends: greedy `.+` backs off to the last quote on the line. */
  function MatchEndAt(s: string, i: nat): (j: Option<nat>)
    requires i < |s|
    ensures j.Some? ==> QuotedSpan(s, i, j.value) && forall k: nat :: j.value < k < |s| ==> !QuotedSpan(s, i, k)
    ensures j.None? ==> forall k: nat :: !QuotedSpan(s, i, k)
  {
    if !IsQuote(s[i]) then None
    else
      var e := LineEnd(s, i + 1);
      var j := LastQuoteIn(s, i + 2, e);
      assert forall k: nat :: QuotedSpan(s, i, k) ==> k < e;
      j
  }

  /** The leftmost match at or after `from`, as the bounds of its first and last character. */
  function FirstMatchFrom(s: string, from: nat): (m: Option<(nat, nat)>)
    requires from <= |s|
    ensures m.Some? ==> from <= m.value.0 && QuotedSpan(s, m.value.0, m.value.1)
    ensures m.Some? ==> forall k: nat :: m.value.1 < k < |s| ==> !QuotedSpan(s, m.value.0, k)
    ensures forall i: nat, k: nat :: from <= i && (m.None? || i < m.value.0) ==> !QuotedSpan(s, i, k)
    decreases |s| - from
  {
    if from == |s| then None
    else match MatchEndAt(s, from)
      case Some(j) => Some((from, j))
      case None => FirstMatchFrom(s, from + 1)
  }

  /** `s[i..j + 1]` is a quoted span, no span starts before `i` and none from `i` ends after `j`. */
  ghost predicate LeftmostLongest(s: string, i: nat, j: nat) {
    && QuotedSpan(s, i, j)
    && (forall i': nat, k: nat :: i' < i ==> !QuotedSpan(s, i', k))
    && (forall k: nat :: j < k < |s| ==> !QuotedSpan(s, i, k))
  }

  /**
   * `importStatement.match(/(["'].+["'])/)`: the leftmost quoted span,
   * extended to the last quote on its line.
   */
  function FirstQuoted(s: string): (q: Option<string>)
    ensures q.None? <==> forall i: nat, k: nat :: !QuotedSpan(s, i, k)
    ensures q.Some? ==> exists i: nat, j: nat :: LeftmostLongest(s, i, j) && q.value == s[i..j + 1]
  {
    match FirstMatchFrom(s, 0)
    case Some((i, j)) =>
      assert LeftmostLongest(s, i, j);
      Some(s[i..j + 1])
    case None => None
  }

  /** The params of the `@import` a comment turns into, if it turns into one. */
  function ImportParams(text: string): Option<string> {
    if HasMarker(text) then FirstQuoted(StripMarker(text)) else None
  }

  /** The at-rule the pass puts in place of a comment: no raws and no block. */
  function ImportFromParams(params: string): Node {
    ImportAtRule(ImportRule(params, None, "", NoBlock))
  }

  /**
   * `walkComments` visits every comment, at any depth, the block of an
   * `@import` included; a matching one is replaced in place.
   */
  function RewriteNode(n: Node): Node
    decreases n
  {
    match n
    case CommentNode(text) =>
      (match ImportParams(text)
       case Some(p) => ImportFromParams(p)
       case None => n)
    case Container(ns) => Container(RewriteAll(ns))
    case ImportAtRule(rule) =>
      (match rule.block
       case Block(ns) => ImportAtRule(rule.(block := Block(RewriteAll(ns))))
       case NoBlock => n)
    case OtherNode => n
  }

  /** Rewriting a list of siblings keeps their number and order. */
  function RewriteAll(ns: seq<Node>): (r: seq<Node>)
    ensures |r| == |ns|
    ensures forall i :: 0 <= i < |ns| ==> r[i] == RewriteNode(ns[i])
    decreases ns
  {
    if ns == [] then [] else [RewriteNode(ns[0])] + RewriteAll(ns[1..])
  }

  /**
   * A comment is replaced exactly when it starts with the marker and what
   * follows holds a quoted span; the new at-rule's params is that span,
   * quotes included. An `@import` keeps everything but its block, whose
   * children are rewritten; one without a block, and any other node that
   * has no children, is left as it is.
   */
  lemma CommentRewrite(n: Node)
    ensures n.CommentNode? && HasMarker(n.text) && FirstQuoted(StripMarker(n.text)).Some? ==>
      RewriteNode(n) == ImportFromParams(FirstQuoted(StripMarker(n.text)).value)
    ensures n.CommentNode? && !HasMarker(n.text) ==> RewriteNode(n) == n
    ensures n.CommentNode? && HasMarker(n.text) && (forall i: nat, k: nat :: !QuotedSpan(StripMarker(n.text), i, k)) ==> RewriteNode(n) == n
    ensures n.ImportAtRule? && n.rule.block.Block? ==>
      RewriteNode(n) == ImportAtRule(n.rule.(block := Block(RewriteAll(n.rule.block.nodes))))
    ensures n.ImportAtRule? && n.rule.block.NoBlock? ==> RewriteNode(n) == n
    ensures n.OtherNode? ==> RewriteNode(n) == n
  {
  }

  /** Running the pass a second time changes nothing. */
  lemma {:induction false} RewriteIdempotent(n: Node)
    ensures RewriteNode(RewriteNode(n)) == RewriteNode(n)
    decreases n
  {
    match n
    case Container(ns) => RewriteAllIdempotent(ns);
    case ImportAtRule(rule) =>
      if rule.block.Block? {
        RewriteAllIdempotent(rule.block.nodes);
      }
    case _ =>
  }

  lemma {:induction false} RewriteAllIdempotent(ns: seq<Node>)
    ensures RewriteAll(RewriteAll(ns)) == RewriteAll(ns)
    decreases ns
  {
    forall i | 0 <= i < |ns| ensures RewriteNode(RewriteNode(ns[i])) == RewriteNode(ns[i]) {
      RewriteIdempotent(ns[i]);
    }
  }

  lemma StripExample()
    ensures StripMarker("@mpx-import \"a.css\"") == "\"a.css\""
  {
    var text := "@mpx-import \"a.css\"";
    var rest := text[|Marker|..];
    assert rest == " \"a.css\"";
    assert TrimStart(rest[1..]) == rest[1..];
  }

  lemma QuotedExample()
    ensures FirstQuoted("\"a.css\"") == Some("\"a.css\"")
  {
    var s := "\"a.css\"";
    assert LineEnd(s, 7) == 7;
    assert LineEnd(s, 1) == 7;
    assert LastQuoteIn(s, 2, 7) == Some(6);
    assert s[0..7] == s;
  }

  /** `/* @mpx-import "a.css" */` becomes `@import "a.css"`. */
  lemma MarkedCommentExample()
    ensures RewriteNode(CommentNode("@mpx-import \"a.css\"")) == ImportFromParams("\"a.css\"")
  {
    var text := "@mpx-import \"a.css\"";
    assert text[..|Marker|] == Marker;
    StripExample();
    QuotedExample();
  }
}
