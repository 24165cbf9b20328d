/**
 * `parseNode`: turns one `@import` at-rule into the url it imports and
 * the cascade conditions (`layer`, `supports`, media list) written after
 * the url, or decides that the rule is skipped or malformed.
 */
module ImportParse {
  import opened Wrappers
  import opened JsText
  import opened ValueParser
  import opened CssAst

  /** What `isURLRequestable(url, options)` answers. */
  datatype Requestability = Requestability(requestable: bool, needResolve: bool)

  /**
   * The helpers parseNode calls and whose code is not part of this model:
   * the value parser, `normalizeUrl`, `isURLRequestable` (with the
   * `isSupportAbsoluteURL`, `isSupportDataURL` and `externals` options
   * already applied) and `WEBPACK_IGNORE_COMMENT_REGEXP`, given as the
   * second capture group of its match, if it matches.
   */
  datatype Collaborators = Collaborators(
    tokenize: string -> seq<Token>,
    normalizeUrl: (string, bool) -> string,
    isURLRequestable: string -> Requestability,
    ignoreMarker: string -> Option<string>)

  datatype UriProblem = NoTokens | NotStringOrFunction | NotUrlFunction | EmptyUrl

  /** The errors parseNode throws; AtRule.import turns each into a warning. */
  datatype ParseError = ChildNodesAttached | UnableToFindUri(problem: UriProblem)

  /** The object parseNode returns; `position` locates its at-rule among the root's nodes. */
  datatype ParsedAtRule = ParsedAtRule(
    position: nat,
    prefix: Option<string>,
    url: string,
    layer: Option<string>,
    supports: Option<string>,
    media: Option<string>,
    requestable: bool,
    needResolve: bool)

  /** parseNode returns nothing, throws, or returns a parsed rule. */
  datatype ParseOutcome = Skipped | Failed(error: ParseError) | Parsed(rule: ParsedAtRule)

  // ---------------------------------------------------------------------
  // The leading checks and the url

  /** An ignore marker `true` in the last comment of the text between `@import` and its params. */
  predicate IgnoredByAfterName(afterName: string, env: Collaborators) {
    && |Trim(afterName)| > 0
    && env.ignoreMarker(SliceFrom(afterName, LastIndexOf(afterName, "/*"))) == Some("true")
  }

  /** An ignore marker `true` in a comment that is the at-rule's previous sibling. */
  predicate IgnoredByPrevComment(prev: Option<Node>, env: Collaborators) {
    prev.Some? && prev.value.CommentNode? && env.ignoreMarker(prev.value.text) == Some("true")
  }

  /** The two cases in which parseNode returns nothing. */
  predicate Ignored(rule: ImportRule, parentIsRoot: bool, prev: Option<Node>, env: Collaborators) {
    !parentIsRoot || IgnoredByAfterName(rule.afterName, env) || IgnoredByPrevComment(prev, env)
  }

  function RawParams(rule: ImportRule): string {
    rule.rawParams.GetOr(rule.params)
  }

  function ParamTokens(rule: ImportRule, env: Collaborators): seq<Token> {
    env.tokenize(RawParams(rule))
  }

  /** The first token is a string, or a function named `url` in any letter case. */
  predicate IsUriToken(t: Token) {
    t.Str? || (t.Function? && Lower(t.value) == "url")
  }

  /** The url text held by the first token, and whether it came from a string token. */
  function UrlOfToken(t: Token): (string, bool)
    requires t.Str? || t.Function?
  {
    if t.Str? then (t.value, true)
    else
      var isString := |t.nodes| != 0 && t.nodes[0].Str?;
      (if isString then t.nodes[0].value else Stringify(t.nodes), isString)
  }

  function NormalizedUrl(t: Token, env: Collaborators): string
    requires t.Str? || t.Function?
  {
    var (raw, isString) := UrlOfToken(t);
    env.normalizeUrl(raw, isString)
  }

  /** `url.split('!')`: the last piece becomes the url, the others joined back become the prefix. */
  function SplitPrefix(url: string): (Option<string>, string) {
    var parts := Split(url, '!');
    if |parts| > 1 then (Some(Join(parts[..|parts| - 1], '!')), parts[|parts| - 1])
    else (None, url)
  }

  /** The prefix is everything before the last `!` and the url everything after it. */
  lemma {:induction false} SplitPrefixRoundTrip(url: string)
    ensures var (prefix, rest) := SplitPrefix(url);
      && '!' !in rest
      && (prefix.Some? <==> '!' in url)
      && (prefix.Some? ==> prefix.value + "!" + rest == url)
      && (prefix.None? ==> rest == url)
  {
    var parts := Split(url, '!');
    if |parts| > 1 {
      JoinSplit(url, '!');
      JoinLast(parts, '!');
    }
  }

  /** Splitting `prefix!url`, for a url without `!`, gives back the prefix and the url. */
  lemma SplitPrefixOfJoined(prefix: string, url: string)
    requires '!' !in url
    ensures SplitPrefix(prefix + "!" + url) == (Some(prefix), url)
  {
    var s := prefix + "!" + url;
    assert s[|prefix|] == '!';
    SplitPrefixRoundTrip(s);
    LastSeparatorUnique(SplitPrefix(s).0.value, SplitPrefix(s).1, prefix, url, '!');
  }

  /** The url and prefix once a requestable url that needs resolving has had its `!` prefix split off. */
  function UrlAndPrefix(normalized: string, req: Requestability): (Option<string>, string) {
    if req.requestable && req.needResolve then SplitPrefix(normalized) else (None, normalized)
  }

  // ---------------------------------------------------------------------
  // The trailing tokens: layer, supports, media

  datatype ConditionKind = LayerCondition | SupportsCondition

  datatype ImportConditions = ImportConditions(layer: Option<string>, supports: Option<string>, media: Option<string>)

  function Field(c: ImportConditions, kind: ConditionKind): Option<string> {
    if kind == LayerCondition then c.layer else c.supports
  }

  /** `layer`, `layer(...)` and `supports(...)` close the buffer; every other token joins it. */
  function CloserKind(t: Token): Option<ConditionKind> {
    if (t.Function? || t.Word?) && Lower(t.value) == "layer" then Some(LayerCondition)
    else if t.Function? && Lower(t.value) == "supports" then Some(SupportsCondition)
    else None
  }

  /** What a closer is replaced by in the buffer: a function's inner nodes, or an empty string node for the bare word. */
  function Replacement(t: Token): seq<Token> {
    if t.Function? then t.nodes else [Str("", "", false)]
  }

  /** `.trim().toLowerCase()`. */
  function Normalize(s: string): string {
    Lower(Trim(s))
  }

  /** The working buffer and the two values set so far. */
  datatype ScanState = ScanState(buffer: seq<Token>, layer: Option<string>, supports: Option<string>)

  function Step(s: ScanState, t: Token): ScanState {
    match CloserKind(t)
    case None => s.(buffer := s.buffer + [t])
    case Some(kind) =>
      var v := Some(Normalize(Stringify(s.buffer + Replacement(t))));
      if kind == LayerCondition then ScanState([], v, s.supports) else ScanState([], s.layer, v)
  }

  /** The state after the scan has read all of `ts`. */
  function Scan(ts: seq<Token>): ScanState
    decreases |ts|
  {
    if ts == [] then ScanState([], None, None) else Step(Scan(ts[..|ts| - 1]), ts[|ts| - 1])
  }

  /** The conditions read from the tokens after the url; a non-empty buffer at the end is the media list. */
  function Conditions(ts: seq<Token>): ImportConditions {
    var s := Scan(ts);
    ImportConditions(s.layer, s.supports, if |s.buffer| > 0 then Some(Normalize(Stringify(s.buffer))) else None)
  }

  /** The scan of parseNode, as the loop the source runs over the trailing tokens. */
  method ScanConditions(ts: seq<Token>) returns (c: ImportConditions)
    ensures c == Conditions(ts)
  {
    var layer: Option<string> := None;
    var supports: Option<string> := None;
    var media: Option<string> := None;
    if |ts| > 0 {
      var nodes: seq<Token> := [];
      for i := 0 to |ts|
        invariant Scan(ts[..i]) == ScanState(nodes, layer, supports)
      {
        var node := ts[i];
        ScanSnoc(ts, i);
        ghost var before := ScanState(nodes, layer, supports);
        nodes := nodes + [node];
        assert nodes[..|nodes| - 1] == before.buffer;
        var isLayerFunction := node.Function? && Lower(node.value) == "layer";
        var isLayerWord := node.Word? && Lower(node.value) == "layer";
        if isLayerFunction || isLayerWord {
          if isLayerFunction {
            nodes := nodes[..|nodes| - 1] + node.nodes;
          } else {
            nodes := nodes[..|nodes| - 1] + [Str("", "", false)];
          }
          layer := Some(Normalize(Stringify(nodes)));
          nodes := [];
        } else if node.Function? && Lower(node.value) == "supports" {
          nodes := nodes[..|nodes| - 1] + node.nodes;
          supports := Some(Normalize(Stringify(nodes)));
          nodes := [];
        }
      }
      assert ts[..|ts|] == ts;
      if |nodes| > 0 {
        media := Some(Normalize(Stringify(nodes)));
      }
    }
    c := ImportConditions(layer, supports, media);
  }

  /** Where the buffer starts: just after the last closer, or at 0 when there is none. */
  function Since(ts: seq<Token>): (k: nat)
    ensures k <= |ts|
    decreases |ts|
  {
    if ts == [] then 0
    else if CloserKind(ts[|ts| - 1]).Some? then |ts|
    else Since(ts[..|ts| - 1])
  }

  /** The buffer holds exactly the tokens after the last closer. */
  lemma {:induction false} BufferSinceLastCloser(ts: seq<Token>)
    ensures Scan(ts).buffer == ts[Since(ts)..]
    ensures forall j :: Since(ts) <= j < |ts| ==> CloserKind(ts[j]).None?
    ensures Since(ts) > 0 ==> CloserKind(ts[Since(ts) - 1]).Some?
    decreases |ts|
  {
    if ts != [] {
      var init := ts[..|ts| - 1];
      BufferSinceLastCloser(init);
      assert ts == init + [ts[|ts| - 1]];
      BufferSnoc(init, ts[|ts| - 1]);
    }
  }

  /** One token more keeps the buffer equal to the tokens since the last closer. */
  lemma BufferSnoc(init: seq<Token>, t: Token)
    requires Scan(init).buffer == init[Since(init)..]
    requires forall j :: Since(init) <= j < |init| ==> CloserKind(init[j]).None?
    requires Since(init) > 0 ==> CloserKind(init[Since(init) - 1]).Some?
    ensures var ts := init + [t];
      && Scan(ts).buffer == ts[Since(ts)..]
      && (forall j :: Since(ts) <= j < |ts| ==> CloserKind(ts[j]).None?)
      && (Since(ts) > 0 ==> CloserKind(ts[Since(ts) - 1]).Some?)
  {
    if CloserKind(t).None? {
      BufferStepPlain(init, t);
      PlainTail(init, t, Since(init));
    } else {
      BufferStepCloser(init, t);
      assert (init + [t])[|init|] == t;
    }
  }

  /** A plain token joins the buffer and keeps where it starts. */
  lemma BufferStepPlain(init: seq<Token>, t: Token)
    requires CloserKind(t).None?
    requires Scan(init).buffer == init[Since(init)..]
    ensures Since(init + [t]) == Since(init)
    ensures Scan(init + [t]).buffer == (init + [t])[Since(init)..]
  {
    var ts := init + [t];
    assert ts[..|ts| - 1] == init;
    assert Scan(ts) == Step(Scan(init), t);
    StepBuffer(Scan(init), t);
    assert init[Since(init)..] + [t] == ts[Since(init)..];
  }

  /** The tokens since the last closer stay plain when a plain token joins them. */
  lemma PlainTail(init: seq<Token>, t: Token, k: nat)
    requires k <= |init| && CloserKind(t).None?
    requires forall j :: k <= j < |init| ==> CloserKind(init[j]).None?
    requires k > 0 ==> CloserKind(init[k - 1]).Some?
    ensures forall j :: k <= j < |init| + 1 ==> CloserKind((init + [t])[j]).None?
    ensures k > 0 ==> CloserKind((init + [t])[k - 1]).Some?
  {
    forall j | k <= j < |init| + 1 ensures CloserKind((init + [t])[j]).None? {
      if j < |init| { assert (init + [t])[j] == init[j]; }
    }
    if k > 0 { assert (init + [t])[k - 1] == init[k - 1]; }
  }

  /** A closer empties the buffer, which then starts after it. */
  lemma BufferStepCloser(init: seq<Token>, t: Token)
    requires CloserKind(t).Some?
    ensures Since(init + [t]) == |init| + 1 && Scan(init + [t]).buffer == []
  {
    var ts := init + [t];
    assert ts[..|ts| - 1] == init;
    assert Since(ts) == |ts|;
    assert Scan(ts) == Step(Scan(init), t);
    StepBuffer(Scan(init), t);
  }

  /**
   * The value of `layer` (or `supports`) comes from the last closer of that kind:
   * the buffer since the closer before it, with the closer replaced by its
   * inner nodes, stringified, trimmed and lower-cased. Earlier ones are overwritten.
   */
  lemma {:induction false} ConditionFromLastCloser(ts: seq<Token>, k: nat, kind: ConditionKind)
    requires k < |ts| && CloserKind(ts[k]) == Some(kind)
    requires forall j :: k < j < |ts| ==> CloserKind(ts[j]) != Some(kind)
    ensures Field(Conditions(ts), kind) == Some(Normalize(Stringify(ts[Since(ts[..k])..k] + Replacement(ts[k]))))
    decreases |ts|
  {
    if k == |ts| - 1 {
      LastTokenCloses(ts, kind);
    } else {
      var init := ts[..|ts| - 1];
      assert Scan(ts) == Step(Scan(init), ts[|ts| - 1]);
      assert init[..k] == ts[..k];
      forall j | k < j < |init| ensures CloserKind(init[j]) != Some(kind) {
        assert init[j] == ts[j];
      }
      ConditionFromLastCloser(init, k, kind);
      StepKeepsField(Scan(init), ts[|ts| - 1], kind);
    }
  }

  /** A closer at the end sets its kind's field from the tokens since the closer before it. */
  lemma LastTokenCloses(ts: seq<Token>, kind: ConditionKind)
    requires |ts| > 0 && CloserKind(ts[|ts| - 1]) == Some(kind)
    ensures Field(Conditions(ts), kind)
         == Some(Normalize(Stringify(ts[Since(ts[..|ts| - 1])..|ts| - 1] + Replacement(ts[|ts| - 1]))))
  {
    var init := ts[..|ts| - 1];
    assert Scan(ts) == Step(Scan(init), ts[|ts| - 1]);
    BufferSinceLastCloser(init);
    assert ts[Since(init)..|ts| - 1] == init[Since(init)..];
    StepCloses(Scan(init), ts[|ts| - 1], kind);
  }

  /** The buffer grows by a plain token and is emptied by a closer. */
  lemma StepBuffer(s: ScanState, t: Token)
    ensures Step(s, t).buffer == if CloserKind(t).None? then s.buffer + [t] else []
  {
  }

  /** A closer of a kind sets that kind's field from the buffer. */
  lemma StepCloses(s: ScanState, t: Token, kind: ConditionKind)
    requires CloserKind(t) == Some(kind)
    ensures Field(ImportConditions(Step(s, t).layer, Step(s, t).supports, None), kind)
         == Some(Normalize(Stringify(s.buffer + Replacement(t))))
  {
  }

  /** A token that is not a closer of a kind leaves that kind's field alone. */
  lemma StepKeepsField(s: ScanState, t: Token, kind: ConditionKind)
    requires CloserKind(t) != Some(kind)
    ensures Field(ImportConditions(Step(s, t).layer, Step(s, t).supports, None), kind)
         == Field(ImportConditions(s.layer, s.supports, None), kind)
  {
  }

  /** Without a closer of a kind, its field stays undefined. */
  lemma {:induction false} ConditionUnset(ts: seq<Token>, kind: ConditionKind)
    requires forall j :: 0 <= j < |ts| ==> CloserKind(ts[j]) != Some(kind)
    ensures Field(Conditions(ts), kind) == None
    decreases |ts|
  {
    if ts != [] {
      var init := ts[..|ts| - 1];
      forall j | 0 <= j < |init| ensures CloserKind(init[j]) != Some(kind) {
        assert init[j] == ts[j];
      }
      ConditionUnset(init, kind);
    }
  }

  /** The media list is the text of the tokens after the last closer, if there are any. */
  lemma MediaIsTrailingTokens(ts: seq<Token>)
    ensures Conditions(ts).media == if Since(ts) == |ts| then None else Some(Normalize(Stringify(ts[Since(ts)..])))
  {
    BufferSinceLastCloser(ts);
  }

  /** `@import url(x.css) layer;` puts the rule in the anonymous layer. */
  lemma BareLayerExample()
    ensures Conditions([Space(" "), Word("layer")]) == ImportConditions(Some(""), None, None)
  {
    ScanTwo(Space(" "), Word("layer"));
    LayerWordStep();
  }

  lemma ScanTwo(a: Token, b: Token)
    ensures Scan([a, b]) == Step(Step(ScanState([], None, None), a), b)
  {
    assert [a][..0] == [];
    assert Scan([a]) == Step(ScanState([], None, None), a);
    assert [a, b][..1] == [a];
  }

  lemma LayerWordStep()
    ensures Step(ScanState([Space(" ")], None, None), Word("layer")) == ScanState([], Some(""), None)
  {
    LayerWordCloses();
    EmptyLayerText();
    StepCloser(ScanState([Space(" ")], None, None), Word("layer"), LayerCondition, "");
  }

  /** A closer step, given the normalised text of the buffer with the closer's replacement. */
  lemma StepCloser(s: ScanState, t: Token, kind: ConditionKind, v: string)
    requires CloserKind(t) == Some(kind) && Normalize(Stringify(s.buffer + Replacement(t))) == v
    ensures Step(s, t) == if kind == LayerCondition then ScanState([], Some(v), s.supports) else ScanState([], s.layer, Some(v))
  {
  }

  lemma LayerWordCloses()
    ensures CloserKind(Word("layer")) == Some(LayerCondition)
  {
    LowerUnchanged("layer");
  }

  lemma EmptyLayerText()
    ensures Normalize(Stringify([Space(" ")] + Replacement(Word("layer")))) == ""
  {
    var ts := [Space(" "), Str("", "", false)];
    assert [Space(" ")] + Replacement(Word("layer")) == ts;
    assert ts[1..][1..] == [];
    assert Stringify(ts[1..]) == "";
    assert Stringify(ts) == " ";
    assert Trim(" ") == "";
    LowerUnchanged("");
  }

  /** `@import url(x.css) layer(foo);` names the layer. */
  lemma LayerFunctionExample()
    ensures Conditions([Space(" "), Function("layer", "", [Word("foo")], "", false)]) == ImportConditions(Some("foo"), None, None)
  {
    var ts := [Space(" "), Function("layer", "", [Word("foo")], "", false)];
    LowerUnchanged("layer");
    assert Scan(ts[..1]) == ScanState([Space(" ")], None, None) by {
      assert ts[..1][..0] == [];
    }
    assert ts[..1] == ts[..|ts| - 1];
    FooText();
  }

  lemma FooText()
    ensures Normalize(Stringify([Space(" ")] + [Word("foo")])) == "foo"
  {
    var ts := [Space(" ")] + [Word("foo")];
    assert ts[1..] == [Word("foo")];
    assert Stringify(ts[1..]) == "foo";
    assert Stringify(ts) == " " + "foo" + "";
    NormalizePadded(" ", "foo", "");
  }

  /** `@import url(x.css) supports(display: flex) screen;` */
  lemma SupportsAndMediaExample()
    ensures Conditions([Space(" "), Function("supports", "", [Word("display"), Div("", ":", " "), Word("flex")], "", false),
                        Space(" "), Word("screen")])
         == ImportConditions(None, Some("display: flex"), Some("screen"))
  {
    var supports := Function("supports", "", [Word("display"), Div("", ":", " "), Word("flex")], "", false);
    ScanFour(Space(" "), supports, Space(" "), Word("screen"));
    assert Step(ScanState([], None, None), Space(" ")) == ScanState([Space(" ")], None, None);
    SupportsStep();
    assert Step(ScanState([], None, Some("display: flex")), Space(" ")) == ScanState([Space(" ")], None, Some("display: flex"));
    ScreenIsPlain();
    ScreenText();
  }

  /** Four tokens read one at a time from the initial state. */
  lemma ScanFour(a: Token, b: Token, c: Token, d: Token)
    ensures Scan([a, b, c, d]) == Step(Step(Step(Step(ScanState([], None, None), a), b), c), d)
  {
    assert [a][..0] == [];
    assert Scan([a]) == Step(ScanState([], None, None), a);
    assert [a, b][..1] == [a];
    assert Scan([a, b]) == Step(Scan([a]), b);
    assert [a, b, c][..2] == [a, b];
    assert Scan([a, b, c]) == Step(Scan([a, b]), c);
    assert [a, b, c, d][..3] == [a, b, c];
  }

  lemma SupportsStep()
    ensures Step(ScanState([Space(" ")], None, None), Function("supports", "", [Word("display"), Div("", ":", " "), Word("flex")], "", false))
         == ScanState([], None, Some("display: flex"))
  {
    var supports := Function("supports", "", [Word("display"), Div("", ":", " "), Word("flex")], "", false);
    assert CloserKind(supports) == Some(SupportsCondition) by {
      LowerUnchanged("layer");
      LowerUnchanged("supports");
      assert Lower("supports") != "layer";
    }
    DisplayFlexText();
    StepCloser(ScanState([Space(" ")], None, None), supports, SupportsCondition, "display: flex");
  }

  /** One more token read by the scan. */
  lemma ScanSnoc(ts: seq<Token>, k: nat)
    requires k < |ts|
    ensures Scan(ts[..k + 1]) == Step(Scan(ts[..k]), ts[k])
  {
    assert ts[..k + 1][..k] == ts[..k];
  }

  lemma DisplayFlexText()
    ensures Normalize(Stringify([Space(" ")] + [Word("display"), Div("", ":", " "), Word("flex")])) == "display: flex"
  {
    var inner := [Word("display"), Div("", ":", " "), Word("flex")];
    assert Stringify(inner[2..]) == "flex";
    assert Stringify(inner[1..]) == ": flex";
    assert Stringify(inner) == "display: flex";
    assert ([Space(" ")] + inner)[1..] == inner;
    assert Stringify([Space(" ")] + inner) == " " + "display: flex" + "";
    NormalizePadded(" ", "display: flex", "");
  }

  lemma ScreenIsPlain()
    ensures CloserKind(Word("screen")) == None
  {
    LowerUnchanged("screen");
  }

  lemma ScreenText()
    ensures Normalize(Stringify([Space(" "), Word("screen")])) == "screen"
  {
    var ts := [Space(" "), Word("screen")];
    assert Stringify(ts[1..]) == "screen";
    assert Stringify(ts) == " " + "screen" + "";
    NormalizePadded(" ", "screen", "");
  }

  /** `@import url(x.css) screen layer;`: the media text before a bare `layer` becomes the layer name. */
  lemma MediaBeforeLayerExample()
    ensures Conditions([Space(" "), Word("screen"), Space(" "), Word("layer")]) == ImportConditions(Some("screen"), None, None)
  {
    ScanFour(Space(" "), Word("screen"), Space(" "), Word("layer"));
    assert Step(ScanState([], None, None), Space(" ")) == ScanState([Space(" ")], None, None);
    ScreenIsPlain();
    assert Step(ScanState([Space(" ")], None, None), Word("screen")) == ScanState([Space(" "), Word("screen")], None, None);
    assert Step(ScanState([Space(" "), Word("screen")], None, None), Space(" "))
        == ScanState([Space(" "), Word("screen"), Space(" ")], None, None);
    LayerWordCloses();
    ScreenLayerText();
    StepCloser(ScanState([Space(" "), Word("screen"), Space(" ")], None, None), Word("layer"), LayerCondition, "screen");
  }

  lemma ScreenLayerText()
    ensures Normalize(Stringify([Space(" "), Word("screen"), Space(" ")] + Replacement(Word("layer")))) == "screen"
  {
    StringifyAppend([Space(" "), Word("screen"), Space(" ")], [Str("", "", false)]);
    assert Stringify([Str("", "", false)]) == "";
    var ts := [Space(" "), Word("screen"), Space(" ")];
    assert Stringify(ts[2..]) == " ";
    assert Stringify(ts[1..]) == "screen ";
    assert Stringify(ts) + Stringify([Str("", "", false)]) == " " + "screen" + " ";
    NormalizePadded(" ", "screen", " ");
  }

  /** Normalising a lower-case word between white space gives the word. */
  lemma NormalizePadded(before: string, w: string, after: string)
    requires AllSpace(before) && AllSpace(after)
    requires w != [] && !IsSpace(w[0]) && !IsSpace(w[|w| - 1])
    requires forall i :: 0 <= i < |w| ==> !('A' <= w[i] <= 'Z')
    ensures Normalize(before + w + after) == w
  {
    TrimPadded(before, w, after);
    LowerUnchanged(w);
  }

  /** Trimming white space around a word with non-space ends gives the word. */
  lemma TrimPadded(before: string, w: string, after: string)
    requires AllSpace(before) && AllSpace(after)
    requires w != [] && !IsSpace(w[0]) && !IsSpace(w[|w| - 1])
    ensures Trim(before + w + after) == w
  {
    assert (w + after)[0] == w[0];
    TrimStartPadded(before, w + after);
    assert before + w + after == before + (w + after);
    TrimEndPadded(w, after);
  }

  lemma {:induction false} TrimStartPadded(before: string, rest: string)
    requires AllSpace(before) && rest != [] && !IsSpace(rest[0])
    ensures TrimStart(before + rest) == rest
    decreases |before|
  {
    if before != [] {
      assert (before + rest)[1..] == before[1..] + rest;
      TrimStartPadded(before[1..], rest);
    } else {
      assert before + rest == rest;
    }
  }

  lemma {:induction false} TrimEndPadded(w: string, after: string)
    requires AllSpace(after) && w != [] && !IsSpace(w[|w| - 1])
    ensures TrimEnd(w + after) == w
    decreases |after|
  {
    if after != [] {
      assert (w + after)[..|w + after| - 1] == w + after[..|after| - 1];
      TrimEndPadded(w, after[..|after| - 1]);
    } else {
      assert w + after == w;
    }
  }

  /** Lower-casing text without capital letters leaves it as it is. */
  lemma LowerUnchanged(s: string)
    requires forall i :: 0 <= i < |s| ==> !('A' <= s[i] <= 'Z')
    ensures Lower(s) == s
  {
  }

  // ---------------------------------------------------------------------
  // parseNode

  /** The checks of parseNode up to the empty-url test, in the source's order. */
  function ParseHead(rule: ImportRule, parentIsRoot: bool, prev: Option<Node>, env: Collaborators): ParseOutcome {
    if Ignored(rule, parentIsRoot, prev, env) then Skipped
    else if rule.block.Block? then Failed(ChildNodesAttached)
    else
      var ts := ParamTokens(rule, env);
      if |ts| == 0 then Failed(UnableToFindUri(NoTokens))
      else if !(ts[0].Str? || ts[0].Function?) then Failed(UnableToFindUri(NotStringOrFunction))
      else if !IsUriToken(ts[0]) then Failed(UnableToFindUri(NotUrlFunction))
      else
        var normalized := NormalizedUrl(ts[0], env);
        var req := env.isURLRequestable(normalized);
        var (prefix, url) := UrlAndPrefix(normalized, req);
        if |Trim(url)| == 0 then Failed(UnableToFindUri(EmptyUrl))
        else Parsed(ParsedAtRule(0, prefix, url, None, None, None, req.requestable, req.needResolve))
  }

  /** parseNode for the at-rule at `position` of the root, as a function of its inputs. */
  function Classify(rule: ImportRule, parentIsRoot: bool, prev: Option<Node>, position: nat, env: Collaborators): (r: ParseOutcome)
    ensures r.Parsed? ==> r.rule.position == position
  {
    match ParseHead(rule, parentIsRoot, prev, env)
    case Skipped => Skipped
    case Failed(e) => Failed(e)
    case Parsed(p) =>
      var c := Conditions(ParamTokens(rule, env)[1..]);
      Parsed(p.(position := position, layer := c.layer, supports := c.supports, media := c.media))
  }

    /** parseNode skips exactly the ignored rules and fails on a block exactly when the rule is not skipped. */
  lemma ClassifySkipsAndBlocks(rule: ImportRule, parentIsRoot: bool, prev: Option<Node>, position: nat, env: Collaborators)
    ensures var r := Classify(rule, parentIsRoot, prev, position, env);
      && (r.Skipped? <==> Ignored(rule, parentIsRoot, prev, env))
      && (r == Failed(ChildNodesAttached) <==> !Ignored(rule, parentIsRoot, prev, env) && rule.block.Block?)
  {
  }

  /** Which "Unable to find uri" case parseNode reports, by the first parameter token. */
  lemma ClassifyUriErrors(rule: ImportRule, parentIsRoot: bool, prev: Option<Node>, position: nat, env: Collaborators)
    requires var r := Classify(rule, parentIsRoot, prev, position, env); r.Failed? && r.error.UnableToFindUri?
    ensures var r := Classify(rule, parentIsRoot, prev, position, env);
      && !rule.block.Block?
      && (r.error.problem == NoTokens <==> |ParamTokens(rule, env)| == 0)
      && (r.error.problem == NotStringOrFunction <==>
            |ParamTokens(rule, env)| > 0 && !(ParamTokens(rule, env)[0].Str? || ParamTokens(rule, env)[0].Function?))
      && (r.error.problem == NotUrlFunction <==>
            |ParamTokens(rule, env)| > 0 && ParamTokens(rule, env)[0].Function? && !IsUriToken(ParamTokens(rule, env)[0]))
  {
  }

  /** What holds of every rule parseNode returns: a top-level rule without a block whose first token is a url. */
  lemma ClassifyParsed(rule: ImportRule, parentIsRoot: bool, prev: Option<Node>, position: nat, env: Collaborators)
    requires Classify(rule, parentIsRoot, prev, position, env).Parsed?
    ensures var r := Classify(rule, parentIsRoot, prev, position, env);
      && parentIsRoot && !rule.block.Block?
      && |ParamTokens(rule, env)| > 0 && IsUriToken(ParamTokens(rule, env)[0])
      && !AllSpace(r.rule.url)
      && (r.rule.prefix.Some? ==> r.rule.requestable && r.rule.needResolve)
      && ImportConditions(r.rule.layer, r.rule.supports, r.rule.media) == Conditions(ParamTokens(rule, env)[1..])
  {
  }

  /** A parsed rule's url and prefix put back together give the normalised url. */
  lemma ClassifyUrlRoundTrip(rule: ImportRule, parentIsRoot: bool, prev: Option<Node>, position: nat, env: Collaborators)
    requires Classify(rule, parentIsRoot, prev, position, env).Parsed?
    ensures var p := Classify(rule, parentIsRoot, prev, position, env).rule;
      var normalized := NormalizedUrl(ParamTokens(rule, env)[0], env);
      && (p.prefix.Some? <==> p.requestable && p.needResolve && '!' in normalized)
      && (p.prefix.Some? ==> p.prefix.value + "!" + p.url == normalized && '!' !in p.url)
      && (p.prefix.None? ==> p.url == normalized)
  {
    SplitPrefixRoundTrip(NormalizedUrl(ParamTokens(rule, env)[0], env));
  }

  /** A url that is empty or all white space once the prefix is split off makes parseNode throw. */
  lemma EmptyUrlFails(rule: ImportRule, parentIsRoot: bool, prev: Option<Node>, position: nat, env: Collaborators)
    requires !Ignored(rule, parentIsRoot, prev, env) && !rule.block.Block?
    requires var ts := ParamTokens(rule, env); |ts| > 0 && IsUriToken(ts[0])
    requires var normalized := NormalizedUrl(ParamTokens(rule, env)[0], env);
      AllSpace(UrlAndPrefix(normalized, env.isURLRequestable(normalized)).1)
    ensures Classify(rule, parentIsRoot, prev, position, env) == Failed(UnableToFindUri(EmptyUrl))
  {
  }

  /** parseNode: the checks, then the loop over the trailing tokens. */
  method ParseNode(rule: ImportRule, parentIsRoot: bool, prev: Option<Node>, position: nat, env: Collaborators)
    returns (r: ParseOutcome)
    ensures r == Classify(rule, parentIsRoot, prev, position, env)
  {
    r := ParseHead(rule, parentIsRoot, prev, env);
    if r.Parsed? {
      var c := ScanConditions(ParamTokens(rule, env)[1..]);
      r := Parsed(r.rule.(position := position, layer := c.layer, supports := c.supports, media := c.media));
    }
  }
}
