/**
 * The plugin as PostCSS drives it: one `ImportParser` per processed
 * stylesheet holds the tree and the state the three stages share
 * (`Once`, the `AtRule.import` visitor and `OnceExit`).
 */
module ImportPlugin {
  import opened Wrappers
  import opened JsText
  import opened CssAst
  import opened MpxComments
  import opened ImportParse
  import opened ImportResolution

  // ---------------------------------------------------------------------
  // What the visitor collects

  /** The node before `root[i]`, as `atRule.prev()` returns it. */
  function Prev(root: seq<Node>, i: nat): (p: Option<Node>)
    requires i < |root|
    ensures p.None? <==> i == 0
    ensures p.Some? ==> p.value == root[i - 1]
  {
    if i == 0 then None else Some(root[i - 1])
  }

  /** What parseNode makes of the top-level node `root[i]`; nodes other than `@import` are never visited. */
  function VisitOutcome(root: seq<Node>, i: nat, env: Collaborators): ParseOutcome
    requires i < |root|
  {
    if root[i].ImportAtRule? then Classify(root[i].rule, true, Prev(root, i), i, env) else Skipped
  }

  /** `parsedAtRules` and the warnings added to the result. */
  datatype Collected = Collected(parsed: seq<ParsedAtRule>, warnings: seq<ParseError>)

  /** One visit: a thrown error becomes a warning, a parsed rule is pushed, nothing else changes. */
  function Gather(c: Collected, o: ParseOutcome): Collected {
    match o
    case Skipped => c
    case Failed(e) => c.(warnings := c.warnings + [e])
    case Parsed(p) => c.(parsed := c.parsed + [p])
  }

  /** What parseNode makes of each top-level node. */
  function Outcomes(root: seq<Node>, env: Collaborators): (os: seq<ParseOutcome>)
    ensures |os| == |root|
  {
    OutcomesUpTo(root, env, |root|)
  }

  /** What parseNode makes of the first `n` top-level nodes. */
  function OutcomesUpTo(root: seq<Node>, env: Collaborators, n: nat): (os: seq<ParseOutcome>)
    requires n <= |root|
    ensures |os| == n
    decreases n
  {
    if n == 0 then [] else OutcomesUpTo(root, env, n - 1) + [VisitOutcome(root, n - 1, env)]
  }

  /** The outcome recorded for `root[i]` is its visit. */
  lemma {:induction false} OutcomeAt(root: seq<Node>, env: Collaborators, n: nat, i: nat)
    requires i < n <= |root|
    ensures OutcomesUpTo(root, env, n)[i] == VisitOutcome(root, i, env)
    decreases n
  {
    if i < n - 1 {
      OutcomeAt(root, env, n - 1, i);
      OutcomesKeep(root, env, n, i);
    }
  }

  /** Adding a visit leaves the earlier outcomes as they were. */
  lemma OutcomesKeep(root: seq<Node>, env: Collaborators, n: nat, i: nat)
    requires i < n - 1 && n <= |root|
    ensures OutcomesUpTo(root, env, n)[i] == OutcomesUpTo(root, env, n - 1)[i]
  {
    var prev := OutcomesUpTo(root, env, n - 1);
    assert OutcomesUpTo(root, env, n)[..n - 1] == prev;
  }

  /** Each parsed outcome carries its own index as its position. */
  predicate PositionsMatch(os: seq<ParseOutcome>) {
    forall i :: 0 <= i < |os| && os[i].Parsed? ==> os[i].rule.position == i
  }

  /** parseNode only accepts `@import` nodes and records where each one is. */
  lemma OutcomesPositions(root: seq<Node>, env: Collaborators)
    ensures PositionsMatch(Outcomes(root, env))
    ensures forall i :: 0 <= i < |root| && Outcomes(root, env)[i].Parsed? ==> root[i].ImportAtRule?
  {
    forall i | 0 <= i < |root|
      ensures Outcomes(root, env)[i] == VisitOutcome(root, i, env)
    {
      OutcomeAt(root, env, |root|, i);
    }
  }

  /** `c` with earlier rules and warnings put in front. */
  function Prepend(parsed: seq<ParsedAtRule>, warnings: seq<ParseError>, c: Collected): Collected {
    Collected(parsed + c.parsed, warnings + c.warnings)
  }

  /** Gathering after earlier entries is gathering from nothing, then putting those entries first. */
  lemma GatherAfter(parsed: seq<ParsedAtRule>, warnings: seq<ParseError>, c: Collected, o: ParseOutcome)
    ensures Gather(Prepend(parsed, warnings, c), o) == Prepend(parsed, warnings, Gather(c, o))
  {
    match o
    case Skipped =>
    case Failed(e) => assert warnings + c.warnings + [e] == warnings + (c.warnings + [e]);
    case Parsed(p) => assert parsed + c.parsed + [p] == parsed + (c.parsed + [p]);
  }

  /** What the visits of the first `n` nodes collect, starting from nothing. */
  function CollectUpTo(os: seq<ParseOutcome>, n: nat): Collected
    requires n <= |os|
  {
    if n == 0 then Collected([], []) else Gather(CollectUpTo(os, n - 1), os[n - 1])
  }

  /** The `k`-th collected rule is the one parsed at its position, which is before `n`. */
  predicate CollectedAt(os: seq<ParseOutcome>, n: nat, parsed: seq<ParsedAtRule>, k: nat)
    requires n <= |os| && k < |parsed|
  {
    var pos := parsed[k].position;
    pos < n && os[pos] == Parsed(parsed[k])
  }

  predicate CollectInvariant(os: seq<ParseOutcome>, n: nat, parsed: seq<ParsedAtRule>)
    requires n <= |os|
  {
    && (forall k :: 0 <= k < |parsed| ==> CollectedAt(os, n, parsed, k))
    && (forall k, l :: 0 <= k < l < |parsed| ==> parsed[k].position < parsed[l].position)
    && (forall i :: 0 <= i < n && os[i].Parsed? ==> exists k :: 0 <= k < |parsed| && parsed[k].position == i)
  }

  lemma CollectKeep(os: seq<ParseOutcome>, n: nat, parsed: seq<ParsedAtRule>)
    requires 0 < n <= |os| && CollectInvariant(os, n - 1, parsed) && !os[n - 1].Parsed?
    ensures CollectInvariant(os, n, parsed)
  {
    forall k | 0 <= k < |parsed| ensures CollectedAt(os, n, parsed, k) {
      assert CollectedAt(os, n - 1, parsed, k);
    }
  }

  lemma CollectAppend(os: seq<ParseOutcome>, n: nat, parsed: seq<ParsedAtRule>)
    requires 0 < n <= |os| && CollectInvariant(os, n - 1, parsed)
    requires os[n - 1].Parsed? && os[n - 1].rule.position == n - 1
    ensures CollectInvariant(os, n, parsed + [os[n - 1].rule])
  {
    var parsed' := parsed + [os[n - 1].rule];
    forall k | 0 <= k < |parsed'| ensures CollectedAt(os, n, parsed', k) {
      if k < |parsed| {
        assert CollectedAt(os, n - 1, parsed, k);
        assert parsed'[k] == parsed[k];
      }
    }
    forall k, l | 0 <= k < l < |parsed'| ensures parsed'[k].position < parsed'[l].position {
      assert CollectedAt(os, n - 1, parsed, k);
      if l < |parsed| {
        assert parsed'[k] == parsed[k] && parsed'[l] == parsed[l];
      }
    }
    forall i | 0 <= i < n && os[i].Parsed?
      ensures exists k :: 0 <= k < |parsed'| && parsed'[k].position == i
    {
      if i < n - 1 {
        var k :| 0 <= k < |parsed| && parsed[k].position == i;
        assert parsed'[k] == parsed[k];
      } else {
        assert parsed'[|parsed|].position == i;
      }
    }
  }

  /**
   * The collected rules are exactly the parsed outcomes, one each, in
   * order of position, each at its own position.
   */
  lemma {:induction false} CollectSound(os: seq<ParseOutcome>, n: nat)
    requires n <= |os| && PositionsMatch(os)
    ensures CollectInvariant(os, n, CollectUpTo(os, n).parsed)
  {
    if n > 0 {
      CollectSound(os, n - 1);
      var c := CollectUpTo(os, n - 1);
      if os[n - 1].Parsed? {
        assert CollectUpTo(os, n).parsed == c.parsed + [os[n - 1].rule];
        CollectAppend(os, n, c.parsed);
      } else {
        assert CollectUpTo(os, n).parsed == c.parsed;
        CollectKeep(os, n, c.parsed);
      }
    }
  }

  /** The error of a failed outcome, as a list of at most one. */
  function FailureOf(o: ParseOutcome): seq<ParseError> {
    if o.Failed? then [o.error] else []
  }

  /** The errors of the failed outcomes, in order. */
  function FailuresOf(os: seq<ParseOutcome>): seq<ParseError> {
    if os == [] then [] else FailureOf(os[0]) + FailuresOf(os[1..])
  }

  lemma {:induction false} FailuresSnoc(os: seq<ParseOutcome>, o: ParseOutcome)
    ensures FailuresOf(os + [o]) == FailuresOf(os) + FailureOf(o)
  {
    if os == [] {
      assert [] + [o] == [o];
    } else {
      var xs := os + [o];
      assert xs[0] == os[0] && xs[1..] == os[1..] + [o];
      FailuresSnoc(os[1..], o);
      assert FailuresOf(xs) == FailureOf(os[0]) + (FailuresOf(os[1..]) + FailureOf(o));
    }
  }

  /** The warnings are the errors of the failed outcomes, in order: one per failed outcome. */
  lemma WarningsFromFailures(os: seq<ParseOutcome>, n: nat)
    requires n <= |os|
    ensures CollectUpTo(os, n).warnings == FailuresOf(os[..n])
    ensures |CollectUpTo(os, n).warnings| == |set i | 0 <= i < n && os[i].Failed?|
  {
    WarningsInOrder(os, n);
    WarningsCount(os, n);
  }

  lemma {:induction false} WarningsInOrder(os: seq<ParseOutcome>, n: nat)
    requires n <= |os|
    ensures CollectUpTo(os, n).warnings == FailuresOf(os[..n])
  {
    if n > 0 {
      WarningsInOrder(os, n - 1);
      assert os[..n] == os[..n - 1] + [os[n - 1]];
      FailuresSnoc(os[..n - 1], os[n - 1]);
    }
  }

  lemma {:induction false} WarningsCount(os: seq<ParseOutcome>, n: nat)
    requires n <= |os|
    ensures |CollectUpTo(os, n).warnings| == |set i | 0 <= i < n && os[i].Failed?|
  {
    if n > 0 {
      WarningsCount(os, n - 1);
      var c := CollectUpTo(os, n - 1);
      var prev := set i | 0 <= i < n - 1 && os[i].Failed?;
      var now := set i | 0 <= i < n && os[i].Failed?;
      if os[n - 1].Failed? {
        assert CollectUpTo(os, n).warnings == c.warnings + [os[n - 1].error];
        assert now == prev + {n - 1} && n - 1 !in prev;
      } else {
        assert CollectUpTo(os, n).warnings == c.warnings;
        assert now == prev;
      }
    }
  }

  /** An `@import` inside a rule or another at-rule is visited but parseNode returns nothing for it. */
  lemma NestedImportSkipped(rule: ImportRule, prev: Option<Node>, position: nat, env: Collaborators)
    ensures Classify(rule, false, prev, position, env) == Skipped
  {
  }

  // ---------------------------------------------------------------------
  // Counting `@import` rules for the style-sheet error

  /** The number of `@import` at-rules in a node, itself and the nodes of any block included. */
  function NodeImports(n: Node): nat
    decreases n
  {
    match n
    case ImportAtRule(rule) =>
      (match rule.block
       case Block(ns) => 1 + ImportsIn(ns)
       case NoBlock => 1)
    case Container(ns) => ImportsIn(ns)
    case _ => 0
  }

  /** The number of `@import` at-rules in a list of nodes, at any depth. */
  function ImportsIn(ns: seq<Node>): nat
    decreases ns
  {
    if ns == [] then 0 else ImportsIn(ns[..|ns| - 1]) + NodeImports(ns[|ns| - 1])
  }

  /** `@import url(a) { @import "b"; }` holds two `@import` rules, so a style sheet reports two errors. */
  lemma NestedInBlockCounted(a: string, b: string)
    ensures NodeImports(ImportAtRule(ImportRule(a, None, "", Block([ImportAtRule(ImportRule(b, None, "", NoBlock))])))) == 2
  {
    var inner := ImportAtRule(ImportRule(b, None, "", NoBlock));
    assert [inner][..0] == [];
    assert ImportsIn([inner]) == 1;
  }

  lemma ImportsInSnoc(ns: seq<Node>, i: nat)
    requires i < |ns|
    ensures ImportsIn(ns[..i + 1]) == ImportsIn(ns[..i]) + NodeImports(ns[i])
  {
    assert ns[..i + 1][..i] == ns[..i];
  }

  // ---------------------------------------------------------------------
  // What `OnceExit` removes

  /** The positions of the at-rules whose resolution removes them, among `ps[..n]`. */
  function RemovedUpTo(ps: seq<ParsedAtRule>, ctx: ResolveContext, n: nat): set<nat>
    requires n <= |ps|
  {
    if n == 0 then {}
    else RemovedUpTo(ps, ctx, n - 1) + (if ResolveOne(ps[n - 1], ctx).removesNode then {ps[n - 1].position} else {})
  }

  lemma {:induction false} RemovedAreParsed(ps: seq<ParsedAtRule>, ctx: ResolveContext, n: nat, p: nat)
    requires n <= |ps| && p in RemovedUpTo(ps, ctx, n)
    ensures exists i :: 0 <= i < n && ps[i].position == p && ResolveOne(ps[i], ctx).removesNode
  {
    if p !in RemovedUpTo(ps, ctx, n - 1) {
      assert ps[n - 1].position == p;
    } else {
      RemovedAreParsed(ps, ctx, n - 1, p);
      var i :| 0 <= i < n - 1 && ps[i].position == p && ResolveOne(ps[i], ctx).removesNode;
    }
  }

  /**
   * Only nodes that were top-level `@import`s accepted by parseNode are
   * ever removed, and each is removed unless the filter dropped it or the
   * resolver found nothing for it.
   */
  lemma OnlyImportsRemoved(root: seq<Node>, env: Collaborators, ctx: ResolveContext, p: nat)
    requires var ps := CollectUpTo(Outcomes(root, env), |root|).parsed; p in RemovedUpTo(ps, ctx, |ps|)
    ensures p < |root| && root[p].ImportAtRule? && VisitOutcome(root, p, env).Parsed?
    ensures var r := VisitOutcome(root, p, env).rule;
      !FilteredOut(r, ctx) && !Unresolved(r, ctx)
  {
    var os := Outcomes(root, env);
    var ps := CollectUpTo(os, |root|).parsed;
    RemovedAreParsed(ps, ctx, |ps|, p);
    var i :| 0 <= i < |ps| && ps[i].position == p && ResolveOne(ps[i], ctx).removesNode;
    OutcomesPositions(root, env);
    CollectSound(os, |root|);
    assert CollectedAt(os, |root|, ps, i);
    OutcomeAt(root, env, |root|, p);
  }

  /** The value each parsed at-rule contributes to `resolvedAtRules`. */
  function ResolvedValues(ps: seq<ParsedAtRule>, ctx: ResolveContext): (rs: seq<Option<ResolvedAtRule>>)
    ensures |rs| == |ps|
  {
    seq(|ps|, i requires 0 <= i < |ps| => ResolveOne(ps[i], ctx).result)
  }

  // ---------------------------------------------------------------------
  // The plugin instance

  class ImportParser {
    const env: Collaborators
    const ctx: ResolveContext
    /** `options.urlHandler`, applied to each import's request. */
    const urlHandler: string -> string
    /** `options.isCSSStyleSheet`: `@import` is an error in this stylesheet. */
    const isCSSStyleSheet: bool

    /** The top-level nodes of the stylesheet. */
    var root: seq<Node>
    var parsedAtRules: seq<ParsedAtRule>
    /** Warnings added to the PostCSS result. */
    var warnings: seq<ParseError>
    /** Errors emitted through the loader context. */
    var errors: nat
    /** Positions in `root` of the at-rules taken out of the stylesheet. */
    var removed: set<nat>
    /** `options.imports` and `options.api`, shared with the loader. */
    var imports: seq<ImportRecord>
    var api: seq<ApiRecord>

    constructor (root: seq<Node>, env: Collaborators, ctx: ResolveContext, urlHandler: string -> string,
                 isCSSStyleSheet: bool, imports: seq<ImportRecord>, api: seq<ApiRecord>)
      ensures this.root == root && this.env == env && this.ctx == ctx
      ensures this.urlHandler == urlHandler && this.isCSSStyleSheet == isCSSStyleSheet
      ensures this.imports == imports && this.api == api
      ensures parsedAtRules == [] && warnings == [] && errors == 0 && removed == {}
    {
      this.root := root;
      this.env := env;
      this.ctx := ctx;
      this.urlHandler := urlHandler;
      this.isCSSStyleSheet := isCSSStyleSheet;
      this.imports := imports;
      this.api := api;
      parsedAtRules := [];
      warnings := [];
      errors := 0;
      removed := {};
    }

    /** `Once`: every `@mpx-import` comment is replaced by the `@import` it names. */
    method Once()
      modifies this`root
      ensures root == RewriteAll(old(root))
    {
      var i := 0;
      while i < |root|
        invariant 0 <= i <= |root| == |old(root)|
        invariant forall j :: 0 <= j < i ==> root[j] == RewriteNode(old(root)[j])
        invariant forall j :: i <= j < |root| ==> root[j] == old(root)[j]
      {
        root := root[i := RewriteNode(root[i])];
        i := i + 1;
      }
    }

    /** `AtRule.import` for the top-level `@import` at `root[i]`. */
    method AtRuleImport(i: nat)
      requires i < |root| && root[i].ImportAtRule?
      modifies this`errors, this`parsedAtRules, this`warnings
      ensures isCSSStyleSheet ==>
        errors == old(errors) + 1 && parsedAtRules == old(parsedAtRules) && warnings == old(warnings)
      ensures !isCSSStyleSheet ==>
        && errors == old(errors)
        && Collected(parsedAtRules, warnings) == Gather(Collected(old(parsedAtRules), old(warnings)), VisitOutcome(root, i, env))
    {
      if isCSSStyleSheet {
        errors := errors + 1;
        return;
      }
      var outcome := ParseNode(root[i].rule, true, Prev(root, i), i, env);
      match outcome
      case Skipped =>
      case Failed(e) => warnings := warnings + [e];
      case Parsed(p) => parsedAtRules := parsedAtRules + [p];
    }

    /**
     * The visits PostCSS makes within `root[i]`. Nested `@import`s raise
     * the style-sheet error too; otherwise parseNode skips them.
     */
    method VisitNode(i: nat)
      requires i < |root|
      modifies this`errors, this`parsedAtRules, this`warnings
      ensures isCSSStyleSheet ==>
        errors == old(errors) + NodeImports(root[i]) && parsedAtRules == old(parsedAtRules) && warnings == old(warnings)
      ensures !isCSSStyleSheet ==>
        && errors == old(errors)
        && Collected(parsedAtRules, warnings) == Gather(Collected(old(parsedAtRules), old(warnings)), Outcomes(root, env)[i])
    {
      if isCSSStyleSheet {
        ReportNode(i);
      } else {
        OutcomeAt(root, env, |root|, i);
        if root[i].ImportAtRule? {
          AtRuleImport(i);
        }
      }
    }

    /** In a style sheet, every `@import` within `root[i]`, itself and the nodes of its block included, raises the error. */
    method ReportNode(i: nat)
      requires i < |root| && isCSSStyleSheet
      modifies this`errors, this`parsedAtRules, this`warnings
      ensures errors == old(errors) + NodeImports(root[i]) && parsedAtRules == old(parsedAtRules) && warnings == old(warnings)
    {
      if root[i].ImportAtRule? {
        AtRuleImport(i);
        if root[i].rule.block.Block? {
          errors := errors + ImportsIn(root[i].rule.block.nodes);
        }
      } else if root[i].Container? {
        errors := errors + ImportsIn(root[i].nodes);
      }
    }

    /** The visits of every `@import` in the tree, in document order. */
    method VisitImports()
      modifies this`errors, this`parsedAtRules, this`warnings
      ensures isCSSStyleSheet ==>
        errors == old(errors) + ImportsIn(root) && parsedAtRules == old(parsedAtRules) && warnings == old(warnings)
      ensures !isCSSStyleSheet ==>
        && errors == old(errors)
        && parsedAtRules == old(parsedAtRules) + CollectUpTo(Outcomes(root, env), |root|).parsed
        && warnings == old(warnings) + CollectUpTo(Outcomes(root, env), |root|).warnings
    {
      if isCSSStyleSheet {
        ReportImports();
      } else {
        CollectImports();
        assert Collected(parsedAtRules, warnings)
            == Prepend(old(parsedAtRules), old(warnings), CollectUpTo(Outcomes(root, env), |root|));
      }
    }

    /** The visits in a stylesheet where `@import` is not allowed: one error each. */
    method ReportImports()
      requires isCSSStyleSheet
      modifies this`errors, this`parsedAtRules, this`warnings
      ensures errors == old(errors) + ImportsIn(root)
      ensures parsedAtRules == old(parsedAtRules) && warnings == old(warnings)
    {
      var i := 0;
      while i < |root|
        invariant 0 <= i <= |root|
        invariant errors == old(errors) + ImportsIn(root[..i])
        invariant parsedAtRules == old(parsedAtRules) && warnings == old(warnings)
      {
        ImportsInSnoc(root, i);
        VisitNode(i);
        i := i + 1;
      }
      assert root[..|root|] == root;
    }

    /** The visits in any other stylesheet: parseNode on each top-level `@import`. */
    method CollectImports()
      requires !isCSSStyleSheet
      modifies this`errors, this`parsedAtRules, this`warnings
      ensures errors == old(errors)
      ensures Collected(parsedAtRules, warnings) == Prepend(old(parsedAtRules), old(warnings), CollectUpTo(Outcomes(root, env), |root|))
    {
      ghost var os := Outcomes(root, env);
      ghost var collected := Collected([], []);
      var i := 0;
      while i < |root|
        invariant 0 <= i <= |root|
        invariant collected == CollectUpTo(os, i)
        invariant errors == old(errors)
        invariant Collected(parsedAtRules, warnings) == Prepend(old(parsedAtRules), old(warnings), collected)
      {
        CollectNode(i, old(parsedAtRules), old(warnings), collected);
        collected := Gather(collected, os[i]);
        i := i + 1;
      }
    }

    /** The visit of `root[i]` after those of `root[..i]` collected `collected` on top of `parsed` and `warns`. */
    method CollectNode(i: nat, ghost parsed: seq<ParsedAtRule>, ghost warns: seq<ParseError>, ghost collected: Collected)
      requires !isCSSStyleSheet && i < |root|
      requires Collected(parsedAtRules, warnings) == Prepend(parsed, warns, collected)
      modifies this`errors, this`parsedAtRules, this`warnings
      ensures errors == old(errors)
      ensures Collected(parsedAtRules, warnings) == Prepend(parsed, warns, Gather(collected, Outcomes(root, env)[i]))
    {
      GatherAfter(parsed, warns, collected, Outcomes(root, env)[i]);
      VisitNode(i);
    }

    /** The `Promise.all` over `parsedAtRules`: resolve each, removing its node where the source does. */
    method ResolveAll() returns (resolved: seq<Option<ResolvedAtRule>>)
      modifies this`removed
      ensures resolved == ResolvedValues(parsedAtRules, ctx)
      ensures removed == old(removed) + RemovedUpTo(parsedAtRules, ctx, |parsedAtRules|)
    {
      resolved := [];
      var i := 0;
      while i < |parsedAtRules|
        invariant 0 <= i <= |parsedAtRules|
        invariant resolved == ResolvedValues(parsedAtRules, ctx)[..i]
        invariant removed == old(removed) + RemovedUpTo(parsedAtRules, ctx, i)
      {
        var outcome := ResolveOne(parsedAtRules[i], ctx);
        if outcome.removesNode {
          removed := removed + {parsedAtRules[i].position};
        }
        resolved := resolved + [outcome.result];
        i := i + 1;
      }
    }

    /** The loop over `resolvedAtRules` that pushes import and api records. */
    method EmitAll(resolved: seq<Option<ResolvedAtRule>>)
      modifies this`imports, this`api
      ensures imports == old(imports) + EmitUpTo(resolved, |resolved|, urlHandler).imports
      ensures api == old(api) + EmitUpTo(resolved, |resolved|, urlHandler).api
    {
      var urlToNameMap: map<string, string> := map[];
      var index := 0;
      while index < |resolved|
        invariant 0 <= index <= |resolved|
        invariant urlToNameMap == EmitUpTo(resolved, index, urlHandler).names
        invariant imports == old(imports) + EmitUpTo(resolved, index, urlHandler).imports
        invariant api == old(api) + EmitUpTo(resolved, index, urlHandler).api
      {
        if resolved[index].Some? {
          var r := resolved[index].value;
          if !r.requestable {
            api := api + [UrlApi(r.url, r.layer, r.supports, r.media, index)];
          } else {
            var newUrl := Key(r);
            if newUrl !in urlToNameMap {
              var importName := ImportName(|urlToNameMap|);
              urlToNameMap := urlToNameMap[newUrl := importName];
              imports := imports + [ImportRecord(importName, urlHandler(newUrl), index)];
              api := api + [NamedApi(importName, r.layer, r.supports, r.media, index)];
            }
          }
        }
        index := index + 1;
      }
    }

    /** `OnceExit`: nothing to do without parsed rules; otherwise resolve, then emit. */
    method OnceExit()
      modifies this`removed, this`imports, this`api
      ensures parsedAtRules == [] ==> removed == old(removed) && imports == old(imports) && api == old(api)
      ensures removed == old(removed) + RemovedUpTo(parsedAtRules, ctx, |parsedAtRules|)
      ensures var rs := ResolvedValues(parsedAtRules, ctx);
        imports == old(imports) + EmitUpTo(rs, |rs|, urlHandler).imports
        && api == old(api) + EmitUpTo(rs, |rs|, urlHandler).api
    {
      if |parsedAtRules| == 0 {
        return;
      }
      var resolved := ResolveAll();
      EmitAll(resolved);
    }

    /** The three stages on a fresh instance, in the order PostCSS runs them. */
    method Run()
      requires parsedAtRules == [] && warnings == []
      modifies this
      ensures root == RewriteAll(old(root))
      ensures isCSSStyleSheet ==>
        errors == old(errors) + ImportsIn(root) && parsedAtRules == [] && warnings == []
      ensures !isCSSStyleSheet ==>
        errors == old(errors) && Collected(parsedAtRules, warnings) == CollectUpTo(Outcomes(root, env), |root|)
      ensures removed == old(removed) + RemovedUpTo(parsedAtRules, ctx, |parsedAtRules|)
      ensures var rs := ResolvedValues(parsedAtRules, ctx);
        imports == old(imports) + EmitUpTo(rs, |rs|, urlHandler).imports
        && api == old(api) + EmitUpTo(rs, |rs|, urlHandler).api
    {
      Once();
      VisitImports();
      OnceExit();
    }
  }
}
