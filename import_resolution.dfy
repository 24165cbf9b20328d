/**
 * The `OnceExit` stage: each parsed `@import` is filtered, resolved and
 * taken out of the stylesheet, then the survivors become import records
 * (one per distinct request) and api records (in source order).
 */
module ImportResolution {
  import opened Wrappers
  import opened JsText
  import opened ImportParse

  // ---------------------------------------------------------------------
  // Resolution of one parsed at-rule

  /** `options.filter(url, media, resourcePath, supports, layer)`; its result is read for truthiness. */
  type FilterFn = (string, Option<string>, string, Option<string>, Option<string>) -> bool

  /**
   * What resolution depends on. `resolve` stands for resolving the request
   * `requestify(url)` and then `url` against the loader's context; `None`
   * is a resolver that yields nothing.
   */
  datatype ResolveContext = ResolveContext(
    filter: Option<FilterFn>,
    resolve: string -> Option<string>,
    resourcePath: string)

  /** The object a kept at-rule resolves to. */
  datatype ResolvedAtRule = ResolvedAtRule(
    url: string,
    layer: Option<string>,
    supports: Option<string>,
    media: Option<string>,
    prefix: Option<string>,
    requestable: bool)

  /** The value one at-rule contributes to `resolvedAtRules`, and whether its node was removed. */
  datatype Outcome = Outcome(result: Option<ResolvedAtRule>, removesNode: bool)

  /** A string is truthy when it is present and not empty. */
  predicate Truthy(s: Option<string>) {
    s.Some? && s.value != ""
  }

  /** The filter is configured and says not to keep the at-rule. */
  predicate FilteredOut(p: ParsedAtRule, ctx: ResolveContext) {
    ctx.filter.Some? && !ctx.filter.value(p.url, p.media, ctx.resourcePath, p.supports, p.layer)
  }

  /** The at-rule needs resolving and the resolver finds nothing. */
  predicate Unresolved(p: ParsedAtRule, ctx: ResolveContext) {
    p.needResolve && !Truthy(ctx.resolve(p.url))
  }

  /** The at-rule resolves to the stylesheet that contains it. */
  predicate SelfImport(p: ParsedAtRule, ctx: ResolveContext) {
    p.needResolve && Truthy(ctx.resolve(p.url)) && ctx.resolve(p.url).value == ctx.resourcePath
  }

  function ResolveOne(p: ParsedAtRule, ctx: ResolveContext): (o: Outcome)
    // A filtered or unresolved at-rule stays in the stylesheet; every other one is removed.
    ensures !o.removesNode <==> FilteredOut(p, ctx) || (!FilteredOut(p, ctx) && Unresolved(p, ctx))
    // Only at-rules that are kept, resolved and not self-imports produce a value.
    ensures o.result.None? <==> FilteredOut(p, ctx) || Unresolved(p, ctx) || SelfImport(p, ctx)
    ensures o.result.Some? ==> o.removesNode
    // Conditions, prefix and requestability are carried over unchanged.
    ensures o.result.Some? ==>
      var r := o.result.value;
      && r.layer == p.layer && r.supports == p.supports && r.media == p.media
      && r.prefix == p.prefix && r.requestable == p.requestable
    // The url is the resolved path when resolution is needed, and the parsed url otherwise.
    ensures o.result.Some? && p.needResolve ==>
      o.result.value.url == ctx.resolve(p.url).value && o.result.value.url != ctx.resourcePath
    ensures o.result.Some? && !p.needResolve ==> o.result.value.url == p.url
  {
    if FilteredOut(p, ctx) then Outcome(None, false)
    else if p.needResolve then
      var resolved := ctx.resolve(p.url);
      if !Truthy(resolved) then Outcome(None, false)
      else if resolved.value == ctx.resourcePath then Outcome(None, true)
      else Outcome(Some(ResolvedAtRule(resolved.value, p.layer, p.supports, p.media, p.prefix, p.requestable)), true)
    else Outcome(Some(ResolvedAtRule(p.url, p.layer, p.supports, p.media, p.prefix, p.requestable)), true)
  }

  // ---------------------------------------------------------------------
  // Import and api records

  datatype ImportRecord = ImportRecord(importName: string, url: string, index: nat)

  datatype ApiRecord =
    | UrlApi(url: string, layer: Option<string>, supports: Option<string>, media: Option<string>, index: nat)
    | NamedApi(importName: string, layer: Option<string>, supports: Option<string>, media: Option<string>, index: nat)

  /** The request an at-rule is imported as: `prefix!url` when the prefix is a non-empty string. */
  function Key(r: ResolvedAtRule): string {
    if Truthy(r.prefix) then r.prefix.value + "!" + r.url else r.url
  }

  /**
   * For a url without `!`, splitting the request at its last `!` gives
   * back the truthy prefix and the url, so the request names them both.
   */
  lemma KeyRoundTrip(r: ResolvedAtRule)
    requires '!' !in r.url
    ensures Truthy(r.prefix) ==> SplitPrefix(Key(r)) == (r.prefix, r.url)
    ensures !Truthy(r.prefix) ==> SplitPrefix(Key(r)) == (None, r.url)
  {
    if Truthy(r.prefix) {
      SplitPrefixOfJoined(r.prefix.value, r.url);
    }
  }

  /** Two at-rules with urls without `!` share a request exactly when they share the url and the truthy prefix. */
  lemma KeyInjective(r1: ResolvedAtRule, r2: ResolvedAtRule)
    requires '!' !in r1.url && '!' !in r2.url
    ensures Key(r1) == Key(r2) <==>
      r1.url == r2.url && Truthy(r1.prefix) == Truthy(r2.prefix) && (Truthy(r1.prefix) ==> r1.prefix == r2.prefix)
  {
    KeyRoundTrip(r1);
    KeyRoundTrip(r2);
  }

  const NamePrefix: string := "___CSS_LOADER_AT_RULE_IMPORT_"
  const NameSuffix: string := "___"

  /** The name of the `n`-th distinct request. */
  function ImportName(n: nat): string {
    NamePrefix + Decimal(n) + NameSuffix
  }

  /** Different requests get different names. */
  lemma ImportNameInjective(a: nat, b: nat)
    ensures ImportName(a) == ImportName(b) <==> a == b
  {
    if ImportName(a) == ImportName(b) {
      var na, nb := ImportName(a), ImportName(b);
      assert Decimal(a) == na[|NamePrefix|..|na| - |NameSuffix|];
      assert Decimal(b) == nb[|NamePrefix|..|nb| - |NameSuffix|];
      DecimalInjective(a, b);
    }
  }

  /** The map from request to name, and the records pushed so far. */
  datatype Emission = Emission(names: map<string, string>, imports: seq<ImportRecord>, api: seq<ApiRecord>)

  /** One turn of the emission loop, for the value at `index`. */
  function EmitStep(e: Emission, index: nat, v: Option<ResolvedAtRule>, urlHandler: string -> string): Emission {
    match v
    case None => e
    case Some(r) =>
      if !r.requestable then
        e.(api := e.api + [UrlApi(r.url, r.layer, r.supports, r.media, index)])
      else if Key(r) in e.names then e
      else
        var name := ImportName(|e.names|);
        Emission(
          e.names[Key(r) := name],
          e.imports + [ImportRecord(name, urlHandler(Key(r)), index)],
          e.api + [NamedApi(name, r.layer, r.supports, r.media, index)])
  }

  /** The state after the loop has handled `rs[..n]`. */
  function EmitUpTo(rs: seq<Option<ResolvedAtRule>>, n: nat, urlHandler: string -> string): Emission
    requires n <= |rs|
  {
    if n == 0 then Emission(map[], [], [])
    else EmitStep(EmitUpTo(rs, n - 1, urlHandler), n - 1, rs[n - 1], urlHandler)
  }

  // ---------------------------------------------------------------------
  // The reference definition: first occurrences of each request

  /** `rs[i]` is kept and requestable, so it goes through the name map. */
  predicate Named(rs: seq<Option<ResolvedAtRule>>, i: nat)
    requires i < |rs|
  {
    rs[i].Some? && rs[i].value.requestable
  }

  /** The requests of the named values before `n`. */
  function KeysBefore(rs: seq<Option<ResolvedAtRule>>, n: nat): set<string>
    requires n <= |rs|
  {
    set i | 0 <= i < n && Named(rs, i) :: Key(rs[i].value)
  }

  /** `rs[i]` is the first value with its request. */
  predicate FirstOccurrence(rs: seq<Option<ResolvedAtRule>>, i: nat)
    requires i < |rs|
  {
    Named(rs, i) && Key(rs[i].value) !in KeysBefore(rs, i)
  }

  /** `rs[i]` yields an api record: it is kept and either not requestable or a first occurrence. */
  predicate ProducesApi(rs: seq<Option<ResolvedAtRule>>, i: nat)
    requires i < |rs|
  {
    rs[i].Some? && (!rs[i].value.requestable || FirstOccurrence(rs, i))
  }

  lemma KeysBeforeNext(rs: seq<Option<ResolvedAtRule>>, n: nat)
    requires n < |rs|
    ensures KeysBefore(rs, n + 1) == KeysBefore(rs, n) + (if Named(rs, n) then {Key(rs[n].value)} else {})
  {
    var s := if Named(rs, n) then {Key(rs[n].value)} else {};
    forall k | k in KeysBefore(rs, n + 1) ensures k in KeysBefore(rs, n) + s {
      var i :| 0 <= i < n + 1 && Named(rs, i) && k == Key(rs[i].value);
      if i < n { assert k in KeysBefore(rs, n); }
    }
    forall k | k in KeysBefore(rs, n) + s ensures k in KeysBefore(rs, n + 1) {
      if k in KeysBefore(rs, n) {
        var i :| 0 <= i < n && Named(rs, i) && k == Key(rs[i].value);
        assert 0 <= i < n + 1;
      } else {
        assert Named(rs, n) && k == Key(rs[n].value);
      }
    }
  }

  // ---------------------------------------------------------------------
  // What the loop maintains

  /** The `k`-th import record is for a first occurrence before `n`, under the `k`-th name. */
  predicate ImportAt(rs: seq<Option<ResolvedAtRule>>, n: nat, urlHandler: string -> string, e: Emission, k: nat)
    requires n <= |rs| && k < |e.imports|
  {
    var idx := e.imports[k].index;
    && idx < n && FirstOccurrence(rs, idx)
    && e.imports[k].importName == ImportName(k)
    && e.imports[k].url == urlHandler(Key(rs[idx].value))
    && Key(rs[idx].value) in e.names
    && e.names[Key(rs[idx].value)] == ImportName(k)
  }

  /** Import records appear in the order of the values they come from. */
  predicate ImportsOrdered(e: Emission) {
    forall k, l :: 0 <= k < l < |e.imports| ==> e.imports[k].index < e.imports[l].index
  }

  /** Every first occurrence before `n` has an import record. */
  predicate ImportsComplete(rs: seq<Option<ResolvedAtRule>>, n: nat, e: Emission)
    requires n <= |rs|
  {
    forall i :: 0 <= i < n && FirstOccurrence(rs, i) ==> exists k :: 0 <= k < |e.imports| && e.imports[k].index == i
  }

  predicate ImportsInvariant(rs: seq<Option<ResolvedAtRule>>, n: nat, urlHandler: string -> string, e: Emission)
    requires n <= |rs|
  {
    && e.names.Keys == KeysBefore(rs, n)
    && |e.imports| == |e.names|
    && (forall k :: 0 <= k < |e.imports| ==> ImportAt(rs, n, urlHandler, e, k))
    && ImportsOrdered(e)
    && ImportsComplete(rs, n, e)
  }

  /** The `k`-th api record carries the conditions of a value before `n` that produces one. */
  predicate ApiAt(rs: seq<Option<ResolvedAtRule>>, n: nat, e: Emission, k: nat)
    requires n <= |rs| && k < |e.api|
  {
    var a := e.api[k];
    && a.index < n && ProducesApi(rs, a.index)
    && var r := rs[a.index].value;
    && a.layer == r.layer && a.supports == r.supports && a.media == r.media
    && (if r.requestable
        then a.NamedApi? && Key(r) in e.names && a.importName == e.names[Key(r)]
        else a.UrlApi? && a.url == r.url)
  }

  /** Api records appear in the order of the values they come from. */
  predicate ApiOrdered(e: Emission) {
    forall k, l :: 0 <= k < l < |e.api| ==> e.api[k].index < e.api[l].index
  }

  /** Every value before `n` that produces an api record has one. */
  predicate ApiComplete(rs: seq<Option<ResolvedAtRule>>, n: nat, e: Emission)
    requires n <= |rs|
  {
    forall i :: 0 <= i < n && ProducesApi(rs, i) ==> exists k :: 0 <= k < |e.api| && e.api[k].index == i
  }

  predicate ApiInvariant(rs: seq<Option<ResolvedAtRule>>, n: nat, e: Emission)
    requires n <= |rs|
  {
    && (forall k :: 0 <= k < |e.api| ==> ApiAt(rs, n, e, k))
    && ApiOrdered(e)
    && ApiComplete(rs, n, e)
  }

  /** Every name in the map of `e` is still there, unchanged, in `e'`. */
  predicate NamesKept(e: Emission, e': Emission) {
    forall key :: key in e.names ==> key in e'.names && e'.names[key] == e.names[key]
  }

  /** What one turn of the loop does, in the terms the invariant lemmas use. */
  lemma StepShape(rs: seq<Option<ResolvedAtRule>>, n: nat, urlHandler: string -> string, e: Emission)
    requires 0 < n <= |rs| && ImportsInvariant(rs, n - 1, urlHandler, e)
    ensures var e' := EmitStep(e, n - 1, rs[n - 1], urlHandler);
      && NamesKept(e, e')
      && (!FirstOccurrence(rs, n - 1) ==> e'.names == e.names && e'.imports == e.imports)
      && (FirstOccurrence(rs, n - 1) ==>
            && Key(rs[n - 1].value) !in e.names
            && e'.names == e.names[Key(rs[n - 1].value) := ImportName(|e.names|)]
            && |e'.imports| == |e.imports| + 1 && e'.imports[..|e.imports|] == e.imports
            && e'.imports[|e.imports|] == ImportRecord(ImportName(|e.imports|), urlHandler(Key(rs[n - 1].value)), n - 1))
      && (!ProducesApi(rs, n - 1) ==> e'.api == e.api)
      && (ProducesApi(rs, n - 1) ==>
            |e'.api| == |e.api| + 1 && e'.api[..|e.api|] == e.api && e'.api[|e.api|].index == n - 1)
  {
    if Named(rs, n - 1) && !FirstOccurrence(rs, n - 1) {
      assert Key(rs[n - 1].value) in KeysBefore(rs, n - 1);
    }
  }

  /** A turn that adds no import record keeps the import invariant. */
  lemma ImportsKeep(rs: seq<Option<ResolvedAtRule>>, n: nat, urlHandler: string -> string, e: Emission, e': Emission)
    requires 0 < n <= |rs| && ImportsInvariant(rs, n - 1, urlHandler, e) && !FirstOccurrence(rs, n - 1)
    requires e'.names == e.names && e'.imports == e.imports
    ensures ImportsInvariant(rs, n, urlHandler, e')
  {
    KeysBeforeNext(rs, n - 1);
    if Named(rs, n - 1) {
      assert Key(rs[n - 1].value) in KeysBefore(rs, n - 1);
    }
    forall k | 0 <= k < |e'.imports| ensures ImportAt(rs, n, urlHandler, e', k) {
      assert ImportAt(rs, n - 1, urlHandler, e, k);
    }
    assert ImportsComplete(rs, n, e') by {
      forall i | 0 <= i < n && FirstOccurrence(rs, i)
        ensures exists k :: 0 <= k < |e'.imports| && e'.imports[k].index == i
      {
        assert i < n - 1;
      }
    }
  }

  /** A turn that adds the record for a first occurrence keeps the import invariant. */
  lemma ImportsAdd(rs: seq<Option<ResolvedAtRule>>, n: nat, urlHandler: string -> string, e: Emission, e': Emission)
    requires 0 < n <= |rs| && ImportsInvariant(rs, n - 1, urlHandler, e) && FirstOccurrence(rs, n - 1)
    requires Key(rs[n - 1].value) !in e.names
    requires e'.names == e.names[Key(rs[n - 1].value) := ImportName(|e.names|)]
    requires |e'.imports| == |e.imports| + 1 && e'.imports[..|e.imports|] == e.imports
    requires e'.imports[|e.imports|] == ImportRecord(ImportName(|e.imports|), urlHandler(Key(rs[n - 1].value)), n - 1)
    ensures ImportsInvariant(rs, n, urlHandler, e')
  {
    KeysBeforeNext(rs, n - 1);
    assert e'.names.Keys == KeysBefore(rs, n);
    AddedSound(rs, n, urlHandler, e, e');
    AddedOrdered(rs, n, urlHandler, e, e');
    AddedComplete(rs, n, urlHandler, e, e');
  }

  lemma AddedSound(rs: seq<Option<ResolvedAtRule>>, n: nat, urlHandler: string -> string, e: Emission, e': Emission)
    requires 0 < n <= |rs| && ImportsInvariant(rs, n - 1, urlHandler, e) && FirstOccurrence(rs, n - 1)
    requires Key(rs[n - 1].value) !in e.names
    requires e'.names == e.names[Key(rs[n - 1].value) := ImportName(|e.names|)]
    requires |e'.imports| == |e.imports| + 1 && e'.imports[..|e.imports|] == e.imports
    requires e'.imports[|e.imports|] == ImportRecord(ImportName(|e.imports|), urlHandler(Key(rs[n - 1].value)), n - 1)
    ensures forall k :: 0 <= k < |e'.imports| ==> ImportAt(rs, n, urlHandler, e', k)
  {
    forall k | 0 <= k < |e'.imports| ensures ImportAt(rs, n, urlHandler, e', k) {
      if k < |e.imports| {
        assert ImportAt(rs, n - 1, urlHandler, e, k);
        assert e'.imports[k] == e.imports[k];
      }
    }
  }

  lemma AddedOrdered(rs: seq<Option<ResolvedAtRule>>, n: nat, urlHandler: string -> string, e: Emission, e': Emission)
    requires 0 < n <= |rs| && ImportsInvariant(rs, n - 1, urlHandler, e)
    requires |e'.imports| == |e.imports| + 1 && e'.imports[..|e.imports|] == e.imports
    requires e'.imports[|e.imports|].index == n - 1
    ensures ImportsOrdered(e')
  {
    forall k, l | 0 <= k < l < |e'.imports| ensures e'.imports[k].index < e'.imports[l].index {
      assert ImportAt(rs, n - 1, urlHandler, e, k);
      assert e'.imports[k] == e.imports[k];
      if l < |e.imports| {
        assert e'.imports[l] == e.imports[l];
      }
    }
  }

  lemma AddedComplete(rs: seq<Option<ResolvedAtRule>>, n: nat, urlHandler: string -> string, e: Emission, e': Emission)
    requires 0 < n <= |rs| && ImportsInvariant(rs, n - 1, urlHandler, e)
    requires |e'.imports| == |e.imports| + 1 && e'.imports[..|e.imports|] == e.imports
    requires e'.imports[|e.imports|].index == n - 1
    ensures ImportsComplete(rs, n, e')
  {
    forall i | 0 <= i < n && FirstOccurrence(rs, i)
      ensures exists k :: 0 <= k < |e'.imports| && e'.imports[k].index == i
    {
      if i < n - 1 {
        var k :| 0 <= k < |e.imports| && e.imports[k].index == i;
        assert e'.imports[k] == e.imports[k];
      } else {
        assert e'.imports[|e.imports|].index == i;
      }
    }
  }

  /** A turn that adds no api record keeps the api invariant. */
  lemma ApiKeep(rs: seq<Option<ResolvedAtRule>>, n: nat, e: Emission, e': Emission)
    requires 0 < n <= |rs| && ApiInvariant(rs, n - 1, e) && !ProducesApi(rs, n - 1)
    requires e'.api == e.api && NamesKept(e, e')
    ensures ApiInvariant(rs, n, e')
  {
    forall k | 0 <= k < |e'.api| ensures ApiAt(rs, n, e', k) {
      assert ApiAt(rs, n - 1, e, k);
    }
    assert ApiComplete(rs, n, e') by {
      forall i | 0 <= i < n && ProducesApi(rs, i)
        ensures exists k :: 0 <= k < |e'.api| && e'.api[k].index == i
      {
        assert i < n - 1;
      }
    }
  }

  /** A turn that appends a well-formed api record keeps the api invariant. */
  lemma ApiAdd(rs: seq<Option<ResolvedAtRule>>, n: nat, e: Emission, e': Emission)
    requires 0 < n <= |rs| && ApiInvariant(rs, n - 1, e)
    requires |e'.api| == |e.api| + 1 && e'.api[..|e.api|] == e.api && NamesKept(e, e')
    requires ApiAt(rs, n, e', |e.api|) && e'.api[|e.api|].index == n - 1
    ensures ApiInvariant(rs, n, e')
  {
    forall k | 0 <= k < |e'.api| ensures ApiAt(rs, n, e', k) {
      if k < |e.api| {
        assert ApiAt(rs, n - 1, e, k);
        assert e'.api[k] == e.api[k];
      }
    }
    assert ApiOrdered(e') by {
      forall k, l | 0 <= k < l < |e'.api| ensures e'.api[k].index < e'.api[l].index {
        assert ApiAt(rs, n - 1, e, k);
        assert e'.api[k] == e.api[k];
        if l < |e.api| {
          assert e'.api[l] == e.api[l];
        }
      }
    }
    assert ApiComplete(rs, n, e') by {
      forall i | 0 <= i < n && ProducesApi(rs, i)
        ensures exists k :: 0 <= k < |e'.api| && e'.api[k].index == i
      {
        if i < n - 1 {
          var k :| 0 <= k < |e.api| && e.api[k].index == i;
          assert e'.api[k] == e.api[k];
        } else {
          assert e'.api[|e.api|].index == i;
        }
      }
    }
  }

  /** The record a turn appends carries the value's conditions and, for a request, its new name. */
  lemma AppendedApiAt(rs: seq<Option<ResolvedAtRule>>, n: nat, urlHandler: string -> string, e: Emission)
    requires 0 < n <= |rs| && ImportsInvariant(rs, n - 1, urlHandler, e) && ProducesApi(rs, n - 1)
    ensures var e' := EmitStep(e, n - 1, rs[n - 1], urlHandler);
      |e.api| < |e'.api| && ApiAt(rs, n, e', |e.api|)
  {
    StepShape(rs, n, urlHandler, e);
  }

  /**
   * After `n` turns: the name map holds exactly the requests seen so far;
   * import record `k` is named `___CSS_LOADER_AT_RULE_IMPORT_k___` and is
   * for the first value with its request, in order, each first occurrence
   * having one; api records follow the values in order, one for each kept
   * value that is not requestable or is the first with its request, with
   * that value's conditions.
   */
  lemma {:induction false} EmitInvariant(rs: seq<Option<ResolvedAtRule>>, n: nat, urlHandler: string -> string)
    requires n <= |rs|
    ensures ImportsInvariant(rs, n, urlHandler, EmitUpTo(rs, n, urlHandler))
    ensures ApiInvariant(rs, n, EmitUpTo(rs, n, urlHandler))
  {
    if n > 0 {
      EmitInvariant(rs, n - 1, urlHandler);
      var e := EmitUpTo(rs, n - 1, urlHandler);
      assert EmitUpTo(rs, n, urlHandler) == EmitStep(e, n - 1, rs[n - 1], urlHandler);
      var e' := EmitStep(e, n - 1, rs[n - 1], urlHandler);
      StepShape(rs, n, urlHandler, e);
      if FirstOccurrence(rs, n - 1) {
        ImportsAdd(rs, n, urlHandler, e, e');
      } else {
        ImportsKeep(rs, n, urlHandler, e, e');
      }
      if ProducesApi(rs, n - 1) {
        AppendedApiAt(rs, n, urlHandler, e);
        ApiAdd(rs, n, e, e');
      } else {
        ApiKeep(rs, n, e, e');
      }
    }
  }

  /** No two import records share a name or a request. */
  lemma ImportsDistinct(rs: seq<Option<ResolvedAtRule>>, urlHandler: string -> string, k: nat, l: nat)
    requires var e := EmitUpTo(rs, |rs|, urlHandler); k < l < |e.imports|
    ensures var e := EmitUpTo(rs, |rs|, urlHandler);
      var i, j := e.imports[k].index, e.imports[l].index;
      && e.imports[k].importName != e.imports[l].importName
      && i < j < |rs| && Named(rs, i) && Named(rs, j)
      && Key(rs[i].value) != Key(rs[j].value)
  {
    var e := EmitUpTo(rs, |rs|, urlHandler);
    EmitInvariant(rs, |rs|, urlHandler);
    assert ImportAt(rs, |rs|, urlHandler, e, k) && ImportAt(rs, |rs|, urlHandler, e, l);
    ImportNameInjective(k, l);
    var i, j := e.imports[k].index, e.imports[l].index;
    assert i < j;
    assert Named(rs, i);
    assert Key(rs[i].value) in KeysBefore(rs, j);
  }

  /** A value whose request was seen before adds no record at all. */
  lemma RepeatAddsNothing(rs: seq<Option<ResolvedAtRule>>, n: nat, urlHandler: string -> string)
    requires n < |rs| && Named(rs, n) && !FirstOccurrence(rs, n)
    ensures EmitUpTo(rs, n + 1, urlHandler) == EmitUpTo(rs, n, urlHandler)
  {
    EmitInvariant(rs, n, urlHandler);
    assert Key(rs[n].value) in KeysBefore(rs, n);
  }

  /** `@import "a.css"` twice gives one import record and one api record, both for the first. */
  lemma RepeatedImportExample(urlHandler: string -> string)
    ensures var r := ResolvedAtRule("a.css", None, None, None, None, true);
      var e := EmitUpTo([Some(r), Some(r)], 2, urlHandler);
      && e.imports == [ImportRecord(ImportName(0), urlHandler("a.css"), 0)]
      && e.api == [NamedApi(ImportName(0), None, None, None, 0)]
  {
    var r := ResolvedAtRule("a.css", None, None, None, None, true);
    var rs := [Some(r), Some(r)];
    var e1 := Emission(map["a.css" := ImportName(0)], [ImportRecord(ImportName(0), urlHandler("a.css"), 0)],
      [NamedApi(ImportName(0), None, None, None, 0)]);
    assert EmitUpTo(rs, 1, urlHandler) == e1;
    assert EmitUpTo(rs, 2, urlHandler) == EmitStep(e1, 1, Some(r), urlHandler) == e1;
  }
}
