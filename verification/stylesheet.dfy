/**
 * `postcssNodeWalker` and `parseJs`: the encoding of one stylesheet into a
 * token list, its selector diagnostic and its `@import` edges.
 */
module Stylesheet {
  import opened Wrappers
  import opened Strings
  import opened Tokens
  import opened Ast
  import opened Model
  import opened Util
  import opened SelectorEncoder
  import opened ValueEncoder

  // ---------------------------------------------------------------------------
  // Surroundings and state
  // ---------------------------------------------------------------------------

  /** `/^(-\w+-)?keyframes$/`: `keyframes`, bare or behind a vendor prefix. */
  predicate IsKeyframes(name: string) {
    || name == "keyframes"
    || (&& |name| >= 12
        && name[|name| - 10..] == "-keyframes"
        && name[0] == '-'
        && forall i :: 1 <= i < |name| - 10 ==> IsWordChar(name[i]))
  }

  /** A character of the regular-expression class `\w`. */
  predicate IsWordChar(c: char) {
    ('a' <= c <= 'z') || ('A' <= c <= 'Z') || ('0' <= c <= '9') || c == '_'
  }

  /** The at-rule the walk is inside: the flag and name the selector walk reads. */
  datatype Scope = Scope(inside: bool, name: string)

  const TopLevel: Scope := Scope(false, "")

  /** The name an at-rule block is recorded under: keyframes of any vendor are just `keyframes`. */
  function ScopeName(name: string): (r: string)
    ensures IsKeyframes(name) <==> r == "keyframes"
  {
    if IsKeyframes(name) then "keyframes" else name
  }

  /**
   * What the walk of one stylesheet reads: the host's path operations, every
   * template of the compile, the stylesheet's own index and path, and
   * whether debug annotations are on.
   */
  datatype EncEnv = EncEnv(ops: PathOps, known: seq<Template>, selfIndex: nat, selfPath: string, debug: bool)

  /** The walk's state: the sink, the at-rule scope, the stylesheet diagnostic and the edges found. */
  datatype EncState = EncState(sink: Sink, scope: Scope, diag: string, edges: seq<ChildEdge>)

  /** An edge the importer may record: it names a known, non-empty template by index and path. */
  predicate ValidEdge(known: seq<Template>, e: ChildEdge) {
    e.index < |known| && known[e.index].path == e.path && known[e.index].content != ""
  }

  // ---------------------------------------------------------------------------
  // Pieces of text
  // ---------------------------------------------------------------------------

  /** The debug annotation giving a node's file and position. */
  function FileInfo(path: string, p: Pos): string {
    " ;wxcs_fileinfo: " + path + " " + IntToString(p.line) + " " + IntToString(p.column) + ";"
  }

  /** The selector walk's surroundings for a rule. */
  function RuleCtx(env: EncEnv, sc: Scope, n: CssNode): SelCtx
    requires n.Rule?
  {
    SelCtx(sc.inside, sc.name, env.selfPath, n.selector, n.start)
  }

  /**
   * What follows a rule's declarations under debug: the original selector
   * when a class or tag was rewritten (not inside keyframes), then the rule's
   * position.
   */
  function RuleTail(env: EncEnv, n: CssNode, sc: Scope, origin: bool): string
    requires n.Rule?
  {
    if !env.debug then ""
    else
      (if !(sc.inside && sc.name == "keyframes") && origin then " ;wxcs_originclass: " + n.selector + ";" else "")
      + FileInfo(env.selfPath, n.start)
  }

  function ValueCtx(env: EncEnv, n: CssNode, keep: bool): ValCtx
    requires n.Decl?
  {
    ValCtx(keep, env.selfPath, n.prop, n.between, n.start)
  }

  /** The declaration's head: the property and the raw text before the value, `: ` when there is none. */
  function DeclHead(n: CssNode): string
    requires n.Decl?
  {
    n.prop + (if n.between == "" then ": " else n.between)
  }

  /** The importance flag as written after the value. */
  function Importance(n: CssNode): string
    requires n.Decl?
  {
    if n.important then " !important" else if n.rawImportant != "" then " " + n.rawImportant else ""
  }

  /**
   * A declaration's symbols: head, value with its rpx markers, and importance;
   * under debug, when the value held an rpx length, a `wxcs_style_` copy with
   * the value as written.
   */
  function DeclSyms(env: EncEnv, n: CssNode): seq<Sym>
    requires n.Decl?
  {
    var first := Chars(DeclHead(n)) + (EncodedSeq(ValueCtx(env, n, false), n.value, 0) + Chars(Importance(n) + ";"));
    if env.debug && HasRpxSeq(n.value, 0) then
      first + (Chars(";wxcs_style_" + n.prop + ": ") + (EncodedSeq(ValueCtx(env, n, true), n.value, 0) + Chars(Importance(n) + ";")))
    else first
  }

  // ---------------------------------------------------------------------------
  // @import
  // ---------------------------------------------------------------------------

  /** The template path an `@import` refers to. */
  function ImportPath(env: EncEnv, n: CssNode): string
    requires n.AtRule?
  {
    NormalizePath(env.ops, env.selfPath, HandleImportPath(n.params))
  }

  /** The index of the imported template, -1 when no template has that path. */
  function ImportIndex(env: EncEnv, n: CssNode): (idx: int)
    requires n.AtRule?
    ensures -1 <= idx < |env.known|
    ensures idx == -1 <==> forall i :: 0 <= i < |env.known| ==> env.known[i].path != ImportPath(env, n)
    ensures idx >= 0 ==> env.known[idx].path == ImportPath(env, n)
  {
    GetArrIdx(env.known, (t: Template) => t.path, ImportPath(env, n))
  }

  /** The edge an `@import` records: only an import of a template with content counts. */
  function ImportEdge(env: EncEnv, n: CssNode): (e: Option<ChildEdge>)
    requires n.AtRule?
    ensures e.Some? ==> ValidEdge(env.known, e.value)
  {
    var idx := ImportIndex(env, n);
    if idx >= 0 && env.known[idx].content != "" then
      Some(ChildEdge(idx, ImportPath(env, n), HandleImportPath(n.params), n.start, n.end))
    else None
  }

  // ---------------------------------------------------------------------------
  // Reference definitions
  // ---------------------------------------------------------------------------

  /** What walking a piece of stylesheet stands for: its symbols, the scope and diagnostic after it, its edges. */
  datatype Rendered = Rendered(syms: seq<Sym>, scope: Scope, diag: string, edges: seq<ChildEdge>)

  /** Whether the walk of a node stops with an error: a missing import target, or `url()` with no argument. */
  predicate Faults(env: EncEnv, n: CssNode)
    decreases n, 1
  {
    match n
    case Rule(_, _, _, nodes) => FaultsSeq(env, nodes, 0)
    case Decl(_, _, value, _, _, _) => EmptyUrlSeq(value, 0)
    case Comment => false
    case AtRule(name, _, nodes, _, _) =>
      if name == "import" then ImportIndex(env, n) == -1 else FaultsSeq(env, nodes, 0)
  }

  predicate FaultsSeq(env: EncEnv, ns: seq<CssNode>, i: nat)
    requires i <= |ns|
    decreases ns, |ns| - i
  {
    i < |ns| && (Faults(env, ns[i]) || FaultsSeq(env, ns, i + 1))
  }

  /**
   * The stylesheet a node stands for, with the selector and value symbols of
   * the reference definitions, entered in scope `sc` with diagnostic `d`.
   * An `@import` of a template with content is its reference marker. A
   * rule's own diagnostic replaces whatever its body left; an at-rule block
   * leaves the walk at top level, however deeply it was nested.
   */
  function RenderNode(env: EncEnv, n: CssNode, sc: Scope, d: string): (r: Rendered)
    ensures forall e :: e in r.edges ==> ValidEdge(env.known, e)
    ensures r.scope == sc || r.scope == TopLevel
    ensures d != "" ==> r.diag != ""
    decreases n, 1
  {
    match n
    case Rule(selector, sels, start, nodes) =>
      var ctx := RuleCtx(env, sc, n);
      var inner := RenderSeq(env, nodes, 0, sc, d);
      var rd := KeepFirst("", BannedSelectors(ctx, sels));
      var syms := EncodedSelectors(ctx, sels) + Chars("{") + inner.syms
                  + Chars(RuleTail(env, n, inner.scope, OriginSelectors(ctx, sels)) + "}\n");
      Rendered(syms, inner.scope, if rd != "" then rd else inner.diag, inner.edges)
    case Decl(_, _, _, _, _, _) => Rendered(DeclSyms(env, n), sc, d, [])
    case Comment => Rendered([], sc, d, [])
    case AtRule(name, params, nodes, start, _) =>
      if name == "import" then
        var e := ImportEdge(env, n);
        if e.Some? then Rendered([Mark(Ref(e.value.index))], sc, d, [e.value]) else Rendered([], sc, d, [])
      else if |nodes| == 0 then Rendered(Chars("@" + name + " " + params), sc, d, [])
      else
        var inner := RenderSeq(env, nodes, 0, Scope(true, ScopeName(name)), d);
        var tail := (if env.debug then FileInfo(env.selfPath, start) else "") + "}\n";
        Rendered(Chars("@" + name + " " + params + "{") + inner.syms + Chars(tail), TopLevel, inner.diag, inner.edges)
  }

  function RenderSeq(env: EncEnv, ns: seq<CssNode>, i: nat, sc: Scope, d: string): (r: Rendered)
    requires i <= |ns|
    ensures forall e :: e in r.edges ==> ValidEdge(env.known, e)
    ensures r.scope == sc || r.scope == TopLevel
    ensures d != "" ==> r.diag != ""
    decreases ns, |ns| - i
  {
    if i == |ns| then Rendered([], sc, d, [])
    else
      var a := RenderNode(env, ns[i], sc, d);
      var b := RenderSeq(env, ns, i + 1, a.scope, a.diag);
      Rendered(a.syms + b.syms, b.scope, b.diag, a.edges + b.edges)
  }

  // ---------------------------------------------------------------------------
  // The walk
  // ---------------------------------------------------------------------------

  /** The state a walk that stands for `rd` leads to: symbols, references, scope, diagnostic and edges all follow. */
  predicate Advanced(st: EncState, r: EncState, rd: Rendered) {
    && r.sink.Valid()
    && r.sink.Content() == st.sink.Content() + rd.syms
    && Refs(r.sink.toks) == Refs(st.sink.toks) + Indices(rd.edges)
    && r.scope == rd.scope
    && r.diag == rd.diag
    && r.edges == st.edges + rd.edges
  }

  lemma AdvancedChain(st: EncState, mid: EncState, r: EncState, a: Rendered, b: Rendered)
    requires Advanced(st, mid, a) && Advanced(mid, r, b)
    ensures Advanced(st, r, Rendered(a.syms + b.syms, b.scope, b.diag, a.edges + b.edges))
  {
    IndicesAppend(a.edges, b.edges);
    ConcatAssoc(st.sink.Content(), a.syms, b.syms);
    ConcatAssoc(Refs(st.sink.toks), Indices(a.edges), Indices(b.edges));
    ConcatAssoc(st.edges, a.edges, b.edges);
  }

  /** A sink that grew by `t` with no reference: the walk advanced by `t` alone. */
  lemma GrewAdvanced(st: EncState, s: Sink, t: seq<Sym>)
    requires Grew(st.sink, s, t)
    ensures Advanced(st, EncState(s, st.scope, st.diag, st.edges), Rendered(t, st.scope, st.diag, []))
  {
    assert Indices([]) == [];
    assert st.edges + [] == st.edges;
  }

  /** One pass over a declaration's value, closed by its importance and `;`. */
  function ValuePass(vc: ValCtx, n: CssNode, s: Sink, rpx: bool): (r: Result<ValState, CompileError>)
    requires s.Valid() && n.Decl?
    ensures r.Ok? <==> !EmptyUrlSeq(n.value, 0)
    ensures r.Ok? ==> Grew(s, r.value.sink, EncodedSeq(vc, n.value, 0) + Chars(Importance(n) + ";"))
    ensures r.Ok? ==> r.value.hasRpx == (rpx || (!vc.keep && HasRpxSeq(n.value, 0)))
    ensures r.Err? ==> r.error == EmptyUrlFault
  {
    match WalkSeq(vc, n.value, 0, ValState(s, rpx))
    case Err(e) => Err(e)
    case Ok(v) =>
      var closed := v.sink.Append(Importance(n) + ";");
      GrewChain(s, v.sink, closed, EncodedSeq(vc, n.value, 0), Chars(Importance(n) + ";"));
      Ok(ValState(closed, v.hasRpx))
  }

  /** The debug copy of a declaration whose value held an rpx length: the value again, as written. */
  function StyleCopy(env: EncEnv, n: CssNode, s: Sink): (r: Result<Sink, CompileError>)
    requires s.Valid() && n.Decl?
    ensures r.Ok? <==> !EmptyUrlSeq(n.value, 0)
    ensures r.Ok? ==> Grew(s, r.value, Chars(";wxcs_style_" + n.prop + ": ") + (EncodedSeq(ValueCtx(env, n, true), n.value, 0) + Chars(Importance(n) + ";")))
    ensures r.Err? ==> r.error == EmptyUrlFault
  {
    var lead := ";wxcs_style_" + n.prop + ": ";
    var s2 := s.Append(lead);
    match ValuePass(ValueCtx(env, n, true), n, s2, true)
    case Err(e) => Err(e)
    case Ok(v) =>
      GrewChain(s, s2, v.sink, Chars(lead), EncodedSeq(ValueCtx(env, n, true), n.value, 0) + Chars(Importance(n) + ";"));
      Ok(v.sink)
  }

  /** A declaration: the value in rpx-marker mode, then under debug the `wxcs_style_` copy as written. */
  function WalkDecl(env: EncEnv, n: CssNode, st: EncState): (r: Result<EncState, CompileError>)
    requires st.sink.Valid() && n.Decl?
    ensures r.Ok? <==> !Faults(env, n)
    ensures r.Ok? ==> Advanced(st, r.value, Rendered(DeclSyms(env, n), st.scope, st.diag, []))
    ensures r.Err? ==> r.error == EmptyUrlFault
  {
    var vc := ValueCtx(env, n, false);
    var head := DeclHead(n);
    var s0 := st.sink.Append(head);
    match ValuePass(vc, n, s0, false)
    case Err(e) => Err(e)
    case Ok(v1) =>
      var first := Chars(head) + (EncodedSeq(vc, n.value, 0) + Chars(Importance(n) + ";"));
      GrewChain(st.sink, s0, v1.sink, Chars(head), EncodedSeq(vc, n.value, 0) + Chars(Importance(n) + ";"));
      if v1.hasRpx && env.debug then
        match StyleCopy(env, n, v1.sink)
        case Err(e) => Err(e)
        case Ok(s3) =>
          var second := Chars(";wxcs_style_" + n.prop + ": ") + (EncodedSeq(ValueCtx(env, n, true), n.value, 0) + Chars(Importance(n) + ";"));
          GrewChain(st.sink, v1.sink, s3, first, second);
          DeclSymsWithCopy(env, n);
          GrewAdvanced(st, s3, first + second);
          Ok(EncState(s3, st.scope, st.diag, st.edges))
      else
        GrewAdvanced(st, v1.sink, first);
        Ok(EncState(v1.sink, st.scope, st.diag, st.edges))
  }

  lemma DeclSymsWithCopy(env: EncEnv, n: CssNode)
    requires n.Decl? && env.debug && HasRpxSeq(n.value, 0)
    ensures DeclSyms(env, n)
            == Chars(DeclHead(n)) + (EncodedSeq(ValueCtx(env, n, false), n.value, 0) + Chars(Importance(n) + ";"))
               + (Chars(";wxcs_style_" + n.prop + ": ") + (EncodedSeq(ValueCtx(env, n, true), n.value, 0) + Chars(Importance(n) + ";")))
  {
  }

  /** `@import`: a missing target is fatal; a target with content gets an edge and an `[2, i]` marker. */
  function WalkImport(env: EncEnv, n: CssNode, st: EncState): (r: Result<EncState, CompileError>)
    requires st.sink.Valid() && n.AtRule? && n.name == "import"
    ensures r.Ok? <==> !Faults(env, n)
    ensures r.Ok? ==> Advanced(st, r.value, RenderNode(env, n, st.scope, st.diag))
    ensures r.Err? ==> r.error == ImportNotFound(ImportPath(env, n), env.selfPath)
    ensures r.Ok? && ImportEdge(env, n).None? ==> r.value == st
    ensures r.Ok? && ImportEdge(env, n).Some? ==>
              && r.value.sink.buf == ""
              && r.value.sink.toks == st.sink.toks + (if st.sink.buf == "" then [] else [Lit(st.sink.buf)]) + [Ref(ImportIndex(env, n))]
  {
    var idx := ImportIndex(env, n);
    if idx == -1 then Err(ImportNotFound(ImportPath(env, n), env.selfPath))
    else
      match ImportEdge(env, n)
      case None => assert Indices([]) == []; Ok(st)
      case Some(e) =>
        RefsSingle(Ref(idx));
        assert Indices([e]) == [idx];
        Ok(EncState(st.sink.Emit(Ref(idx)), st.scope, st.diag, st.edges + [e]))
  }

  /** Text, a walked body and text again: the walk advances by all three. */
  lemma Bracketed(st: EncState, entered: EncState, inner: EncState, closed: EncState,
                  pre: seq<Sym>, body: Rendered, post: seq<Sym>)
    requires Advanced(st, entered, Rendered(pre, entered.scope, st.diag, []))
    requires Advanced(entered, inner, body)
    requires Advanced(inner, closed, Rendered(post, closed.scope, inner.diag, []))
    ensures Advanced(st, closed, Rendered(pre + body.syms + post, closed.scope, body.diag, body.edges))
  {
    AdvancedChain(st, entered, inner, Rendered(pre, entered.scope, st.diag, []), body);
    assert [] + body.edges == body.edges;
    AdvancedChain(st, inner, closed, Rendered(pre + body.syms, body.scope, body.diag, body.edges),
                  Rendered(post, closed.scope, inner.diag, []));
    assert body.edges + [] == body.edges;
  }

  /** Literal text appended, with the scope set to `sc`. */
  function PutIn(st: EncState, s: string, sc: Scope): (r: EncState)
    requires st.sink.Valid()
    ensures Advanced(st, r, Rendered(Chars(s), sc, st.diag, []))
  {
    assert Indices([]) == [];
    EncState(st.sink.Append(s), sc, st.diag, st.edges + [])
  }

  /** The selectors of a rule and its `{`, with what the selector walk found about them. */
  function OpenRule(env: EncEnv, n: CssNode, st: EncState): (r: (EncState, RuleState))
    requires st.sink.Valid() && n.Rule?
    ensures Advanced(st, r.0, Rendered(EncodedSelectors(RuleCtx(env, st.scope, n), n.selectors) + Chars("{"), st.scope, st.diag, []))
    ensures r.1.needOrigin == OriginSelectors(RuleCtx(env, st.scope, n), n.selectors)
    ensures r.1.diag == KeepFirst("", BannedSelectors(RuleCtx(env, st.scope, n), n.selectors))
  {
    var ss := WalkSelectors(RuleCtx(env, st.scope, n), n.selectors, SelState(st.sink, RuleState(false, "")));
    var sels := EncodedSelectors(RuleCtx(env, st.scope, n), n.selectors);
    assert Grew(st.sink, ss.sink.Append("{"), sels + Chars("{"));
    GrewAdvanced(st, ss.sink.Append("{"), sels + Chars("{"));
    (EncState(ss.sink.Append("{"), st.scope, st.diag, st.edges), ss.rule)
  }

  /** A rule stands for its selectors, its body between braces with the debug tail, and its own diagnostic. */
  lemma RenderRule(env: EncEnv, n: CssNode, sc: Scope, d: string)
    requires n.Rule?
    ensures var ctx := RuleCtx(env, sc, n);
            var body := RenderSeq(env, n.nodes, 0, sc, d);
            var rd := KeepFirst("", BannedSelectors(ctx, n.selectors));
            RenderNode(env, n, sc, d)
            == Rendered(EncodedSelectors(ctx, n.selectors) + Chars("{") + body.syms
                          + Chars(RuleTail(env, n, body.scope, OriginSelectors(ctx, n.selectors)) + "}\n"),
                        body.scope, if rd != "" then rd else body.diag, body.edges)
  {
  }

  /** A rule: selectors, `{`, the body, the debug annotations and `}`; its diagnostic replaces the stylesheet's. */
  function WalkRule(env: EncEnv, n: CssNode, st: EncState): (r: Result<EncState, CompileError>)
    requires st.sink.Valid() && n.Rule?
    ensures r.Ok? <==> !Faults(env, n)
    ensures r.Ok? ==> Advanced(st, r.value, RenderNode(env, n, st.scope, st.diag))
    ensures r.Err? ==> r.error == EmptyUrlFault || r.error.ImportNotFound?
    decreases n, 0
  {
    var (entered, rule) := OpenRule(env, n, st);
    match WalkSeqCss(env, n.nodes, 0, entered)
    case Err(e) => Err(e)
    case Ok(inner) =>
      var tail := RuleTail(env, n, inner.scope, rule.needOrigin) + "}\n";
      var closed := PutIn(inner, tail, inner.scope);
      Bracketed(st, entered, inner, closed, EncodedSelectors(RuleCtx(env, st.scope, n), n.selectors) + Chars("{"),
                RenderSeq(env, n.nodes, 0, st.scope, st.diag), Chars(tail));
      RenderRule(env, n, st.scope, st.diag);
      Ok(closed.(diag := if rule.diag != "" then rule.diag else inner.diag))
  }

  /** An at-rule with a body stands for its head, the body in the at-rule's scope between braces, and leaves the walk at top level. */
  lemma RenderAtRule(env: EncEnv, n: CssNode, sc: Scope, d: string)
    requires n.AtRule? && n.name != "import" && |n.nodes| > 0
    ensures var body := RenderSeq(env, n.nodes, 0, Scope(true, ScopeName(n.name)), d);
            RenderNode(env, n, sc, d)
            == Rendered(Chars("@" + n.name + " " + n.params + "{") + body.syms
                          + Chars((if env.debug then FileInfo(env.selfPath, n.start) else "") + "}\n"),
                        TopLevel, body.diag, body.edges)
  {
  }

  /** An at-rule other than `@import`: its head, and when it has a body, the body inside the at-rule's scope. */
  function WalkAtRule(env: EncEnv, n: CssNode, st: EncState): (r: Result<EncState, CompileError>)
    requires st.sink.Valid() && n.AtRule? && n.name != "import"
    ensures r.Ok? <==> !Faults(env, n)
    ensures r.Ok? ==> Advanced(st, r.value, RenderNode(env, n, st.scope, st.diag))
    ensures r.Err? ==> r.error == EmptyUrlFault || r.error.ImportNotFound?
    decreases n, 0
  {
    var head := "@" + n.name + " " + n.params;
    if |n.nodes| == 0 then Ok(PutIn(st, head, st.scope))
    else
      var sc := Scope(true, ScopeName(n.name));
      var entered := PutIn(st, head + "{", sc);
      match WalkSeqCss(env, n.nodes, 0, entered)
      case Err(e) => Err(e)
      case Ok(inner) =>
        var tail := (if env.debug then FileInfo(env.selfPath, n.start) else "") + "}\n";
        var closed := PutIn(inner, tail, TopLevel);
        Bracketed(st, entered, inner, closed, Chars(head + "{"), RenderSeq(env, n.nodes, 0, sc, st.diag), Chars(tail));
        RenderAtRule(env, n, st.scope, st.diag);
        Ok(closed)
  }

  /** `postcssNodeWalker` on one node. */
  function WalkCss(env: EncEnv, n: CssNode, st: EncState): (r: Result<EncState, CompileError>)
    requires st.sink.Valid()
    ensures r.Ok? <==> !Faults(env, n)
    ensures r.Ok? ==> Advanced(st, r.value, RenderNode(env, n, st.scope, st.diag))
    ensures r.Err? ==> r.error == EmptyUrlFault || r.error.ImportNotFound?
    decreases n, 1
  {
    match n
    case Rule(_, _, _, _) => WalkRule(env, n, st)
    case Decl(_, _, _, _, _, _) => WalkDecl(env, n, st)
    case Comment => assert Indices([]) == []; Ok(st)
    case AtRule(name, _, _, _, _) => if name == "import" then WalkImport(env, n, st) else WalkAtRule(env, n, st)
  }

  /** The children of the root, a rule or an at-rule, in order; the first error stops the walk. */
  function WalkSeqCss(env: EncEnv, ns: seq<CssNode>, i: nat, st: EncState): (r: Result<EncState, CompileError>)
    requires i <= |ns| && st.sink.Valid()
    ensures r.Ok? <==> !FaultsSeq(env, ns, i)
    ensures r.Ok? ==> Advanced(st, r.value, RenderSeq(env, ns, i, st.scope, st.diag))
    ensures r.Err? ==> r.error == EmptyUrlFault || r.error.ImportNotFound?
    decreases ns, |ns| - i
  {
    if i == |ns| then assert Indices([]) == []; Ok(st)
    else
      match WalkCss(env, ns[i], st)
      case Err(e) => Err(e)
      case Ok(mid) =>
        match WalkSeqCss(env, ns, i + 1, mid)
        case Err(e) => Err(e)
        case Ok(r) =>
          AdvancedChain(st, mid, r, RenderNode(env, ns[i], st.scope, st.diag),
                        RenderSeq(env, ns, i + 1, mid.scope, mid.diag));
          Ok(r)
  }

  // ---------------------------------------------------------------------------
  // parseJs
  // ---------------------------------------------------------------------------

  /**
   * The replacement text `String.prototype.replace` puts in place of a match
   * of `matched` at `pos` in `s`, for a pattern without capture groups
   * (GetSubstitution in ECMA-262): `$$` is `$`, `$&` the match, `` $` `` the
   * text before it and `$'` the text after it; any other `$` stands for itself.
   */
  function Substitution(rep: string, s: string, pos: nat, matched: string): (r: string)
    requires pos + |matched| <= |s|
    ensures '$' !in rep ==> r == rep
    decreases |rep|
  {
    if |rep| == 0 then ""
    else if rep[0] == '$' && |rep| >= 2 && rep[1] in "$&`'" then
      var piece :=
        if rep[1] == '$' then "$"
        else if rep[1] == '&' then matched
        else if rep[1] == '`' then s[..pos]
        else s[pos + |matched|..];
      piece + Substitution(rep[2..], s, pos, matched)
    else
      assert rep == [rep[0]] + rep[1..];
      [rep[0]] + Substitution(rep[1..], s, pos, matched)
  }

  /** The four patterns, each on its own. */
  lemma SubstitutionPatterns(s: string, pos: nat, matched: string)
    requires pos + |matched| <= |s|
    ensures Substitution("$$", s, pos, matched) == "$"
    ensures Substitution("$&", s, pos, matched) == matched
    ensures Substitution("$`", s, pos, matched) == s[..pos]
    ensures Substitution("$'", s, pos, matched) == s[pos + |matched|..]
    ensures Substitution("$1", s, pos, matched) == "$1"
  {
    DollarPattern('$', s, pos, matched);
    DollarPattern('&', s, pos, matched);
    DollarPattern('`', s, pos, matched);
    DollarPattern('\'', s, pos, matched);
    DollarPattern('1', s, pos, matched);
  }

  /** A two-character replacement `$c`, for any `c`. */
  lemma DollarPattern(c: char, s: string, pos: nat, matched: string)
    requires pos + |matched| <= |s|
    ensures Substitution(['$', c], s, pos, matched) ==
              if c == '$' then "$"
              else if c == '&' then matched
              else if c == '`' then s[..pos]
              else if c == '\'' then s[pos + |matched|..]
              else ['$', c]
  {
    var rep := ['$', c];
    assert rep[2..] == [];
    if c !in "$&`'" {
      assert rep[1..] == [c];
      assert Substitution([c], s, pos, matched) == [c];
    }
  }

  /** `s.replace(pat, rep)` for a pattern matching the literal `pat`: the first occurrence only. */
  function ReplaceFirst(s: string, pat: string, rep: string): (r: string)
    ensures IndexOf(s, pat) == -1 ==> r == s
    ensures IndexOf(s, pat) >= 0 ==>
              var i := IndexOf(s, pat); r == s[..i] + Substitution(rep, s, i, pat) + s[i + |pat|..]
    ensures IndexOf(s, pat) >= 0 && '$' !in rep ==>
              var i := IndexOf(s, pat); r == s[..i] + rep + s[i + |pat|..]
  {
    var i := IndexOf(s, pat);
    if i == -1 then s else s[..i] + Substitution(rep, s, i, pat) + s[i + |pat|..]
  }

  /** The host parser's file name, which its error messages mention. */
  const ParserFileName: string := "/wcscjs.css"

  /** What `parseJs` stores into the template: its tokens, diagnostic and import edges. */
  datatype Encoding = Encoding(tokens: seq<Token>, diag: string, children: seq<ChildEdge>)

  /** The whole stylesheet as the reference definitions render it, from top level with no diagnostic. */
  function RenderSheet(env: EncEnv, roots: seq<CssNode>): Rendered {
    RenderSeq(env, roots, 0, TopLevel, "")
  }

  /**
   * The stylesheet's diagnostic comes from the last rule with a banned
   * selector, not the first: a second offending rule overrides whatever the
   * first one recorded.
   */
  lemma LastOffenderWins(env: EncEnv, a: CssNode, b: CssNode)
    requires a.Rule? && b.Rule?
    requires BannedSelectors(RuleCtx(env, TopLevel, b), b.selectors) != []
    ensures RenderSheet(env, [a, b]).diag == BannedSelectors(RuleCtx(env, TopLevel, b), b.selectors)[0]
  {
    var first := RenderNode(env, a, TopLevel, "");
    assert first.scope == TopLevel;
    var second := RenderNode(env, b, TopLevel, first.diag);
    assert RenderSeq(env, [a, b], 1, TopLevel, first.diag).diag == second.diag;
  }

  /**
   * An encoding of the stylesheet `roots`: the canonical token list of its
   * symbols, which shows as its text, with its diagnostic and its edges.
   */
  predicate EncodesSheet(env: EncEnv, roots: seq<CssNode>, enc: Encoding) {
    var rd := RenderSheet(env, roots);
    && Canonical(enc.tokens)
    && Syms(enc.tokens) == rd.syms
    && Text(enc.tokens) == Shown(rd.syms)
    && enc.diag == rd.diag
    && enc.children == rd.edges
  }

  /** What the template list needs of an encoding: a canonical list whose references are its valid edges. */
  predicate Linkable(known: seq<Template>, enc: Encoding) {
    && Canonical(enc.tokens)
    && Refs(enc.tokens) == Indices(enc.children)
    && forall e :: e in enc.children ==> ValidEdge(known, e)
  }

  /**
   * `parseJs`: a stylesheet with only white space is left alone; a parse
   * error is fatal with the parser's message naming the stylesheet;
   * otherwise the walk's output, with the pending literal flushed, is the
   * encoding.
   */
  function ParseJs(env: EncEnv, content: string, parse: string -> Result<seq<CssNode>, string>)
    : (r: Result<Option<Encoding>, CompileError>)
    ensures Trim(content) == "" ==> r == Ok(None)
    ensures Trim(content) != "" && parse(content).Err? ==>
              r == Err(ParseFailure("ERR: " + ReplaceFirst(parse(content).error, ParserFileName, env.selfPath)))
    ensures Trim(content) != "" && parse(content).Ok? ==>
              (r.Ok? <==> !FaultsSeq(env, parse(content).value, 0)) && (r.Ok? ==> r.value.Some?)
    ensures r.Ok? && r.value.Some? ==>
              && Trim(content) != "" && parse(content).Ok?
              && EncodesSheet(env, parse(content).value, r.value.value)
    ensures r.Ok? && r.value.Some? ==> Linkable(env.known, r.value.value)
    ensures r.Err? ==> r.error.ParseFailure? || r.error.ImportNotFound? || r.error == EmptyUrlFault
  {
    if content == "" || Trim(content) == "" then Ok(None)
    else
      match parse(content)
      case Err(msg) => Err(ParseFailure("ERR: " + ReplaceFirst(msg, ParserFileName, env.selfPath)))
      case Ok(roots) =>
        var st := EncState(EmptySink(), TopLevel, "", []);
        assert Refs(st.sink.toks) == [];
        match WalkSeqCss(env, roots, 0, st)
        case Err(e) => Err(e)
        case Ok(done) =>
          var tokens := done.sink.Finish();
          TextIsShown(tokens);
          assert [] + RenderSheet(env, roots).edges == RenderSheet(env, roots).edges;
          Ok(Some(Encoding(tokens, done.diag, done.edges)))
  }

  /**
   * The encoding `parseJs` stores is the only canonical token list with the
   * stylesheet's symbols: the markers and literal runs leave no choice.
   */
  lemma ParseJsUnique(env: EncEnv, content: string, parse: string -> Result<seq<CssNode>, string>, ts: seq<Token>)
    requires ParseJs(env, content, parse).Ok? && ParseJs(env, content, parse).value.Some?
    requires Trim(content) != "" && parse(content).Ok?
    requires Canonical(ts) && Syms(ts) == RenderSheet(env, parse(content).value).syms
    ensures ts == ParseJs(env, content, parse).value.value.tokens
  {
    assert EncodesSheet(env, parse(content).value, ParseJs(env, content, parse).value.value);
    var tokens := ParseJs(env, content, parse).value.value.tokens;
    CanonicalSeparated(ts);
    CanonicalSeparated(tokens);
    SymsInjective(ts, tokens);
  }

  // ---------------------------------------------------------------------------
  // What parseJs reads of the template list
  // ---------------------------------------------------------------------------

  /** Two lists a stylesheet cannot tell apart: the same paths and contents, position by position. */
  predicate SameSources(a: seq<Template>, b: seq<Template>) {
    |a| == |b| && forall i :: 0 <= i < |a| ==> a[i].path == b[i].path && a[i].content == b[i].content
  }

  /** The import lookup reads the known templates' paths, and the edge check their contents, nothing else. */
  lemma ImportSeesSources(env: EncEnv, known: seq<Template>, n: CssNode)
    requires n.AtRule? && SameSources(env.known, known)
    ensures ImportIndex(env.(known := known), n) == ImportIndex(env, n)
    ensures ImportEdge(env.(known := known), n) == ImportEdge(env, n)
  {
    var target := ImportPath(env, n);
    var a := GetArrIdx(known, (t: Template) => t.path, target);
    var b := GetArrIdx(env.known, (t: Template) => t.path, target);
    assert a == b;
  }

  /** The walk of a node reads the known templates only through the import lookup. */
  lemma WalkSeesSources(env: EncEnv, known: seq<Template>, n: CssNode, st: EncState)
    requires st.sink.Valid() && SameSources(env.known, known)
    ensures WalkCss(env.(known := known), n, st) == WalkCss(env, n, st)
    decreases n, 1
  {
    var env2 := env.(known := known);
    match n
    case Rule(_, _, _, _) =>
      var (entered, rule) := OpenRule(env, n, st);
      WalkSeqSeesSources(env, known, n.nodes, 0, entered);
      assert WalkRule(env2, n, st) == WalkRule(env, n, st);
    case Decl(_, _, _, _, _, _) =>
      assert WalkDecl(env2, n, st) == WalkDecl(env, n, st);
    case Comment =>
    case AtRule(name, _, _, _, _) =>
      if name == "import" {
        ImportSeesSources(env, known, n);
        assert WalkImport(env2, n, st) == WalkImport(env, n, st);
      } else {
        if |n.nodes| > 0 {
          WalkSeqSeesSources(env, known, n.nodes, 0, PutIn(st, "@" + n.name + " " + n.params + "{", Scope(true, ScopeName(n.name))));
        }
        assert WalkAtRule(env2, n, st) == WalkAtRule(env, n, st);
      }
  }

  lemma WalkSeqSeesSources(env: EncEnv, known: seq<Template>, ns: seq<CssNode>, i: nat, st: EncState)
    requires i <= |ns| && st.sink.Valid() && SameSources(env.known, known)
    ensures WalkSeqCss(env.(known := known), ns, i, st) == WalkSeqCss(env, ns, i, st)
    decreases ns, |ns| - i
  {
    if i < |ns| {
      WalkSeesSources(env, known, ns[i], st);
      match WalkCss(env, ns[i], st)
      case Err(_) =>
      case Ok(mid) => WalkSeqSeesSources(env, known, ns, i + 1, mid);
    }
  }

  /**
   * `parseJs` gives the same answer for any two lists with the same paths
   * and contents: the rest of a template (its tokens, edges, parents and
   * output) never reaches it.
   */
  lemma ParseJsSeesSources(env: EncEnv, known: seq<Template>, content: string, parse: string -> Result<seq<CssNode>, string>)
    requires SameSources(env.known, known)
    ensures ParseJs(env.(known := known), content, parse) == ParseJs(env, content, parse)
  {
    if Trim(content) != "" && parse(content).Ok? {
      WalkSeqSeesSources(env, known, parse(content).value, 0, EncState(EmptySink(), TopLevel, "", []));
    }
  }
}
