/**
 * `ruleSelectorWalker` and `transformRuleSelector`: the encoding of a rule's
 * selectors. Classes that open a scoping unit are split off behind a
 * scope-suffix marker, element names are moved into the component namespace,
 * and id or attribute selectors raise the rule's diagnostic.
 */
module SelectorEncoder {
  import opened Wrappers
  import opened Strings
  import opened Tokens
  import opened Ast

  const InvalidSelectorText: string :=
    "Some selectors are not allowed in component wxss, including tag name selectors, ID selectors, and attribute selectors."

  /** The diagnostic recorded for a disallowed selector at `path:line:column`. */
  function Diagnostic(path: string, line: int, column: int): (d: string)
    ensures d != ""
  {
    InvalidSelectorText + "(" + path + ":" + IntToString(line) + ":" + IntToString(column) + ")"
  }

  /** What the selector walk reads about its surroundings. */
  datatype SelCtx = SelCtx(
    insideAtrule: bool,
    atruleName: string,
    path: string,
    ruleSelector: string,
    ruleStart: Pos)

  /** Per-rule state: whether the rule's original selector is worth annotating, and its diagnostic. */
  datatype RuleState = RuleState(needOrigin: bool, diag: string)

  datatype SelState = SelState(sink: Sink, rule: RuleState)

  /** Element names are namespaced outside at-rules and inside `@media`. */
  predicate PrefixTags(ctx: SelCtx) {
    !ctx.insideAtrule || ctx.atruleName == "media"
  }

  /** The component-namespace form of an element name. */
  function RewriteTag(name: string): (r: string)
    ensures r == "body" || (|r| >= 3 && r[..3] == "wx-")
    ensures r == "body" <==> name == "page" || name == "Page"
    ensures name != "page" && name != "Page" && |name| >= 3 && name[..3] == "wx-" ==> r == name
    ensures r != name ==> r == "body" || r == "wx-" + name
  {
    if name == "page" || name == "Page" then "body"
    else if |name| >= 3 && name[..3] == "wx-" then
      assert name[0] == 'w' && "body"[0] == 'b';
      name
    else
      assert ("wx-" + name)[0] == 'w' && "body"[0] == 'b';
      "wx-" + name
  }

  /** The text a tag selector becomes. */
  function TagText(ctx: SelCtx, name: string, inPseudo: bool): string {
    if inPseudo || !PrefixTags(ctx) then name else RewriteTag(name)
  }

  /** A namespaced tag makes the rule worth an original-selector annotation. */
  predicate TagOrigin(ctx: SelCtx, name: string, inPseudo: bool) {
    !inPseudo && PrefixTags(ctx) && !(name != "page" && name != "Page" && |name| >= 3 && name[..3] == "wx-")
  }

  /** A class opens a scoping unit when it comes first, or after a descendant combinator or a tag. */
  predicate Leading(first: bool, prev: Option<SelNode>) {
    first || (prev.Some? && (prev.value == Combinator(" ") || prev.value.Tag?))
  }

  function Previous(sel: Selector, i: nat): Option<SelNode>
    requires i <= |sel.nodes|
  {
    if 0 < i then Some(sel.nodes[i - 1]) else None
  }

  /** The first diagnostic wins: `d` if already set, else the first of `ds`. */
  function KeepFirst(d: string, ds: seq<string>): string {
    if d != "" then d else if |ds| > 0 then ds[0] else ""
  }

  lemma KeepFirstAppend(d: string, a: seq<string>, b: seq<string>)
    requires forall i :: 0 <= i < |a| ==> a[i] != ""
    ensures KeepFirst(KeepFirst(d, a), b) == KeepFirst(d, a + b)
  {
  }

  // ---------------------------------------------------------------------------
  // Reference definitions: the text, diagnostics and annotation need of a selector
  // ---------------------------------------------------------------------------

  /** The selector text a node stands for once decoded with an empty suffix. */
  function PlainNode(ctx: SelCtx, n: SelNode, inPseudo: bool): string
    decreases n, 1
  {
    match n
    case Attribute(a, op, v) => "[" + a + op + v + "]"
    case Class(name) => "." + name
    case Id(name) => "#" + name
    case Tag(name) => TagText(ctx, name, inPseudo)
    case Pseudo(name, args) =>
      if |args| > 0 then name + "(" + PlainArgs(ctx, n, 0) + ")" else name
    case Universal(v) => v
    case Combinator(v) => v
    case OtherSel => ""
  }

  function PlainNodes(ctx: SelCtx, sel: Selector, i: nat, inPseudo: bool): string
    requires i <= |sel.nodes|
    decreases sel, 0, |sel.nodes| - i
  {
    if i == |sel.nodes| then ""
    else PlainNode(ctx, sel.nodes[i], inPseudo) + PlainNodes(ctx, sel, i + 1, inPseudo)
  }

  function PlainArgs(ctx: SelCtx, p: SelNode, k: nat): string
    requires p.Pseudo? && k <= |p.args|
    decreases p, 0, |p.args| - k
  {
    if k == |p.args| then ""
    else PlainNodes(ctx, p.args[k], 0, true) + PlainArgs(ctx, p, k + 1)
  }

  /** The diagnostics of a node's id and attribute selectors, in document order. */
  function BannedNode(ctx: SelCtx, n: SelNode): (ds: seq<string>)
    ensures forall i :: 0 <= i < |ds| ==> ds[i] != ""
    decreases n, 1
  {
    match n
    case Attribute(a, _, _) =>
      [Diagnostic(ctx.path, ctx.ruleStart.line, IndexOf(ctx.ruleSelector, a) + ctx.ruleStart.column)]
    case Id(name) =>
      [Diagnostic(ctx.path, ctx.ruleStart.line, IndexOf(ctx.ruleSelector, name) - 1 + ctx.ruleStart.column)]
    case Pseudo(_, _) => BannedArgs(ctx, n, 0)
    case _ => []
  }

  function BannedNodes(ctx: SelCtx, sel: Selector, i: nat): (ds: seq<string>)
    requires i <= |sel.nodes|
    ensures forall j :: 0 <= j < |ds| ==> ds[j] != ""
    decreases sel, 0, |sel.nodes| - i
  {
    if i == |sel.nodes| then [] else BannedNode(ctx, sel.nodes[i]) + BannedNodes(ctx, sel, i + 1)
  }

  function BannedArgs(ctx: SelCtx, p: SelNode, k: nat): (ds: seq<string>)
    requires p.Pseudo? && k <= |p.args|
    ensures forall j :: 0 <= j < |ds| ==> ds[j] != ""
    decreases p, 0, |p.args| - k
  {
    if k == |p.args| then [] else BannedNodes(ctx, p.args[k], 0) + BannedArgs(ctx, p, k + 1)
  }

  /** Whether a node makes its rule worth an original-selector annotation. */
  predicate OriginNode(ctx: SelCtx, n: SelNode, first: bool, prev: Option<SelNode>, inPseudo: bool)
    decreases n, 1
  {
    match n
    case Class(_) => Leading(first, prev)
    case Tag(name) => TagOrigin(ctx, name, inPseudo)
    case Pseudo(_, _) => OriginArgs(ctx, n, 0)
    case _ => false
  }

  predicate OriginNodes(ctx: SelCtx, sel: Selector, i: nat, inPseudo: bool)
    requires i <= |sel.nodes|
    decreases sel, 0, |sel.nodes| - i
  {
    i < |sel.nodes| &&
    (OriginNode(ctx, sel.nodes[i], i == 0, Previous(sel, i), inPseudo) || OriginNodes(ctx, sel, i + 1, inPseudo))
  }

  predicate OriginArgs(ctx: SelCtx, p: SelNode, k: nat)
    requires p.Pseudo? && k <= |p.args|
    decreases p, 0, |p.args| - k
  {
    k < |p.args| && (OriginNodes(ctx, p.args[k], 0, true) || OriginArgs(ctx, p, k + 1))
  }

  /**
   * The symbols a node encodes to: its selector text, except that a leading
   * class is `.`, the scope-suffix marker, then the class name.
   */
  function EncodedNode(ctx: SelCtx, n: SelNode, first: bool, prev: Option<SelNode>, inPseudo: bool): seq<Sym>
    decreases n, 1
  {
    match n
    case Attribute(a, op, v) => Chars("[" + a + op + v + "]")
    case Class(name) =>
      if Leading(first, prev) then Chars(".") + [Mark(Suffix)] + Chars(name) else Chars("." + name)
    case Id(name) => Chars("#" + name)
    case Tag(name) => Chars(TagText(ctx, name, inPseudo))
    case Pseudo(name, args) =>
      if |args| > 0 then Chars(name + "(") + EncodedArgs(ctx, n, 0) + Chars(")") else Chars(name)
    case Universal(v) => Chars(v)
    case Combinator(v) => Chars(v)
    case OtherSel => []
  }

  function EncodedNodes(ctx: SelCtx, sel: Selector, i: nat, inPseudo: bool): seq<Sym>
    requires i <= |sel.nodes|
    decreases sel, 0, |sel.nodes| - i
  {
    if i == |sel.nodes| then []
    else EncodedNode(ctx, sel.nodes[i], i == 0, Previous(sel, i), inPseudo) + EncodedNodes(ctx, sel, i + 1, inPseudo)
  }

  function EncodedArgs(ctx: SelCtx, p: SelNode, k: nat): seq<Sym>
    requires p.Pseudo? && k <= |p.args|
    decreases p, 0, |p.args| - k
  {
    if k == |p.args| then []
    else EncodedNodes(ctx, p.args[k], 0, true) + EncodedArgs(ctx, p, k + 1)
  }

  /** The selector list's symbols: each selector's, separated by `, `. */
  function EncodedSelectors(ctx: SelCtx, sels: seq<Selector>): seq<Sym>
    decreases |sels|
  {
    if |sels| == 0 then []
    else if |sels| == 1 then EncodedNodes(ctx, sels[0], 0, false)
    else EncodedNodes(ctx, sels[0], 0, false) + Chars(", ") + EncodedSelectors(ctx, sels[1..])
  }

  /** The encoding loses no selector text: shown with an empty suffix, a node's symbols are its text. */
  lemma {:induction false} ShownNode(ctx: SelCtx, n: SelNode, first: bool, prev: Option<SelNode>, inPseudo: bool)
    ensures Shown(EncodedNode(ctx, n, first, prev, inPseudo)) == PlainNode(ctx, n, inPseudo)
    decreases n, 1
  {
    match n
    case Attribute(a, op, v) => ShownChars("[" + a + op + v + "]");
    case Class(name) =>
      if Leading(first, prev) {
        ShownAppend(Chars(".") + [Mark(Suffix)], Chars(name));
        ShownAppend(Chars("."), [Mark(Suffix)]);
        ShownChars(".");
        ShownChars(name);
        assert Shown([Mark(Suffix)]) == "";
      } else {
        ShownChars("." + name);
      }
    case Id(name) => ShownChars("#" + name);
    case Tag(name) => ShownChars(TagText(ctx, name, inPseudo));
    case Pseudo(name, args) =>
      if |args| > 0 {
        ShownArgs(ctx, n, 0);
        ShownAppend(Chars(name + "(") + EncodedArgs(ctx, n, 0), Chars(")"));
        ShownAppend(Chars(name + "("), EncodedArgs(ctx, n, 0));
        ShownChars(name + "(");
        ShownChars(")");
      } else {
        ShownChars(name);
      }
    case Universal(v) => ShownChars(v);
    case Combinator(v) => ShownChars(v);
    case OtherSel =>
  }

  lemma {:induction false} ShownNodes(ctx: SelCtx, sel: Selector, i: nat, inPseudo: bool)
    requires i <= |sel.nodes|
    ensures Shown(EncodedNodes(ctx, sel, i, inPseudo)) == PlainNodes(ctx, sel, i, inPseudo)
    decreases sel, 0, |sel.nodes| - i
  {
    if i < |sel.nodes| {
      ShownNode(ctx, sel.nodes[i], i == 0, Previous(sel, i), inPseudo);
      ShownNodes(ctx, sel, i + 1, inPseudo);
      ShownAppend(EncodedNode(ctx, sel.nodes[i], i == 0, Previous(sel, i), inPseudo), EncodedNodes(ctx, sel, i + 1, inPseudo));
    }
  }

  lemma {:induction false} ShownArgs(ctx: SelCtx, p: SelNode, k: nat)
    requires p.Pseudo? && k <= |p.args|
    ensures Shown(EncodedArgs(ctx, p, k)) == PlainArgs(ctx, p, k)
    decreases p, 0, |p.args| - k
  {
    if k < |p.args| {
      ShownNodes(ctx, p.args[k], 0, true);
      ShownArgs(ctx, p, k + 1);
      ShownAppend(EncodedNodes(ctx, p.args[k], 0, true), EncodedArgs(ctx, p, k + 1));
    }
  }

  /** The selector list's symbols, shown, are the selector list's text. */
  lemma {:induction false} ShownSelectors(ctx: SelCtx, sels: seq<Selector>)
    ensures Shown(EncodedSelectors(ctx, sels)) == PlainSelectors(ctx, sels)
    decreases |sels|
  {
    if |sels| > 0 {
      ShownNodes(ctx, sels[0], 0, false);
      assert PlainEach(ctx, sels) == [PlainNodes(ctx, sels[0], 0, false)] + PlainEach(ctx, sels[1..]);
      if |sels| > 1 {
        ShownSelectors(ctx, sels[1..]);
        ShownAppend(EncodedNodes(ctx, sels[0], 0, false) + Chars(", "), EncodedSelectors(ctx, sels[1..]));
        ShownAppend(EncodedNodes(ctx, sels[0], 0, false), Chars(", "));
        ShownChars(", ");
      }
    }
  }

  // ---------------------------------------------------------------------------
  // The walk
  // ---------------------------------------------------------------------------

  /** The state a walk over symbols `t`, diagnostics `ds` and annotation need `o` leads to. */
  predicate Walked(st: SelState, r: SelState, t: seq<Sym>, ds: seq<string>, o: bool) {
    && r.sink.Valid()
    && r.sink.Content() == st.sink.Content() + t
    && Refs(r.sink.toks) == Refs(st.sink.toks)
    && r.rule.diag == KeepFirst(st.rule.diag, ds)
    && r.rule.needOrigin == (st.rule.needOrigin || o)
  }

  lemma WalkedChain(st: SelState, mid: SelState, r: SelState, t1: seq<Sym>, ds1: seq<string>, o1: bool,
                    t2: seq<Sym>, ds2: seq<string>, o2: bool)
    requires Walked(st, mid, t1, ds1, o1) && Walked(mid, r, t2, ds2, o2)
    requires forall i :: 0 <= i < |ds1| ==> ds1[i] != ""
    ensures Walked(st, r, t1 + t2, ds1 + ds2, o1 || o2)
  {
    KeepFirstAppend(st.rule.diag, ds1, ds2);
  }

  /** `ruleSelectorWalker` on one node. */
  function WalkNode(ctx: SelCtx, n: SelNode, first: bool, prev: Option<SelNode>, inPseudo: bool, st: SelState): (r: SelState)
    requires st.sink.Valid()
    ensures Walked(st, r, EncodedNode(ctx, n, first, prev, inPseudo), BannedNode(ctx, n), OriginNode(ctx, n, first, prev, inPseudo))
    decreases n, 1
  {
    match n
    case Class(name) => WalkClass(ctx, n, first, prev, inPseudo, st)
    case Pseudo(_, _) => WalkPseudo(ctx, n, st)
    case _ => WalkPlain(ctx, n, inPseudo, st)
  }

  /** A class: split off behind the suffix marker when it leads, else plain text. */
  function WalkClass(ctx: SelCtx, n: SelNode, first: bool, prev: Option<SelNode>, inPseudo: bool, st: SelState): (r: SelState)
    requires st.sink.Valid() && n.Class?
    ensures Walked(st, r, EncodedNode(ctx, n, first, prev, inPseudo), [], Leading(first, prev))
  {
    if Leading(first, prev) then
      var led := st.sink.Lead(n.name);
      var t := Chars(".") + [Mark(Suffix)] + Chars(n.name);
      assert EncodedNode(ctx, n, first, prev, inPseudo) == t;
      ConcatAssoc(st.sink.Content() + Chars("."), [Mark(Suffix)], Chars(n.name));
      ConcatAssoc(st.sink.Content(), Chars("."), [Mark(Suffix)] + Chars(n.name));
      ConcatAssoc(Chars("."), [Mark(Suffix)], Chars(n.name));
      assert led.Content() == st.sink.Content() + t;
      SelState(led, st.rule.(needOrigin := true))
    else SelState(st.sink.Append("." + n.name), st.rule)
  }

  /** A node other than a class or a pseudo: its text, and for an id or attribute the rule's diagnostic. */
  function WalkPlain(ctx: SelCtx, n: SelNode, inPseudo: bool, st: SelState): (r: SelState)
    requires st.sink.Valid() && !n.Class? && !n.Pseudo?
    ensures Walked(st, r, EncodedNode(ctx, n, false, None, inPseudo), BannedNode(ctx, n), OriginNode(ctx, n, false, None, inPseudo))
  {
    match n
    case Attribute(a, op, v) =>
      var d := KeepFirst(st.rule.diag, BannedNode(ctx, n));
      SelState(st.sink.Append("[" + a + op + v + "]"), st.rule.(diag := d))
    case Id(name) =>
      var d := KeepFirst(st.rule.diag, BannedNode(ctx, n));
      SelState(st.sink.Append("#" + name), st.rule.(diag := d))
    case Tag(name) =>
      var o := st.rule.needOrigin || TagOrigin(ctx, name, inPseudo);
      SelState(st.sink.Append(TagText(ctx, name, inPseudo)), st.rule.(needOrigin := o))
    case Universal(v) => SelState(st.sink.Append(v), st.rule)
    case Combinator(v) => SelState(st.sink.Append(v), st.rule)
    case OtherSel => st
  }

  /** A pseudo-class or pseudo-element: its name, then its argument selectors in parentheses. */
  function WalkPseudo(ctx: SelCtx, p: SelNode, st: SelState): (r: SelState)
    requires p.Pseudo? && st.sink.Valid()
    ensures Walked(st, r, EncodedNode(ctx, p, false, None, false), BannedNode(ctx, p), OriginArgs(ctx, p, 0))
    decreases p, 0, |p.args| + 1
  {
    if |p.args| > 0 then
      var entered := SelState(st.sink.Append(p.name + "("), st.rule);
      var inner := WalkArgs(ctx, p, 0, entered);
      var r := SelState(inner.sink.Append(")"), inner.rule);
      assert r.sink.Content() == st.sink.Content() + (Chars(p.name + "(") + EncodedArgs(ctx, p, 0) + Chars(")"));
      r
    else
      assert EncodedArgs(ctx, p, 0) == [] && !OriginArgs(ctx, p, 0);
      SelState(st.sink.Append(p.name), st.rule)
  }

  /** The children of a selector node, in order. */
  function WalkNodes(ctx: SelCtx, sel: Selector, i: nat, inPseudo: bool, st: SelState): (r: SelState)
    requires i <= |sel.nodes| && st.sink.Valid()
    ensures Walked(st, r, EncodedNodes(ctx, sel, i, inPseudo), BannedNodes(ctx, sel, i), OriginNodes(ctx, sel, i, inPseudo))
    decreases sel, 0, |sel.nodes| - i
  {
    if i == |sel.nodes| then st
    else
      var n := sel.nodes[i];
      var mid := WalkNode(ctx, n, i == 0, Previous(sel, i), inPseudo, st);
      var r := WalkNodes(ctx, sel, i + 1, inPseudo, mid);
      WalkedChain(st, mid, r, EncodedNode(ctx, n, i == 0, Previous(sel, i), inPseudo), BannedNode(ctx, n), OriginNode(ctx, n, i == 0, Previous(sel, i), inPseudo),
                  EncodedNodes(ctx, sel, i + 1, inPseudo), BannedNodes(ctx, sel, i + 1), OriginNodes(ctx, sel, i + 1, inPseudo));
      r
  }

  /** The argument selectors of a pseudo-class, each walked as a selector inside a pseudo. */
  function WalkArgs(ctx: SelCtx, p: SelNode, k: nat, st: SelState): (r: SelState)
    requires p.Pseudo? && k <= |p.args| && st.sink.Valid()
    ensures Walked(st, r, EncodedArgs(ctx, p, k), BannedArgs(ctx, p, k), OriginArgs(ctx, p, k))
    decreases p, 0, |p.args| - k
  {
    if k == |p.args| then st
    else
      var mid := WalkNodes(ctx, p.args[k], 0, true, st);
      var r := WalkArgs(ctx, p, k + 1, mid);
      WalkedChain(st, mid, r, EncodedNodes(ctx, p.args[k], 0, true), BannedNodes(ctx, p.args[k], 0), OriginNodes(ctx, p.args[k], 0, true),
                  EncodedArgs(ctx, p, k + 1), BannedArgs(ctx, p, k + 1), OriginArgs(ctx, p, k + 1));
      r
  }

  // ---------------------------------------------------------------------------
  // A rule's selector list
  // ---------------------------------------------------------------------------

  /** The selector list as text: each selector's text, separated by `, `. */
  function PlainSelectors(ctx: SelCtx, sels: seq<Selector>): string {
    Join(PlainEach(ctx, sels), ", ")
  }

  function PlainEach(ctx: SelCtx, sels: seq<Selector>): (ts: seq<string>)
    ensures |ts| == |sels|
    decreases |sels|
  {
    if |sels| == 0 then [] else [PlainNodes(ctx, sels[0], 0, false)] + PlainEach(ctx, sels[1..])
  }

  function BannedSelectors(ctx: SelCtx, sels: seq<Selector>): (ds: seq<string>)
    ensures forall j :: 0 <= j < |ds| ==> ds[j] != ""
    decreases |sels|
  {
    if |sels| == 0 then [] else BannedNodes(ctx, sels[0], 0) + BannedSelectors(ctx, sels[1..])
  }

  predicate OriginSelectors(ctx: SelCtx, sels: seq<Selector>)
    decreases |sels|
  {
    |sels| > 0 && (OriginNodes(ctx, sels[0], 0, false) || OriginSelectors(ctx, sels[1..]))
  }

  /**
   * `transformRuleSelector`: every selector of the rule in turn, with `, `
   * between consecutive ones. The symbols are the selector list's; the rule's
   * diagnostic is the first id or attribute selector's, unless one was set.
   */
  function WalkSelectors(ctx: SelCtx, sels: seq<Selector>, st: SelState): (r: SelState)
    requires st.sink.Valid()
    ensures Walked(st, r, EncodedSelectors(ctx, sels), BannedSelectors(ctx, sels), OriginSelectors(ctx, sels))
    decreases |sels|
  {
    if |sels| == 0 then st
    else
      var t1 := EncodedNodes(ctx, sels[0], 0, false);
      var ds1 := BannedNodes(ctx, sels[0], 0);
      var o1 := OriginNodes(ctx, sels[0], 0, false);
      var mid := WalkNodes(ctx, sels[0], 0, false, st);
      if |sels| == 1 then
        assert BannedSelectors(ctx, sels) == ds1 + [];
        mid
      else
        var sep := SelState(mid.sink.Append(", "), mid.rule);
        var r := WalkSelectors(ctx, sels[1..], sep);
        WalkedChain(st, mid, sep, t1, ds1, o1, Chars(", "), [], false);
        assert ds1 + [] == ds1;
        WalkedChain(st, sep, r, t1 + Chars(", "), ds1, o1,
                    EncodedSelectors(ctx, sels[1..]), BannedSelectors(ctx, sels[1..]), OriginSelectors(ctx, sels[1..]));
        r
  }
}
