/**
 * Code generation: which templates go into the shared chunk table, the chunk
 * index of each, the renumbering of `[2, i]` references from template
 * indices to chunk indices, the shared bundle script (`comm`) and the
 * invocation each template is compiled to.
 */
module CodeGen {
  import opened Wrappers
  import opened Strings
  import opened Tokens
  import opened Model
  import opened Util
  import opened ImportGraph
  import opened Runtime

  /** The path of the application-wide stylesheet. */
  const AppWxssPath := "./app.wxss"

  // ---------------------------------------------------------------------------
  // Eligibility for the chunk table
  // ---------------------------------------------------------------------------

  /**
   * A root template is kept out of the chunk table unless it is the
   * application stylesheet and has content. (The source also tests the
   * encoded list for falsity, which an array never is.)
   */
  predicate KeptOut(t: Template) {
    t.path != AppWxssPath || t.content == ""
  }

  /** Clears `needComm` on every listed root that is kept out, in list order. */
  function MarkRoots(ts: seq<Template>, roots: seq<nat>): (r: seq<Template>)
    requires forall k :: 0 <= k < |roots| ==> roots[k] < |ts|
    ensures |r| == |ts|
    ensures forall i :: 0 <= i < |ts| ==> r[i] == ts[i].(needComm := r[i].needComm)
    ensures forall i :: 0 <= i < |ts| ==>
              (r[i].needComm <==> ts[i].needComm && !(i in roots && KeptOut(ts[i])))
    decreases |roots|
  {
    if |roots| == 0 then ts
    else
      var root := roots[0];
      var next := if KeptOut(ts[root]) then ts[root := ts[root].(needComm := false)] else ts;
      MarkRoots(next, roots[1..])
  }

  // ---------------------------------------------------------------------------
  // Chunk indices
  // ---------------------------------------------------------------------------

  /** The number of eligible templates at positions `a` up to (not including) `b`. */
  function CountIn(ts: seq<Template>, a: nat, b: nat): nat
    requires a <= b <= |ts|
    decreases b - a
  {
    if a == b then 0 else (if ts[a].needComm then 1 else 0) + CountIn(ts, a + 1, b)
  }

  lemma {:induction false} CountSplit(ts: seq<Template>, a: nat, b: nat, c: nat)
    requires a <= b <= c <= |ts|
    ensures CountIn(ts, a, c) == CountIn(ts, a, b) + CountIn(ts, b, c)
    decreases b - a
  {
    if a < b {
      CountSplit(ts, a + 1, b, c);
    }
  }

  /** Counts depend only on the eligibility flags. */
  lemma {:induction false} CountSameFlags(ts: seq<Template>, us: seq<Template>, a: nat, b: nat)
    requires a <= b <= |ts| == |us|
    requires forall k :: a <= k < b ==> ts[k].needComm == us[k].needComm
    ensures CountIn(ts, a, b) == CountIn(us, a, b)
    decreases b - a
  {
    if a < b {
      CountSameFlags(ts, us, a + 1, b);
    }
  }

  /** Lists that agree on the flags from `a` on have the same counts from `a`. */
  lemma CountsAgree(ts: seq<Template>, us: seq<Template>, a: nat)
    requires a <= |ts| == |us|
    requires forall k :: a <= k < |ts| ==> ts[k].needComm == us[k].needComm
    ensures forall b: nat :: a <= b <= |ts| ==> CountIn(ts, a, b) == CountIn(us, a, b)
  {
    forall b: nat | a <= b <= |ts|
      ensures CountIn(ts, a, b) == CountIn(us, a, b)
    {
      CountSameFlags(ts, us, a, b);
    }
  }

  /** Numbers the eligible templates from `i` on consecutively, starting at `next`. */
  function AssignFrom(ts: seq<Template>, i: nat, next: nat): (r: seq<Template>)
    requires i <= |ts|
    ensures |r| == |ts|
    ensures forall j :: 0 <= j < i ==> r[j] == ts[j]
    ensures forall j :: i <= j < |ts| ==>
              r[j] == (if ts[j].needComm then ts[j].(commIndex := next + CountIn(ts, i, j)) else ts[j])
    decreases |ts| - i
  {
    if i == |ts| then ts
    else if ts[i].needComm then
      var ts' := ts[i := ts[i].(commIndex := next)];
      var r := AssignFrom(ts', i + 1, next + 1);
      CountsAgree(ts', ts, i + 1);
      r
    else
      AssignFrom(ts, i + 1, next)
  }

  /** The chunk index every eligible template has once numbering is done. */
  predicate Numbered(ts: seq<Template>) {
    forall j :: 0 <= j < |ts| && ts[j].needComm ==> ts[j].commIndex == CountIn(ts, 0, j)
  }

  /**
   * Numbers the eligible templates 0, 1, 2, … in template order; nothing else
   * changes.
   */
  function AssignChunks(ts: seq<Template>): (r: seq<Template>)
    ensures |r| == |ts|
    ensures forall j :: 0 <= j < |ts| ==> r[j] == ts[j].(commIndex := r[j].commIndex)
    ensures forall j :: 0 <= j < |ts| && !ts[j].needComm ==> r[j] == ts[j]
    ensures Numbered(r)
  {
    var r := AssignFrom(ts, 0, 0);
    forall j | 0 <= j < |ts|
      ensures CountIn(r, 0, j) == CountIn(ts, 0, j)
    {
      CountSameFlags(r, ts, 0, j);
    }
    r
  }

  /**
   * The chunk indices are exactly 0 up to the number of eligible templates,
   * each used once, increasing in template order.
   */
  lemma ChunkIndicesContiguous(ts: seq<Template>)
    requires Numbered(ts)
    ensures forall i, j :: 0 <= i < j < |ts| && ts[i].needComm && ts[j].needComm ==>
              ts[i].commIndex < ts[j].commIndex
    ensures forall j :: 0 <= j < |ts| && ts[j].needComm ==> ts[j].commIndex < CountIn(ts, 0, |ts|)
    ensures forall k: nat :: k in ChunkIndexSet(ts) <==> k < CountIn(ts, 0, |ts|)
  {
    forall i, j | 0 <= i < j < |ts| && ts[i].needComm && ts[j].needComm
      ensures ts[i].commIndex < ts[j].commIndex
    {
      CountSplit(ts, 0, i, j);
    }
    forall j | 0 <= j < |ts| && ts[j].needComm
      ensures ts[j].commIndex < CountIn(ts, 0, |ts|)
    {
      CountSplit(ts, 0, j, |ts|);
    }
    forall k: nat | k < CountIn(ts, 0, |ts|)
      ensures k in ChunkIndexSet(ts)
    {
      var j := CountHit(ts, |ts|, k);
      assert ts[j].commIndex == k;
    }
  }

  /** The chunk indices in use. */
  function ChunkIndexSet(ts: seq<Template>): set<nat> {
    set j | 0 <= j < |ts| && ts[j].needComm :: ts[j].commIndex
  }

  /** Some eligible template below `n` is the `k`-th one. */
  lemma {:induction false} CountHit(ts: seq<Template>, n: nat, k: nat) returns (j: nat)
    requires n <= |ts| && k < CountIn(ts, 0, n)
    ensures j < n && ts[j].needComm && CountIn(ts, 0, j) == k
    decreases n
  {
    CountSplit(ts, 0, n - 1, n);
    if k < CountIn(ts, 0, n - 1) {
      j := CountHit(ts, n - 1, k);
    } else {
      j := n - 1;
    }
  }

  // ---------------------------------------------------------------------------
  // Renumbering references
  // ---------------------------------------------------------------------------

  /** A reference marker now names the chunk of the template it named. */
  function Renumber(t: Token, ts: seq<Template>): Token
    requires t.Ref? ==> t.index < |ts|
  {
    if t.Ref? then Ref(ts[t.index].commIndex) else t
  }

  /** Every reference of `a` named a template of `ts`, and `b`'s references are their chunk indices. */
  predicate Renumbered(ts: seq<Template>, a: seq<Token>, b: seq<Token>) {
    && |Refs(b)| == |Refs(a)|
    && forall j :: 0 <= j < |Refs(a)| ==> Refs(a)[j] < |ts| && Refs(b)[j] == ts[Refs(a)[j]].commIndex
  }

  /** Same token kinds position by position; everything but a reference is untouched. */
  predicate SameShape(a: seq<Token>, b: seq<Token>) {
    && |a| == |b|
    && forall k :: 0 <= k < |a| ==> (a[k].Ref? <==> b[k].Ref?) && (!a[k].Ref? ==> b[k] == a[k])
  }

  /** `b` is `a` with every reference marker's template index replaced by that template's chunk index. */
  predicate RenumberedAt(ts: seq<Template>, a: seq<Token>, b: seq<Token>) {
    && SameShape(a, b)
    && forall k :: 0 <= k < |a| && a[k].Ref? ==> a[k].index < |ts| && b[k] == Ref(ts[a[k].index].commIndex)
  }

  /** Rewrites every reference marker of a list from a template index to that template's chunk index. */
  function RewriteTokens(toks: seq<Token>, ts: seq<Template>): (r: seq<Token>)
    requires forall x :: x in Refs(toks) ==> x < |ts|
    ensures RenumberedAt(ts, toks, r)
    decreases |toks|
  {
    if |toks| == 0 then []
    else
      assert Refs(toks) == (if toks[0].Ref? then [toks[0].index] else []) + Refs(toks[1..]);
      assert toks[0].Ref? ==> toks[0].index in Refs(toks);
      assert forall x :: x in Refs(toks[1..]) ==> x in Refs(toks);
      var rest := RewriteTokens(toks[1..], ts);
      var r := [Renumber(toks[0], ts)] + rest;
      assert forall k :: 1 <= k < |toks| ==> r[k] == rest[k - 1] && toks[k] == toks[1..][k - 1];
      r
  }

  /** Renumbering keeps the text and maps the reference list through the chunk indices. */
  lemma {:induction false} RenumberedRefs(ts: seq<Template>, a: seq<Token>, b: seq<Token>)
    requires RenumberedAt(ts, a, b)
    ensures Text(b) == Text(a)
    ensures Renumbered(ts, a, b)
    decreases |a|
  {
    if |a| > 0 {
      assert forall k :: 0 <= k < |a| - 1 ==> a[1..][k] == a[k + 1] && b[1..][k] == b[k + 1];
      RenumberedRefs(ts, a[1..], b[1..]);
      assert a[0].Ref? ==> b[0] == Ref(ts[a[0].index].commIndex);
      assert !a[0].Ref? ==> b[0] == a[0];
      var ha := if a[0].Ref? then [a[0].index] else [];
      var hb := if b[0].Ref? then [b[0].index] else [];
      assert Refs(a) == ha + Refs(a[1..]);
      assert Refs(b) == hb + Refs(b[1..]);
    }
  }

  /** A list of the same shape as a canonical list is canonical. */
  lemma ShapeKeepsCanonical(a: seq<Token>, b: seq<Token>)
    requires SameShape(a, b) && Canonical(a)
    ensures Canonical(b)
  {
    forall i | 0 <= i < |b|
      ensures NonEmptyLit(b[i])
    {
      assert NonEmptyLit(a[i]);
    }
    forall i | 0 < i < |b|
      ensures Joined(b, i)
    {
      assert Joined(a, i);
    }
  }

  /** Every reference of every template names a template of the list. */
  predicate RefsWithin(ts: seq<Template>) {
    forall i :: 0 <= i < |ts| ==> forall x :: x in Refs(ts[i].tokens) ==> x < |ts|
  }

  /**
   * Renumbers the references of every template that has imports; the rest
   * keep their lists. Only the token lists change.
   */
  function RewriteRefs(ts: seq<Template>): (r: seq<Template>)
    requires RefsWithin(ts)
    ensures |r| == |ts|
    ensures forall i :: 0 <= i < |ts| ==> r[i] == ts[i].(tokens := r[i].tokens)
    ensures forall i :: 0 <= i < |ts| && |ts[i].children| == 0 ==> r[i] == ts[i]
    ensures forall i :: 0 <= i < |ts| && |ts[i].children| > 0 ==> RenumberedAt(ts, ts[i].tokens, r[i].tokens)
    ensures forall i :: 0 <= i < |ts| && |ts[i].children| > 0 ==> Renumbered(ts, ts[i].tokens, r[i].tokens)
    ensures forall i :: 0 <= i < |ts| ==> Text(r[i].tokens) == Text(ts[i].tokens)
    ensures forall i :: 0 <= i < |ts| && Canonical(ts[i].tokens) ==> Canonical(r[i].tokens)
  {
    var r := seq(|ts|, i requires 0 <= i < |ts| =>
               if |ts[i].children| > 0 then ts[i].(tokens := RewriteTokens(ts[i].tokens, ts)) else ts[i]);
    forall i | 0 <= i < |ts| && |ts[i].children| > 0
      ensures Text(r[i].tokens) == Text(ts[i].tokens) && Renumbered(ts, ts[i].tokens, r[i].tokens)
      ensures Canonical(ts[i].tokens) ==> Canonical(r[i].tokens)
    {
      RenumberedRefs(ts, ts[i].tokens, r[i].tokens);
      if Canonical(ts[i].tokens) {
        ShapeKeepsCanonical(ts[i].tokens, r[i].tokens);
      }
    }
    r
  }

  // ---------------------------------------------------------------------------
  // The chunk table
  // ---------------------------------------------------------------------------

  /** The JSON lists of the eligible templates among the first `n`, in order. */
  function Chunks(ts: seq<Template>, n: nat): (r: seq<string>)
    requires n <= |ts|
    ensures |r| == CountIn(ts, 0, n)
    decreases n
  {
    if n == 0 then []
    else
      CountSplit(ts, 0, n - 1, n);
      Chunks(ts, n - 1) + (if ts[n - 1].needComm then [Json(ts[n - 1].tokens)] else [])
  }

  /** An eligible template's list sits in the table at the position its count gives. */
  lemma {:induction false} ChunkAt(ts: seq<Template>, x: nat, n: nat)
    requires x < n <= |ts| && ts[x].needComm
    ensures CountIn(ts, 0, x) < |Chunks(ts, n)|
    ensures Chunks(ts, n)[CountIn(ts, 0, x)] == Json(ts[x].tokens)
    decreases n
  {
    if x < n - 1 {
      ChunkAt(ts, x, n - 1);
      assert Chunks(ts, n)[..|Chunks(ts, n - 1)|] == Chunks(ts, n - 1);
    }
  }

  /**
   * The table body as the source builds it: each eligible list is appended,
   * after a comma unless its chunk index is 0.
   */
  function BundleFrom(ts: seq<Template>, i: nat, acc: string): string
    requires i <= |ts|
    decreases |ts| - i
  {
    if i == |ts| then acc
    else if !ts[i].needComm then BundleFrom(ts, i + 1, acc)
    else if ts[i].commIndex == 0 then BundleFrom(ts, i + 1, acc + Json(ts[i].tokens))
    else BundleFrom(ts, i + 1, acc + "," + Json(ts[i].tokens))
  }

  /** The chunk table literal, `_C`. */
  function Bundle(ts: seq<Template>): string {
    "[" + BundleFrom(ts, 0, "") + "]"
  }

  lemma {:induction false} BundleStep(ts: seq<Template>, i: nat)
    requires i <= |ts| && Numbered(ts)
    ensures BundleFrom(ts, i, Join(Chunks(ts, i), ",")) == Join(Chunks(ts, |ts|), ",")
    decreases |ts| - i
  {
    if i < |ts| {
      var c := Chunks(ts, i);
      if ts[i].needComm {
        var x := Json(ts[i].tokens);
        assert Chunks(ts, i + 1) == c + [x];
        assert ts[i].commIndex == |c|;
        if |c| == 0 {
          assert c + [x] == [x];
          assert Join([x], ",") == x && Join(c, ",") + x == x;
          assert BundleFrom(ts, i, Join(c, ",")) == BundleFrom(ts, i + 1, Join(c + [x], ","));
        } else {
          JoinSnoc(c, x, ",");
          assert BundleFrom(ts, i, Join(c, ",")) == BundleFrom(ts, i + 1, Join(c + [x], ","));
        }
      } else {
        assert Chunks(ts, i + 1) == c;
      }
      BundleStep(ts, i + 1);
    }
  }

  /**
   * Once numbered, the table is a well-formed array: the eligible lists in
   * template order, separated by single commas.
   */
  lemma BundleIsJoin(ts: seq<Template>)
    requires Numbered(ts)
    ensures Bundle(ts) == "[" + Join(Chunks(ts, |ts|), ",") + "]"
  {
    BundleStep(ts, 0);
  }

  // ---------------------------------------------------------------------------
  // Invocations
  // ---------------------------------------------------------------------------

  /** The list argument: a reference to the template's chunk, or its own list inline. */
  function ListArg(t: Template): string {
    if t.needComm then "[[2, " + NatToString(t.commIndex) + "]]" else Json(t.tokens)
  }

  /** The diagnostic argument, quoted as written, or `undefined`. */
  function DiagArg(t: Template): string {
    if t.diag != "" then "\"" + t.diag + "\"" else "undefined"
  }

  /** The `setCssToHead(list, diagnostic, { path })` call for a template. */
  function Invocation(t: Template, path: string): string {
    "setCssToHead(\n  " + ListArg(t) + ",\n  " + DiagArg(t) + ",\n  { path: \"" + path + "\" }\n)"
  }

  /** The fault of looking up an entry template that does not exist. */
  const MissingEntryFault := RuntimeFault("TypeError: Cannot read properties of undefined (reading 'comm')")

  /** The template the bundle applies on load: the subpackage's stylesheet, or the application's. */
  function EntryIndex(subpackage: string, appIdx: int, subIdx: int): int {
    if subpackage != "" then subIdx else appIdx
  }

  /** The bundle script before escaping: the runtime with the table spliced in, then the entry's call. */
  function CommCode(rt: Script, ts: seq<Template>, entry: Template): string {
    rt.head + Bundle(ts) + rt.tail + "\n" + Invocation(entry, AppWxssPath) + "();"
  }

  /**
   * The shared bundle, escaped. Fails when the entry index names no template;
   * otherwise unescaping gives back the script (up to the backslash pairs the
   * escape cannot tell apart).
   */
  function GenComm(rt: Script, ts: seq<Template>, subpackage: string, appIdx: int, subIdx: int): (r: Result<string, CompileError>)
    ensures r.Err? <==> !(0 <= EntryIndex(subpackage, appIdx, subIdx) < |ts|)
    ensures r.Err? ==> r.error == MissingEntryFault
    ensures r.Ok? ==> Plain(r.value)
    ensures r.Ok? ==> Unescape(r.value) == FlattenPairs(CommCode(rt, ts, ts[EntryIndex(subpackage, appIdx, subIdx)]))
  {
    var e := EntryIndex(subpackage, appIdx, subIdx);
    if 0 <= e < |ts| then Ok(Escaped(CommCode(rt, ts, ts[e]))) else Err(MissingEntryFault)
  }

  /** `escape`, with its round trip: unescaping gives the text back up to backslash pairs. */
  function Escaped(code: string): (r: string)
    ensures Plain(r)
    ensures Unescape(r) == FlattenPairs(code)
  {
    UnescapeEscape(code);
    Escape(code)
  }

  /** One template's output: kept when already generated, else its escaped invocation under its own path. */
  function GenOne(t: Template): Template {
    if t.out != "" then t else t.(out := Escape(Invocation(t, t.path)), key := t.path)
  }

  /**
   * Generates every template's output. Afterwards every output is non-empty,
   * templates that had one keep it, and the others get the escaped
   * invocation keyed by their path; nothing else changes.
   */
  function GenTemplates(ts: seq<Template>): (r: seq<Template>)
    ensures |r| == |ts|
    ensures forall i :: 0 <= i < |ts| ==> r[i].out != ""
    ensures forall i :: 0 <= i < |ts| && ts[i].out != "" ==> r[i] == ts[i]
    ensures forall i :: 0 <= i < |ts| ==> r[i] == ts[i].(out := r[i].out, key := r[i].key)
    ensures forall i :: 0 <= i < |ts| && ts[i].out == "" ==>
              r[i].key == ts[i].path && Unescape(r[i].out) == FlattenPairs(Invocation(ts[i], ts[i].path))
    ensures forall i :: 0 <= i < |ts| && ts[i].out == "" ==> Plain(r[i].out)
  {
    forall i | 0 <= i < |ts|
      ensures Unescape(Escape(Invocation(ts[i], ts[i].path))) == FlattenPairs(Invocation(ts[i], ts[i].path))
    {
      UnescapeEscape(Invocation(ts[i], ts[i].path));
    }
    seq(|ts|, i requires 0 <= i < |ts| => GenOne(ts[i]))
  }

  /** Generating twice is generating once: outputs already present are never redone. */
  lemma GenTemplatesIdempotent(ts: seq<Template>)
    ensures GenTemplates(GenTemplates(ts)) == GenTemplates(ts)
  {
    var once := GenTemplates(ts);
    var twice := GenTemplates(once);
    assert forall i :: 0 <= i < |ts| ==> twice[i] == once[i];
  }

  // ---------------------------------------------------------------------------
  // The whole stage
  // ---------------------------------------------------------------------------

  /**
   * What the encoder leaves behind: each template's references are its import
   * edges in order, and every imported template exists, records a parent and
   * is still eligible.
   */
  predicate WellLinked(ts: seq<Template>) {
    && (forall i :: 0 <= i < |ts| ==> Refs(ts[i].tokens) == Indices(ts[i].children))
    && (forall i :: 0 <= i < |ts| ==>
          forall x :: x in Indices(ts[i].children) ==> x < |ts| && |ts[x].parents| > 0 && ts[x].needComm)
  }

  datatype Generated = Generated(templates: seq<Template>, comm: string)

  /** Whether a template ends up in the chunk table: it was eligible and is not a root kept out. */
  predicate StaysEligible(t: Template) {
    t.needComm && !(|t.parents| == 0 && KeptOut(t))
  }

  /** `out` holds the final chunk choice for `ts`, numbered. */
  predicate Chosen(ts: seq<Template>, out: seq<Template>) {
    && |out| == |ts|
    && (forall i :: 0 <= i < |ts| ==> (out[i].needComm <==> StaysEligible(ts[i])))
    && Numbered(out)
  }

  /**
   * `out`'s token lists are `ts`'s with the references of importing templates
   * renumbered into `out`'s chunk indices: every other token, rpx and suffix
   * markers included, stays where it was.
   */
  predicate Recoded(ts: seq<Template>, out: seq<Template>) {
    && |out| == |ts|
    && (forall i :: 0 <= i < |ts| ==> Text(out[i].tokens) == Text(ts[i].tokens))
    && (forall i :: 0 <= i < |ts| && Canonical(ts[i].tokens) ==> Canonical(out[i].tokens))
    && (forall i :: 0 <= i < |ts| && |ts[i].children| > 0 ==> RenumberedAt(out, ts[i].tokens, out[i].tokens))
    && (forall i :: 0 <= i < |ts| && |ts[i].children| > 0 ==> Renumbered(out, ts[i].tokens, out[i].tokens))
    && (forall i :: 0 <= i < |ts| && |ts[i].children| == 0 ==> out[i].tokens == ts[i].tokens)
  }

  /** The fields code generation never touches, other than the outputs. */
  predicate SameSource(t: Template, u: Template) {
    && u.path == t.path && u.content == t.content && u.children == t.children
    && u.parents == t.parents && u.diag == t.diag
  }

  /** Eligibility, numbering and renumbering, in the source's order. */
  function Prepare(ts: seq<Template>, roots: seq<nat>): (r: seq<Template>)
    requires WellLinked(ts)
    requires forall x: nat :: x in roots <==> x < |ts| && |ts[x].parents| == 0
    ensures |r| == |ts|
    ensures forall i :: 0 <= i < |ts| ==> SameSource(ts[i], r[i]) && r[i].out == ts[i].out && r[i].key == ts[i].key
    ensures Chosen(ts, r)
    ensures Recoded(ts, r)
  {
    assert forall k :: 0 <= k < |roots| ==> roots[k] < |ts| by {
      forall k | 0 <= k < |roots| ensures roots[k] < |ts| { assert roots[k] in roots; }
    }
    var marked := MarkRoots(ts, roots);
    var numbered := AssignChunks(marked);
    NumberedLinks(ts, marked, numbered);
    var rewritten := RewriteRefs(numbered);
    PreparedChoice(ts, roots, marked, numbered, rewritten);
    PreparedCode(ts, numbered, rewritten);
    rewritten
  }

  lemma NumberedLinks(ts: seq<Template>, marked: seq<Template>, numbered: seq<Template>)
    requires WellLinked(ts)
    requires |marked| == |ts| && forall i :: 0 <= i < |ts| ==> marked[i] == ts[i].(needComm := marked[i].needComm)
    requires |numbered| == |ts| && forall i :: 0 <= i < |ts| ==> numbered[i] == marked[i].(commIndex := numbered[i].commIndex)
    ensures RefsWithin(numbered)
    ensures forall i :: 0 <= i < |ts| ==>
              SameSource(ts[i], numbered[i]) && numbered[i].tokens == ts[i].tokens
              && numbered[i].out == ts[i].out && numbered[i].key == ts[i].key
  {
    forall i | 0 <= i < |ts|
      ensures SameSource(ts[i], numbered[i]) && numbered[i].tokens == ts[i].tokens
      ensures numbered[i].out == ts[i].out && numbered[i].key == ts[i].key
    {
      assert numbered[i] == marked[i].(commIndex := numbered[i].commIndex);
      assert marked[i] == ts[i].(needComm := marked[i].needComm);
    }
  }

  lemma PreparedChoice(ts: seq<Template>, roots: seq<nat>, marked: seq<Template>, numbered: seq<Template>, rewritten: seq<Template>)
    requires forall x: nat :: x in roots <==> x < |ts| && |ts[x].parents| == 0
    requires |marked| == |ts|
    requires forall i :: 0 <= i < |ts| ==> (marked[i].needComm <==> ts[i].needComm && !(i in roots && KeptOut(ts[i])))
    requires |numbered| == |ts| && forall i :: 0 <= i < |ts| ==> numbered[i].needComm == marked[i].needComm
    requires |rewritten| == |ts| && forall i :: 0 <= i < |ts| ==>
               rewritten[i].needComm == numbered[i].needComm && rewritten[i].commIndex == numbered[i].commIndex
    requires Numbered(numbered)
    ensures Chosen(ts, rewritten)
  {
    forall j | 0 <= j < |rewritten|
      ensures CountIn(rewritten, 0, j) == CountIn(numbered, 0, j)
    {
      CountSameFlags(rewritten, numbered, 0, j);
    }
    forall i | 0 <= i < |ts|
      ensures rewritten[i].needComm <==> StaysEligible(ts[i])
    {
      assert i in roots <==> |ts[i].parents| == 0;
    }
  }

  lemma PreparedCode(ts: seq<Template>, numbered: seq<Template>, rewritten: seq<Template>)
    requires |numbered| == |ts| && forall i :: 0 <= i < |ts| ==> SameSource(ts[i], numbered[i]) && numbered[i].tokens == ts[i].tokens
    requires RefsWithin(numbered) && rewritten == RewriteRefs(numbered)
    ensures Recoded(ts, rewritten)
    ensures forall i :: 0 <= i < |ts| ==>
              SameSource(numbered[i], rewritten[i]) && rewritten[i].out == numbered[i].out && rewritten[i].key == numbered[i].key
  {
    forall i | 0 <= i < |ts| && |ts[i].children| > 0
      ensures RenumberedAt(rewritten, ts[i].tokens, rewritten[i].tokens)
      ensures Renumbered(rewritten, ts[i].tokens, rewritten[i].tokens)
    {
      assert RenumberedAt(numbered, numbered[i].tokens, rewritten[i].tokens);
      assert Renumbered(numbered, numbered[i].tokens, rewritten[i].tokens);
      assert forall x :: 0 <= x < |ts| ==> rewritten[x].commIndex == numbered[x].commIndex;
    }
  }

  /** The table depends only on the eligibility flags, chunk indices and token lists. */
  lemma {:induction false} BundleSameChunks(ts: seq<Template>, us: seq<Template>, i: nat, acc: string)
    requires i <= |ts| == |us|
    requires forall k :: i <= k < |ts| ==>
               ts[k].needComm == us[k].needComm && ts[k].commIndex == us[k].commIndex && ts[k].tokens == us[k].tokens
    ensures BundleFrom(ts, i, acc) == BundleFrom(us, i, acc)
    decreases |ts| - i
  {
    if i < |ts| {
      var acc' := if !ts[i].needComm then acc
                  else if ts[i].commIndex == 0 then acc + Json(ts[i].tokens)
                  else acc + "," + Json(ts[i].tokens);
      BundleSameChunks(ts, us, i + 1, acc');
    }
  }

  /**
   * The steps after cycle detection, for a given list of roots. It fails only
   * when the entry template is missing; otherwise only the chunk fields, the
   * token lists and the outputs change, every template has an output, and
   * the bundle is the escaped script for the final templates.
   */
  function GenFromRoots(rt: Script, ts: seq<Template>, roots: seq<nat>, subpackage: string, appIdx: int, subIdx: int)
    : (r: Result<Generated, CompileError>)
    requires WellLinked(ts)
    requires forall x: nat :: x in roots <==> x < |ts| && |ts[x].parents| == 0
    ensures r.Ok? <==> 0 <= EntryIndex(subpackage, appIdx, subIdx) < |ts|
    ensures r.Err? ==> r.error == MissingEntryFault
    ensures r.Ok? ==> Generation(rt, ts, r.value, EntryIndex(subpackage, appIdx, subIdx))
  {
    var prepared := Prepare(ts, roots);
    match GenComm(rt, prepared, subpackage, appIdx, subIdx)
    case Err(e) => Err(e)
    case Ok(comm) =>
      var final := GenTemplates(prepared);
      GenerationOf(rt, ts, prepared, final, comm, EntryIndex(subpackage, appIdx, subIdx));
      Ok(Generated(final, comm))
  }

  /** What a successful generation from `ts` with entry `e` delivers. */
  predicate Generation(rt: Script, ts: seq<Template>, g: Generated, e: int) {
    var out := g.templates;
    && |out| == |ts|
    && 0 <= e < |ts|
    && (forall i :: 0 <= i < |ts| ==> SameSource(ts[i], out[i]))
    && Chosen(ts, out)
    && Recoded(ts, out)
    && (forall i :: 0 <= i < |ts| ==> out[i].out != "")
    && (forall i :: 0 <= i < |ts| && ts[i].out != "" ==> out[i].out == ts[i].out && out[i].key == ts[i].key)
    && (forall i :: 0 <= i < |ts| && ts[i].out == "" ==>
          out[i].key == ts[i].path && Unescape(out[i].out) == FlattenPairs(Invocation(out[i], ts[i].path)))
    && (forall i :: 0 <= i < |ts| && ts[i].out == "" ==> Plain(out[i].out))
    && Plain(g.comm)
    && Unescape(g.comm) == FlattenPairs(CommCode(rt, out, out[e]))
  }

  lemma GenerationOf(rt: Script, ts: seq<Template>, prepared: seq<Template>, final: seq<Template>, comm: string, e: int)
    requires |prepared| == |ts| && 0 <= e < |ts|
    requires forall i :: 0 <= i < |ts| ==> SameSource(ts[i], prepared[i]) && prepared[i].out == ts[i].out && prepared[i].key == ts[i].key
    requires Chosen(ts, prepared) && Recoded(ts, prepared)
    requires final == GenTemplates(prepared)
    requires Unescape(comm) == FlattenPairs(CommCode(rt, prepared, prepared[e]))
    requires Plain(comm)
    ensures Generation(rt, ts, Generated(final, comm), e)
  {
    OutputsOnly(prepared, final);
    FinalChosen(ts, prepared, final);
    FinalRecoded(ts, prepared, final);
    BundleSameChunks(prepared, final, 0, "");
    assert Invocation(final[e], AppWxssPath) == Invocation(prepared[e], AppWxssPath);
    assert CommCode(rt, final, final[e]) == CommCode(rt, prepared, prepared[e]);
  }

  /** Output generation changes nothing but the outputs. */
  lemma OutputsOnly(prepared: seq<Template>, final: seq<Template>)
    requires final == GenTemplates(prepared)
    ensures forall i :: 0 <= i < |prepared| ==>
              && SameSource(prepared[i], final[i])
              && final[i].needComm == prepared[i].needComm
              && final[i].commIndex == prepared[i].commIndex
              && final[i].tokens == prepared[i].tokens
    ensures forall i :: 0 <= i < |prepared| ==> Invocation(final[i], prepared[i].path) == Invocation(prepared[i], prepared[i].path)
  {
    forall i | 0 <= i < |prepared|
      ensures SameSource(prepared[i], final[i])
      ensures final[i].needComm == prepared[i].needComm && final[i].commIndex == prepared[i].commIndex
      ensures final[i].tokens == prepared[i].tokens
      ensures Invocation(final[i], prepared[i].path) == Invocation(prepared[i], prepared[i].path)
    {
      assert final[i] == prepared[i].(out := final[i].out, key := final[i].key);
    }
  }

  lemma FinalChosen(ts: seq<Template>, prepared: seq<Template>, final: seq<Template>)
    requires Chosen(ts, prepared) && |final| == |prepared|
    requires forall i :: 0 <= i < |prepared| ==>
               final[i].needComm == prepared[i].needComm && final[i].commIndex == prepared[i].commIndex
    ensures Chosen(ts, final)
  {
    forall j | 0 <= j < |final|
      ensures CountIn(final, 0, j) == CountIn(prepared, 0, j)
    {
      CountSameFlags(final, prepared, 0, j);
    }
  }

  lemma FinalRecoded(ts: seq<Template>, prepared: seq<Template>, final: seq<Template>)
    requires Recoded(ts, prepared) && |final| == |prepared|
    requires forall i :: 0 <= i < |prepared| ==>
               final[i].tokens == prepared[i].tokens && final[i].commIndex == prepared[i].commIndex
    ensures Recoded(ts, final)
  {
    forall i | 0 <= i < |ts| && |ts[i].children| > 0
      ensures RenumberedAt(final, ts[i].tokens, final[i].tokens)
      ensures Renumbered(final, ts[i].tokens, final[i].tokens)
    {
      assert RenumberedAt(prepared, ts[i].tokens, prepared[i].tokens);
      assert Renumbered(prepared, ts[i].tokens, prepared[i].tokens);
    }
  }

  /**
   * The whole stage: cycle detection, then generation from the roots. It
   * fails with the cycle error exactly when the imports have a cycle, and
   * otherwise only when the entry template is missing.
   */
  function GenCode(rt: Script, ts: seq<Template>, subpackage: string, appIdx: int, subIdx: int)
    : (r: Result<Generated, CompileError>)
    requires WellLinked(ts)
    ensures r.Err? ==> r.error.CycleImport? || r.error == MissingEntryFault
    ensures (r.Err? && r.error.CycleImport?) <==> HasCycle(ChildGraph(ts))
    ensures !HasCycle(ChildGraph(ts)) ==> (r.Ok? <==> 0 <= EntryIndex(subpackage, appIdx, subIdx) < |ts|)
    ensures r.Ok? ==> Generation(rt, ts, r.value, EntryIndex(subpackage, appIdx, subIdx))
  {
    LinkedGraph(ts);
    match FindRootNodes(ts)
    case Err(e) => Err(e)
    case Ok(roots) => GenFromRoots(rt, ts, roots, subpackage, appIdx, subIdx)
  }

  /** Every import edge names a template, so the import graph is well formed. */
  lemma LinkedGraph(ts: seq<Template>)
    requires WellLinked(ts)
    ensures ValidGraph(ChildGraph(ts))
  {
    var g := ChildGraph(ts);
    forall i | 0 <= i < |g|
      ensures Targets(g, g[i])
    {
      assert g[i] == Indices(ts[i].children);
    }
  }

  /**
   * After generation every `[2, c]` marker resolves: `c` is a position of the
   * chunk table, and the chunk there is the list of the template the marker's
   * import edge names.
   */
  lemma ReferencesResolve(rt: Script, ts: seq<Template>, g: Generated, e: int)
    requires WellLinked(ts) && Generation(rt, ts, g, e)
    ensures forall i, j :: 0 <= i < |ts| && 0 <= j < |Refs(g.templates[i].tokens)| ==>
              && j < |Indices(ts[i].children)|
              && Refs(g.templates[i].tokens)[j] < |Chunks(g.templates, |ts|)|
              && Chunks(g.templates, |ts|)[Refs(g.templates[i].tokens)[j]]
                   == Json(g.templates[Indices(ts[i].children)[j]].tokens)
  {
    var out := g.templates;
    forall i, j | 0 <= i < |ts| && 0 <= j < |Refs(out[i].tokens)|
      ensures j < |Indices(ts[i].children)|
      ensures Refs(out[i].tokens)[j] < |Chunks(out, |ts|)|
      ensures Chunks(out, |ts|)[Refs(out[i].tokens)[j]] == Json(out[Indices(ts[i].children)[j]].tokens)
    {
      if |ts[i].children| > 0 {
        assert Renumbered(out, ts[i].tokens, out[i].tokens);
        var x := Indices(ts[i].children)[j];
        assert x == Refs(ts[i].tokens)[j];
        assert x in Indices(ts[i].children);
        assert StaysEligible(ts[x]);
        ChunkAt(out, x, |ts|);
      }
    }
  }
}
