/**
 * `transformDeclValueWord`, `isNetUrl`, `transformDeclValueNodeWalker` and
 * `transformDeclValue`: the encoding of a declaration value. Every hyphen
 * piece of a word that is an rpx length becomes an `[0, n]` marker carrying
 * its numeral; everything else is literal text, with local `url(...)` paths
 * tagged for the asset pipeline.
 */
module ValueEncoder {
  import opened Wrappers
  import opened Strings
  import opened Tokens
  import opened Ast
  import opened Model

  // ---------------------------------------------------------------------------
  // The number/unit splitter of the value parser
  // ---------------------------------------------------------------------------

  /** Whether `s` starts like a number: an optional sign, then a digit or a dot and a digit. */
  predicate LikeNumber(s: string) {
    if |s| == 0 then false
    else if s[0] == '+' || s[0] == '-' then
      (|s| > 1 && IsDigit(s[1])) || (|s| > 2 && s[1] == '.' && IsDigit(s[2]))
    else if s[0] == '.' then |s| > 1 && IsDigit(s[1])
    else IsDigit(s[0])
  }

  /** The end of the run of digits starting at `i`. */
  function SkipDigits(s: string, i: nat): (j: nat)
    requires i <= |s|
    ensures i <= j <= |s|
    ensures j == |s| || !IsDigit(s[j])
    decreases |s| - i
  {
    if i < |s| && IsDigit(s[i]) then SkipDigits(s, i + 1) else i
  }

  /** The end of the numeric prefix of a string that looks like a number. */
  function NumberEnd(s: string): (p: nat)
    ensures p <= |s|
    ensures p == |s| || !IsDigit(s[p])
  {
    var p0 := if |s| > 0 && (s[0] == '+' || s[0] == '-') then 1 else 0;
    var p1 := SkipDigits(s, p0);
    var p2 := if p1 + 1 < |s| && s[p1] == '.' && IsDigit(s[p1 + 1]) then SkipDigits(s, p1 + 2) else p1;
    if p2 < |s| && (s[p2] == 'e' || s[p2] == 'E') then
      if p2 + 1 < |s| && IsDigit(s[p2 + 1]) then SkipDigits(s, p2 + 2)
      else if p2 + 2 < |s| && (s[p2 + 1] == '+' || s[p2 + 1] == '-') && IsDigit(s[p2 + 2]) then SkipDigits(s, p2 + 3)
      else p2
    else p2
  }

  /** The value parser's `unit`: a numeric prefix and the unit after it, or nothing. */
  function Unit(s: string): (r: Option<(string, string)>)
    ensures r.Some? <==> LikeNumber(s)
    ensures r.Some? ==> r.value.0 + r.value.1 == s && r.value.0 != ""
    ensures r.Some? ==> r.value.0 == s[..NumberEnd(s)]
  {
    if !LikeNumber(s) then None
    else
      var p := NumberEnd(s);
      assert p > 0 by {
        if s[0] == '+' || s[0] == '-' {
          assert p >= 1;
        } else if s[0] == '.' {
          assert SkipDigits(s, 0) == 0;
          assert NumberEnd(s) >= 2;
        } else {
          assert SkipDigits(s, 0) >= 1;
        }
      }
      assert s[..p] + s[p..] == s;
      Some((s[..p], s[p..]))
  }

  predicate IsRpxSegment(seg: string) {
    Unit(seg).Some? && Unit(seg).value.1 == "rpx"
  }

  /** A run of digits from `i` to a non-digit (or the end) is skipped whole. */
  lemma {:induction false} SkipDigitsRun(s: string, i: nat, j: nat)
    requires i <= j <= |s|
    requires forall k :: i <= k < j ==> IsDigit(s[k])
    requires j == |s| || !IsDigit(s[j])
    ensures SkipDigits(s, i) == j
    decreases j - i
  {
    if i < j {
      SkipDigitsRun(s, i + 1, j);
    }
  }

  /** Digits then `rpx`, optionally signed: the numeral is everything before `rpx`. */
  lemma UnitOfDigitsRpx(sign: string, d: string)
    requires sign == "" || sign == "-" || sign == "+"
    requires AllDigits(d) && d != ""
    ensures Unit(sign + d + "rpx") == Some((sign + d, "rpx"))
    ensures IsRpxSegment(sign + d + "rpx")
  {
    var s := sign + d + "rpx";
    var n := |sign + d|;
    assert s[n] == 'r';
    assert forall k :: |sign| <= k < n ==> s[k] == d[k - |sign|];
    SkipDigitsRun(s, |sign|, n);
    assert s[..n] == sign + d && s[n..] == "rpx";
  }

  /** A decimal before `rpx` is part of the numeral too. */
  lemma UnitOfDecimalRpx(d: string, f: string)
    requires AllDigits(d) && AllDigits(f) && f != ""
    ensures Unit(d + "." + f + "rpx") == Some((d + "." + f, "rpx"))
  {
    var s := d + "." + f + "rpx";
    var n := |d + "." + f|;
    assert s[|d|] == '.' && s[|d| + 1] == f[0] && s[n] == 'r';
    assert forall k :: 0 <= k < |d| ==> s[k] == d[k];
    assert forall k :: |d| + 1 <= k < n ==> s[k] == f[k - |d| - 1];
    SkipDigitsRun(s, 0, |d|);
    SkipDigitsRun(s, |d| + 1, n);
    assert s[..n] == d + "." + f && s[n..] == "rpx";
  }

  /** A unit other than `rpx` leaves the piece literal. */
  lemma OtherUnitIsLiteral(d: string, unit: string)
    requires AllDigits(d) && d != "" && unit != "rpx"
    requires |unit| > 0 && !IsDigit(unit[0]) && unit[0] != '.' && unit[0] != 'e' && unit[0] != 'E'
    ensures !IsRpxSegment(d + unit)
  {
    var s := d + unit;
    assert s[|d|] == unit[0];
    assert forall k :: 0 <= k < |d| ==> s[k] == d[k];
    SkipDigitsRun(s, 0, |d|);
    assert s[|d|..] == unit;
  }

  // ---------------------------------------------------------------------------
  // Words
  // ---------------------------------------------------------------------------

  /** What the value walk reads about its surroundings. */
  datatype ValCtx = ValCtx(keep: bool, path: string, prop: string, between: string, start: Pos)

  /** The value walk's state: the sink and whether an rpx marker has been emitted. */
  datatype ValState = ValState(sink: Sink, hasRpx: bool)

  /** The `k`-th hyphen piece of a word, with the hyphen put back in front after the first. */
  function Segment(parts: seq<string>, k: nat): string
    requires k < |parts|
  {
    if |parts| > 1 && k > 0 then "-" + parts[k] else parts[k]
  }

  /** The pieces from `k` on, concatenated. */
  function Segments(parts: seq<string>, k: nat): string
    requires k <= |parts|
    decreases |parts| - k
  {
    if k == |parts| then "" else Segment(parts, k) + Segments(parts, k + 1)
  }

  predicate RpxFrom(parts: seq<string>, k: nat)
    requires k <= |parts|
    decreases |parts| - k
  {
    k < |parts| && (IsRpxSegment(Segment(parts, k)) || RpxFrom(parts, k + 1))
  }

  /** Whether some hyphen piece of a word is an rpx length. */
  predicate WordHasRpx(w: string) {
    RpxFrom(Split(w, '-'), 0)
  }

  /** Concatenating the pieces with their hyphens restored gives the word back. */
  lemma {:induction false} SegmentsJoin(parts: seq<string>, k: nat)
    requires 1 <= k <= |parts|
    ensures Segments(parts, k) == JoinTail(parts, k)
    decreases |parts| - k
  {
    if k < |parts| {
      SegmentsJoin(parts, k + 1);
    }
  }

  /** `-` + piece for every piece from `k` on. */
  function JoinTail(parts: seq<string>, k: nat): string
    requires k <= |parts|
    decreases |parts| - k
  {
    if k == |parts| then "" else "-" + parts[k] + JoinTail(parts, k + 1)
  }

  lemma {:induction false} JoinIsHeadAndTail(parts: seq<string>)
    requires |parts| >= 1
    ensures Join(parts, "-") == parts[0] + JoinTail(parts, 1)
    decreases |parts|
  {
    if |parts| > 1 {
      JoinIsHeadAndTail(parts[1..]);
      JoinTailShift(parts, 1);
    }
  }

  lemma {:induction false} JoinTailShift(parts: seq<string>, k: nat)
    requires 1 <= k <= |parts|
    ensures JoinTail(parts, k) == JoinTail(parts[1..], k - 1)
    decreases |parts| - k
  {
    if k < |parts| {
      JoinTailShift(parts, k + 1);
    }
  }

  /** The hyphen pieces of a word, concatenated, are the word. */
  lemma WordSegments(w: string)
    ensures Segments(Split(w, '-'), 0) == w
  {
    var parts := Split(w, '-');
    JoinSplit(w, '-');
    JoinIsHeadAndTail(parts);
    SegmentsJoin(parts, 1);
  }

  /** The symbols of one hyphen piece: an rpx length is its marker, anything else its characters. */
  function SegmentSyms(seg: string): seq<Sym> {
    if IsRpxSegment(seg) then [Mark(Rpx(Unit(seg).value.0))] else Chars(seg)
  }

  /** The symbols of the pieces from `k` on. */
  function SegmentsSyms(parts: seq<string>, k: nat): seq<Sym>
    requires k <= |parts|
    decreases |parts| - k
  {
    if k == |parts| then [] else SegmentSyms(Segment(parts, k)) + SegmentsSyms(parts, k + 1)
  }

  /** The symbols a word encodes to: as it stands when rpx are kept, else piece by piece. */
  function WordSyms(ctx: ValCtx, w: string): seq<Sym> {
    if ctx.keep then Chars(w) else SegmentsSyms(Split(w, '-'), 0)
  }

  /** A marker shows as its numeral and `rpx`, so a piece's symbols show as the piece. */
  lemma ShownSegment(seg: string)
    ensures Shown(SegmentSyms(seg)) == seg
  {
    if IsRpxSegment(seg) {
      assert Shown([Mark(Rpx(Unit(seg).value.0))]) == Unit(seg).value.0 + "rpx" + Shown([]);
    } else {
      ShownChars(seg);
    }
  }

  lemma {:induction false} ShownSegments(parts: seq<string>, k: nat)
    requires k <= |parts|
    ensures Shown(SegmentsSyms(parts, k)) == Segments(parts, k)
    decreases |parts| - k
  {
    if k < |parts| {
      ShownSegment(Segment(parts, k));
      ShownSegments(parts, k + 1);
      ShownAppend(SegmentSyms(Segment(parts, k)), SegmentsSyms(parts, k + 1));
    }
  }

  /** The encoding loses no text of a word: its symbols, shown, are the word. */
  lemma ShownWord(ctx: ValCtx, w: string)
    ensures Shown(WordSyms(ctx, w)) == w
  {
    if ctx.keep {
      ShownChars(w);
    } else {
      ShownSegments(Split(w, '-'), 0);
      WordSegments(w);
    }
  }

  /** Without an rpx piece a word's symbols are its characters. */
  lemma {:induction false} SegmentsSymsWithoutRpx(parts: seq<string>, k: nat)
    requires k <= |parts| && !RpxFrom(parts, k)
    ensures SegmentsSyms(parts, k) == Chars(Segments(parts, k))
    decreases |parts| - k
  {
    if k < |parts| {
      SegmentsSymsWithoutRpx(parts, k + 1);
      CharsAppend(Segment(parts, k), Segments(parts, k + 1));
    }
  }

  /** A sink that stays valid, grows by exactly `t` and emits no reference. */
  predicate Grew(a: Sink, b: Sink, t: seq<Sym>) {
    && b.Valid()
    && b.Content() == a.Content() + t
    && Refs(b.toks) == Refs(a.toks)
  }

  lemma GrewChain(a: Sink, b: Sink, c: Sink, t1: seq<Sym>, t2: seq<Sym>)
    requires Grew(a, b, t1) && Grew(b, c, t2)
    ensures Grew(a, c, t1 + t2)
  {
  }

  /** One hyphen piece: an rpx length becomes a marker, anything else literal text. */
  function StepSegment(seg: string, vs: ValState): (r: ValState)
    requires vs.sink.Valid()
    ensures Grew(vs.sink, r.sink, SegmentSyms(seg))
    ensures r.hasRpx == (vs.hasRpx || IsRpxSegment(seg))
    ensures !IsRpxSegment(seg) ==> r.sink.toks == vs.sink.toks && r.sink.buf == vs.sink.buf + seg
    ensures IsRpxSegment(seg) ==>
      r.sink == Sink("", vs.sink.toks + (if vs.sink.buf == "" then [] else [Lit(vs.sink.buf)]) + [Rpx(Unit(seg).value.0)])
  {
    var u := Unit(seg);
    if u.Some? && u.value.1 == "rpx" then
      RefsSingle(Rpx(u.value.0));
      ValState(vs.sink.Emit(Rpx(u.value.0)), true)
    else ValState(vs.sink.Append(seg), vs.hasRpx)
  }

  /** The loop over the hyphen pieces of a word. */
  function WalkSegments(parts: seq<string>, k: nat, vs: ValState): (r: ValState)
    requires k <= |parts| && vs.sink.Valid()
    ensures Grew(vs.sink, r.sink, SegmentsSyms(parts, k))
    ensures r.hasRpx == (vs.hasRpx || RpxFrom(parts, k))
    decreases |parts| - k
  {
    if k == |parts| then vs
    else
      var seg := Segment(parts, k);
      var next := StepSegment(seg, vs);
      var rest := WalkSegments(parts, k + 1, next);
      GrewChain(vs.sink, next.sink, rest.sink, SegmentSyms(seg), SegmentsSyms(parts, k + 1));
      rest
  }

  /** Without an rpx piece the loop only extends the pending literal. */
  lemma {:induction false} SegmentsWithoutRpx(parts: seq<string>, k: nat, vs: ValState)
    requires k <= |parts| && vs.sink.Valid() && !RpxFrom(parts, k)
    ensures WalkSegments(parts, k, vs).sink == Sink(vs.sink.buf + Segments(parts, k), vs.sink.toks)
    decreases |parts| - k
  {
    if k < |parts| {
      var seg, tail := Segment(parts, k), Segments(parts, k + 1);
      var next := StepSegment(seg, vs);
      SegmentsWithoutRpx(parts, k + 1, next);
      assert WalkSegments(parts, k, vs) == WalkSegments(parts, k + 1, next);
      ConcatAssoc(vs.sink.buf, seg, tail);
    }
  }

  /**
   * `transformDeclValueWord`: the word's hyphen pieces in order, each rpx
   * length as a marker, everything else as literal text. In keep-rpx mode
   * the word is literal text as it stands.
   */
  function TransformWord(ctx: ValCtx, w: string, vs: ValState): (r: ValState)
    requires vs.sink.Valid()
    ensures Grew(vs.sink, r.sink, WordSyms(ctx, w))
    ensures r.hasRpx == (vs.hasRpx || (!ctx.keep && WordHasRpx(w)))
    ensures ctx.keep || !WordHasRpx(w) ==> r.sink == Sink(vs.sink.buf + w, vs.sink.toks)
  {
    if ctx.keep then ValState(vs.sink.Append(w), vs.hasRpx)
    else
      WordSegments(w);
      if WordHasRpx(w) then WalkSegments(Split(w, '-'), 0, vs)
      else
        SegmentsWithoutRpx(Split(w, '-'), 0, vs);
        SegmentsSymsWithoutRpx(Split(w, '-'), 0);
        WalkSegments(Split(w, '-'), 0, vs)
  }

  // ---------------------------------------------------------------------------
  // url(...)
  // ---------------------------------------------------------------------------

  /** `isNetUrl`: a protocol-relative, http, https or data url. */
  predicate IsNetUrl(u: string) {
    || (|u| >= 2 && u[..2] == "//")
    || (|u| >= 7 && u[..7] == "http://")
    || (|u| >= 8 && u[..8] == "https://")
    || (|u| >= 4 && u[..4] == "data")
  }

  /** The offset of the first non-space character of the text between property and value, plus one. */
  function BetweenOffset(between: string, i: nat): nat
    requires i <= |between|
    decreases |between| - i
  {
    if i == |between| then 0
    else if between[i] != ' ' then i + 1
    else BetweenOffset(between, i + 1)
  }

  /** The marker appended to a local url: the declaring file, line and column. */
  function LocalPathMark(ctx: ValCtx): string {
    var column := ctx.start.column + |ctx.prop| + BetweenOffset(ctx.between, 0);
    "-do-not-use-local-path-" + ctx.path + "&" + IntToString(ctx.start.line) + "&" + IntToString(column)
  }

  /** The url text written out: marked when it is local, unless rpx are being kept. */
  function UrlText(ctx: ValCtx, arg: ValNode): string {
    var u := arg.Value();
    var marked := if !IsNetUrl(u) && !ctx.keep then u + LocalPathMark(ctx) else u;
    arg.Quote() + marked + arg.Quote()
  }

  /** `value.replace(/\\/g, "\\\\")`: every backslash doubled. */
  function DoubleBackslashes(s: string): (r: string)
    ensures |r| == |s| + multiset(s)['\\']
    decreases |s|
  {
    if |s| == 0 then ""
    else
      assert s == [s[0]] + s[1..];
      (if s[0] == '\\' then "\\\\" else [s[0]]) + DoubleBackslashes(s[1..])
  }

  /** Reads doubled backslashes back as one: the inverse of `DoubleBackslashes`. */
  function HalveBackslashes(r: string): string
    decreases |r|
  {
    if |r| == 0 then ""
    else if |r| >= 2 && r[0] == '\\' && r[1] == '\\' then "\\" + HalveBackslashes(r[2..])
    else [r[0]] + HalveBackslashes(r[1..])
  }

  /** Doubling loses nothing: halving gives the string back. */
  lemma {:induction false} HalveDouble(s: string)
    ensures HalveBackslashes(DoubleBackslashes(s)) == s
    decreases |s|
  {
    if |s| > 0 {
      var rest := DoubleBackslashes(s[1..]);
      HalveDouble(s[1..]);
      if s[0] == '\\' {
        assert DoubleBackslashes(s) == "\\\\" + rest;
        assert ("\\\\" + rest)[2..] == rest;
      } else {
        assert DoubleBackslashes(s) == [s[0]] + rest;
        assert ([s[0]] + rest)[1..] == rest;
      }
      assert s == [s[0]] + s[1..];
    }
  }

  /** Text without a backslash is left as it is. */
  lemma {:induction false} DoubleWithoutBackslash(s: string)
    requires '\\' !in s
    ensures DoubleBackslashes(s) == s
    decreases |s|
  {
    if |s| > 0 {
      assert s[0] != '\\' && '\\' !in s[1..];
      DoubleWithoutBackslash(s[1..]);
      assert s == [s[0]] + s[1..];
    }
  }

  // ---------------------------------------------------------------------------
  // Reference definitions
  // ---------------------------------------------------------------------------

  /** The text a value node stands for with rpx lengths kept as written. */
  function PlainValue(ctx: ValCtx, n: ValNode): string
    decreases n, 1
  {
    match n
    case Word(w) => w
    case Str(q, v) => q + DoubleBackslashes(v) + q
    case Div(v) => v
    case ValComment(_) => ""
    case Func(name, args) =>
      if name == "url" then (if |args| > 0 then " url( " + UrlText(ctx, args[0]) + " )" else "")
      else " " + name + "(" + PlainSeq(ctx, args, 0) + ")"
    case Space(_) => " "
    case UnicodeRange(_) => ""
  }

  /** A list of value nodes: each space run as one blank, every other node as its text. */
  function PlainSeq(ctx: ValCtx, ns: seq<ValNode>, i: nat): string
    requires i <= |ns|
    decreases ns, |ns| - i
  {
    if i == |ns| then "" else PlainValue(ctx, ns[i]) + PlainSeq(ctx, ns, i + 1)
  }

  /** The symbols a value node encodes to: `PlainValue`, with every rpx piece of a word as its marker. */
  function EncodedValue(ctx: ValCtx, n: ValNode): seq<Sym>
    decreases n, 1
  {
    match n
    case Word(w) => WordSyms(ctx, w)
    case Str(q, v) => Chars(q + DoubleBackslashes(v) + q)
    case Div(v) => Chars(v)
    case ValComment(_) => []
    case Func(name, args) =>
      if name == "url" then (if |args| > 0 then Chars(" url( " + UrlText(ctx, args[0]) + " )") else [])
      else Chars(" " + name + "(") + EncodedSeq(ctx, args, 0) + Chars(")")
    case Space(_) => Chars(" ")
    case UnicodeRange(_) => []
  }

  function EncodedSeq(ctx: ValCtx, ns: seq<ValNode>, i: nat): seq<Sym>
    requires i <= |ns|
    decreases ns, |ns| - i
  {
    if i == |ns| then [] else EncodedValue(ctx, ns[i]) + EncodedSeq(ctx, ns, i + 1)
  }

  /** The encoding loses no text of a value: its symbols, shown, are the value's text. */
  lemma {:induction false} ShownValue(ctx: ValCtx, n: ValNode)
    ensures Shown(EncodedValue(ctx, n)) == PlainValue(ctx, n)
    decreases n, 1
  {
    match n
    case Word(w) => ShownWord(ctx, w);
    case Str(q, v) => ShownChars(q + DoubleBackslashes(v) + q);
    case Div(v) => ShownChars(v);
    case ValComment(_) =>
    case Func(name, args) =>
      if name == "url" {
        if |args| > 0 { ShownChars(" url( " + UrlText(ctx, args[0]) + " )"); }
      } else {
        ShownSeq(ctx, args, 0);
        ShownAppend(Chars(" " + name + "(") + EncodedSeq(ctx, args, 0), Chars(")"));
        ShownAppend(Chars(" " + name + "("), EncodedSeq(ctx, args, 0));
        ShownChars(" " + name + "(");
        ShownChars(")");
      }
    case Space(_) => ShownChars(" ");
    case UnicodeRange(_) =>
  }

  lemma {:induction false} ShownSeq(ctx: ValCtx, ns: seq<ValNode>, i: nat)
    requires i <= |ns|
    ensures Shown(EncodedSeq(ctx, ns, i)) == PlainSeq(ctx, ns, i)
    decreases ns, |ns| - i
  {
    if i < |ns| {
      ShownValue(ctx, ns[i]);
      ShownSeq(ctx, ns, i + 1);
      ShownAppend(EncodedValue(ctx, ns[i]), EncodedSeq(ctx, ns, i + 1));
    }
  }

  /** Whether the walk of a value node meets an rpx length. */
  predicate HasRpx(n: ValNode)
    decreases n, 1
  {
    match n
    case Word(w) => WordHasRpx(w)
    case Func(name, args) => name != "url" && HasRpxSeq(args, 0)
    case _ => false
  }

  predicate HasRpxSeq(ns: seq<ValNode>, i: nat)
    requires i <= |ns|
    decreases ns, |ns| - i
  {
    i < |ns| && (HasRpx(ns[i]) || HasRpxSeq(ns, i + 1))
  }

  /** Whether the walk of a value node meets a `url()` with no argument, which the source cannot handle. */
  predicate EmptyUrl(n: ValNode)
    decreases n, 1
  {
    match n
    case Func(name, args) => if name == "url" then |args| == 0 else EmptyUrlSeq(args, 0)
    case _ => false
  }

  predicate EmptyUrlSeq(ns: seq<ValNode>, i: nat)
    requires i <= |ns|
    decreases ns, |ns| - i
  {
    i < |ns| && (EmptyUrl(ns[i]) || EmptyUrlSeq(ns, i + 1))
  }

  // ---------------------------------------------------------------------------
  // The walk
  // ---------------------------------------------------------------------------

  /** The state a walk over symbols `t` that meets an rpx length exactly when `rpx` holds leads to. */
  predicate Walked(ctx: ValCtx, vs: ValState, r: ValState, t: seq<Sym>, rpx: bool) {
    Grew(vs.sink, r.sink, t) && r.hasRpx == (vs.hasRpx || (!ctx.keep && rpx))
  }

  lemma WalkedChain(ctx: ValCtx, vs: ValState, mid: ValState, r: ValState, t1: seq<Sym>, rpx1: bool, t2: seq<Sym>, rpx2: bool)
    requires Walked(ctx, vs, mid, t1, rpx1) && Walked(ctx, mid, r, t2, rpx2)
    ensures Walked(ctx, vs, r, t1 + t2, rpx1 || rpx2)
  {
    GrewChain(vs.sink, mid.sink, r.sink, t1, t2);
  }

  /** Literal text that holds no rpx marker. */
  function Literal(s: string, vs: ValState): (r: ValState)
    requires vs.sink.Valid()
    ensures forall ctx :: Walked(ctx, vs, r, Chars(s), false)
  {
    ValState(vs.sink.Append(s), vs.hasRpx)
  }

  /** The fault the source hits on `url()` with no argument: it reads a field of a missing node. */
  const EmptyUrlFault: CompileError := RuntimeFault("TypeError: url() has no argument node")

  /** `transformDeclValueNodeWalker` on one node. */
  function WalkValue(ctx: ValCtx, n: ValNode, vs: ValState): (r: Result<ValState, CompileError>)
    requires vs.sink.Valid()
    ensures r.Ok? <==> !EmptyUrl(n)
    ensures r.Ok? && !n.Space? ==> Walked(ctx, vs, r.value, EncodedValue(ctx, n), HasRpx(n))
    ensures n.Space? ==> r.Ok? && Walked(ctx, vs, r.value, if EndsWithSpace(vs.sink.buf) then [] else Chars(" "), false)
    ensures r.Err? ==> r.error == EmptyUrlFault
    decreases n, 1
  {
    match n
    case Word(w) => Ok(TransformWord(ctx, w, vs))
    case Str(q, v) => Ok(Literal(q + DoubleBackslashes(v) + q, vs))
    case Div(v) => Ok(Literal(v, vs))
    case ValComment(_) => assert Walked(ctx, vs, vs, [], false); Ok(vs)
    case Func(name, args) => WalkFunc(ctx, n, vs)
    case Space(_) =>
      if EndsWithSpace(vs.sink.buf) then assert Walked(ctx, vs, vs, [], false); Ok(vs) else Ok(Literal(" ", vs))
    case UnicodeRange(_) => assert Walked(ctx, vs, vs, [], false); Ok(vs)
  }

  /** The pending literal already ends in a space, so a white-space node adds nothing. */
  predicate EndsWithSpace(b: string) {
    |b| > 0 && b[|b| - 1] == ' '
  }

  /** A function node: `url(...)` writes its first argument, any other function its name and arguments. */
  function WalkFunc(ctx: ValCtx, n: ValNode, vs: ValState): (r: Result<ValState, CompileError>)
    requires vs.sink.Valid() && n.Func?
    ensures r.Ok? <==> !EmptyUrl(n)
    ensures r.Ok? ==> Walked(ctx, vs, r.value, EncodedValue(ctx, n), HasRpx(n))
    ensures r.Err? ==> r.error == EmptyUrlFault
    decreases n, 0
  {
    if n.name == "url" then
      if |n.args| == 0 then Err(EmptyUrlFault)
      else Ok(Literal(" url( " + UrlText(ctx, n.args[0]) + " )", vs))
    else
      var open := " " + n.name + "(";
      var entered := Literal(open, vs);
      match WalkSeq(ctx, n.args, 0, entered)
      case Err(e) => Err(e)
      case Ok(inner) =>
        var r := Literal(")", inner);
        WalkedChain(ctx, vs, entered, inner, Chars(open), false, EncodedSeq(ctx, n.args, 0), HasRpxSeq(n.args, 0));
        WalkedChain(ctx, vs, inner, r, Chars(open) + EncodedSeq(ctx, n.args, 0), HasRpxSeq(n.args, 0), Chars(")"), false);
        Ok(r)
  }

  /**
   * The loop of `transformDeclValue` and of a function's arguments: a space
   * node is one blank, every other node goes to the walker. The source skips
   * the spaces after a space node with a loop that can only stop at once,
   * since the parser never yields two spaces in a row; the model moves on
   * by one.
   */
  function WalkSeq(ctx: ValCtx, ns: seq<ValNode>, i: nat, vs: ValState): (r: Result<ValState, CompileError>)
    requires i <= |ns| && vs.sink.Valid()
    ensures r.Ok? <==> !EmptyUrlSeq(ns, i)
    ensures r.Ok? ==> Walked(ctx, vs, r.value, EncodedSeq(ctx, ns, i), HasRpxSeq(ns, i))
    ensures r.Err? ==> r.error == EmptyUrlFault
    decreases ns, |ns| - i
  {
    if i == |ns| then assert Walked(ctx, vs, vs, [], false); Ok(vs)
    else
      var step := if ns[i].Space? then Ok(Literal(" ", vs)) else WalkValue(ctx, ns[i], vs);
      match step
      case Err(e) => Err(e)
      case Ok(mid) =>
        match WalkSeq(ctx, ns, i + 1, mid)
        case Err(e) => Err(e)
        case Ok(r) =>
          WalkedChain(ctx, vs, mid, r, EncodedValue(ctx, ns[i]), HasRpx(ns[i]), EncodedSeq(ctx, ns, i + 1), HasRpxSeq(ns, i + 1));
          Ok(r)
  }
}
