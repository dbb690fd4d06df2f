/**
 * The compile driver: command-line flags, the choice and order of the
 * stylesheets to compile, the placeholder entry templates, the per-template
 * encoding pass, and the two output forms.
 */
module Driver {
  import opened Wrappers
  import opened Strings
  import opened Tokens
  import opened Ast
  import opened Model
  import opened Util
  import opened ValueEncoder
  import opened Stylesheet
  import opened ImportGraph
  import opened CodeGen
  import opened Runtime

  // ---------------------------------------------------------------------------
  // Command line
  // ---------------------------------------------------------------------------

  /** The parsed options; `pc` is `None` where the source's number is `NaN`. */
  datatype Cmd = Cmd(
    cp: bool, db: bool, js: bool, lc: bool, o: bool, om: bool,
    pc: Option<int>, s: bool, sd: bool, st: bool, subpackage: string)

  /** `args.indexOf(flag)`: the first position holding exactly `flag`, or -1. */
  function Position(args: seq<string>, flag: string): (idx: int)
    ensures -1 <= idx < |args|
    ensures idx == -1 <==> flag !in args
    ensures idx >= 0 ==> args[idx] == flag && flag !in args[..idx]
  {
    var idx := GetArrIdx(args, (a: string) => a, flag);
    assert idx >= 0 ==> forall i :: 0 <= i < idx ==> args[..idx][i] == args[i];
    assert flag in args ==> exists i :: 0 <= i < |args| && args[i] == flag;
    idx
  }

  /** Whether a boolean option is on: its flag is one whole element of the arguments. */
  function Flag(args: seq<string>, flag: string): (on: bool)
    ensures on <==> flag in args
  {
    Position(args, flag) > -1
  }

  /** The element after position `idx`, if there is one. */
  function After(args: seq<string>, idx: int): Option<string>
    requires -1 <= idx < |args|
  {
    if 0 <= idx && idx + 1 < |args| then Some(args[idx + 1]) else None
  }

  /** The longest run of decimal digits at the start of `s`. */
  function DigitRun(s: string): (r: string)
    ensures |r| <= |s| && r == s[..|r|] && AllDigits(r)
    ensures |r| < |s| ==> !IsDigit(s[|r|])
    decreases |s|
  {
    if |s| > 0 && IsDigit(s[0]) then
      var rest := DigitRun(s[1..]);
      assert [s[0]] + rest == s[..|rest| + 1];
      [s[0]] + rest
    else ""
  }

  /**
   * `parseInt(s, 10)`: leading white space is skipped, one optional sign is
   * read, then the longest run of digits; with no digit the result is `NaN`
   * (`None`).
   */
  function ParseInt(s: string): (r: Option<int>)
    ensures r.None? <==> DigitRun(Unsigned(TrimStart(s))) == ""
  {
    var t := TrimStart(s);
    var digits := DigitRun(Unsigned(t));
    var v: int := if digits == "" then 0 else DigitsValue(digits);
    if digits == "" then None
    else if |t| > 0 && t[0] == '-' then Some(-v)
    else Some(v)
  }

  /** The text after one leading sign, if any. */
  function Unsigned(t: string): string {
    if |t| > 0 && (t[0] == '-' || t[0] == '+') then t[1..] else t
  }

  /** A prefix with all digits reads as its own value. */
  lemma {:induction false} DigitRunOfDigits(d: string, rest: string)
    requires AllDigits(d) && (|rest| == 0 || !IsDigit(rest[0]))
    ensures DigitRun(d + rest) == d
    decreases |d|
  {
    if |d| > 0 {
      DigitRunStep(d, rest);
      DigitRunOfDigits(d[1..], rest);
      assert [d[0]] + d[1..] == d;
    } else {
      assert d + rest == rest;
      DigitRunStops(rest);
    }
  }

  /** A leading digit starts the run. */
  lemma DigitRunStep(d: string, rest: string)
    requires |d| > 0 && AllDigits(d)
    ensures AllDigits(d[1..])
    ensures DigitRun(d + rest) == [d[0]] + DigitRun(d[1..] + rest)
  {
    var s := d + rest;
    assert IsDigit(d[0]);
    assert s[0] == d[0] && s[1..] == d[1..] + rest;
  }

  /** Nothing, or a non-digit in front, gives an empty run. */
  lemma DigitRunStops(s: string)
    requires |s| == 0 || !IsDigit(s[0])
    ensures DigitRun(s) == ""
  {
  }

  /**
   * The decimal text of a count, followed by anything that does not start
   * with a digit, parses back to the count.
   */
  lemma ParseIntOfNatToString(m: nat, rest: string)
    requires |rest| == 0 || !IsDigit(rest[0])
    ensures ParseInt(NatToString(m) + rest) == Some(m as int)
  {
    DigitsValueOfNatToString(m);
    ParseIntOfDigits(NatToString(m), rest);
  }

  /** A run of digits followed by a non-digit or nothing reads as the value of the run. */
  lemma ParseIntOfDigits(d: string, rest: string)
    requires AllDigits(d) && d != ""
    requires |rest| == 0 || !IsDigit(rest[0])
    ensures ParseInt(d + rest) == Some(DigitsValue(d) as int)
  {
    DigitRunOfDigits(d, rest);
    assert (d + rest)[0] == d[0];
    ParseIntOfLeadingDigits(d + rest, d);
  }

  /** Text that starts with a digit reads as the value of its leading digit run `d`. */
  lemma ParseIntOfLeadingDigits(s: string, d: string)
    requires |s| > 0 && IsDigit(s[0]) && DigitRun(s) == d
    ensures ParseInt(s) == Some(DigitsValue(d) as int)
  {
    TrimStartKeeps(s);
    assert Unsigned(s) == s;
  }

  /** Nothing is trimmed from a string that starts with a non-space. */
  lemma TrimStartKeeps(s: string)
    requires |s| > 0 && !IsWhite(s[0])
    ensures TrimStart(s) == s
  {
  }

  /**
   * A minus sign in front of text that starts with a digit negates what the
   * text reads as; with `ParseIntOfNatToString` this gives the round trip of
   * `String(n)` for negative `n` as well.
   */
  lemma ParseIntNegates(x: string)
    requires |x| > 0 && IsDigit(x[0])
    ensures ParseInt(x).Some?
    ensures ParseInt("-" + x) == Some(0 - ParseInt(x).value)
  {
    TrimStartKeeps(x);
    TrimStartKeeps("-" + x);
    assert Unsigned("-" + x) == x;
    assert Unsigned(x) == x;
  }

  /**
   * `parseCmd`: each boolean option is on exactly when its flag is one of the
   * arguments; `-pc` and `--subpackage` take the element after their first
   * occurrence (a missing `-pc` is 0, a missing `--subpackage` is empty).
   */
  function ParseCmd(args: seq<string>): (c: Cmd)
    ensures c.cp <==> "-cp" in args
    ensures c.db <==> "-db" in args
    ensures c.js <==> "-js" in args
    ensures c.lc <==> "-lc" in args
    ensures c.o <==> "-o" in args
    ensures c.om <==> "-om" in args
    ensures c.s <==> "-s" in args
    ensures c.sd <==> "-sd" in args
    ensures c.st <==> "-st" in args
    ensures "-pc" !in args ==> c.pc == Some(0)
    ensures "-pc" in args ==>
              exists k :: 0 <= k < |args| && args[k] == "-pc" && "-pc" !in args[..k]
                          && c.pc == (if k + 1 < |args| then ParseInt(args[k + 1]) else None)
    ensures "--subpackage" !in args ==> c.subpackage == ""
    ensures "--subpackage" in args ==>
              exists k :: 0 <= k < |args| && args[k] == "--subpackage" && "--subpackage" !in args[..k]
                          && c.subpackage == (if k + 1 < |args| then args[k + 1] else "")
  {
    var pcAt := Position(args, "-pc");
    var subAt := Position(args, "--subpackage");
    var pc := if pcAt > -1 then (match After(args, pcAt) case Some(t) => ParseInt(t) case None => None) else Some(0);
    var sub := if subAt > -1 then (match After(args, subAt) case Some(t) => t case None => "") else "";
    Cmd(Flag(args, "-cp"), Flag(args, "-db"), Flag(args, "-js"), Flag(args, "-lc"), Flag(args, "-o"),
        Flag(args, "-om"), pc, Flag(args, "-s"), Flag(args, "-sd"), Flag(args, "-st"), sub)
  }

  /** The compiler's version string; a missing or empty package version reads as `0.0.0`. */
  function Version(packageVersion: Option<string>): (v: string)
    ensures packageVersion.Some? && packageVersion.value != "" ==> v == "wcsc_v0.4me_20190304_db__wcscjs_" + packageVersion.value
    ensures packageVersion.None? || packageVersion.value == "" ==> v == "wcsc_v0.4me_20190304_db__wcscjs_0.0.0"
  {
    "wcsc_v0.4me_20190304_db__wcscjs_" + (if packageVersion.Some? && packageVersion.value != "" then packageVersion.value else "0.0.0")
  }

  // ---------------------------------------------------------------------------
  // The file list
  // ---------------------------------------------------------------------------

  /** The end position `Array.prototype.slice(0, end)` stops at, for an integer `end`. */
  function SliceEnd(len: nat, end: int): (k: nat)
    ensures k <= len
    ensures end >= 0 ==> k == Min(end, len)
    ensures end < 0 ==> k == Max(len + end, 0)
  {
    if end < 0 then (if len + end < 0 then 0 else len + end) else (if end > len then len else end)
  }

  function Min(a: int, b: int): int { if a < b then a else b }
  function Max(a: int, b: int): int { if a < b then b else a }

  /** `Array.prototype.pop` for its effect: the last element goes, an empty list stays empty. */
  function DropLast(s: seq<string>): (r: seq<string>)
    ensures |s| == 0 ==> r == s
    ensures |s| > 0 ==> r == s[..|s| - 1]
  {
    if |s| == 0 then s else s[..|s| - 1]
  }

  /** The files to compile, with the positions the sorted list gave the entry stylesheets. */
  datatype Selection = Selection(files: seq<string>, appIdx: int, subIdx: int)

  /** The position of `x` in `s`, or -1. */
  function Find(s: seq<string>, x: string): (idx: int)
    ensures -1 <= idx < |s|
    ensures idx == -1 <==> x !in s
    ensures idx >= 0 ==> s[idx] == x && x !in s[..idx]
  {
    Position(s, x)
  }

  /**
   * The selection step of `compile`: the sorted list is cut to the page
   * count; when the application stylesheet sorted at or past the cut, the last
   * kept file makes room for it at the front. The subpackage stylesheet is
   * looked up, and moved to the front, under the empty path, because its path
   * is only set afterwards. The recorded positions are those of the full
   * sorted list.
   */
  function SelectFiles(files: seq<string>, pc: int): (r: Selection)
    ensures r.appIdx == Find(Sort(files), AppWxssPath)
    ensures r.subIdx == Find(Sort(files), "")
    ensures r.appIdx < pc && r.subIdx < pc ==> r.files == Sort(files)[..SliceEnd(|files|, pc)]
    ensures r.appIdx >= pc && r.subIdx < pc ==>
              r.files == [AppWxssPath] + DropLast(Sort(files)[..SliceEnd(|files|, pc)])
    ensures r.subIdx >= pc ==> |r.files| > 0 && r.files[0] == ""
    ensures r.appIdx < pc && r.subIdx >= pc ==>
              r.files == [""] + DropLast(Sort(files)[..SliceEnd(|files|, pc)])
    ensures r.appIdx >= pc && r.subIdx >= pc ==>
              r.files == [""] + DropLast([AppWxssPath] + DropLast(Sort(files)[..SliceEnd(|files|, pc)]))
  {
    Choose(Sort(files), pc)
  }

  /**
   * A negative page count counts from the end, and every position, even the
   * -1 of a missing file, is at or past it: both entry paths are put in
   * front whether or not the list holds them.
   */
  lemma NegativeCountFrontsEntries(files: seq<string>, pc: int)
    requires pc < 0 && |files| + pc >= 2
    ensures SelectFiles(files, pc).files[0] == ""
    ensures SelectFiles(files, pc).files[1] == AppWxssPath
    ensures |SelectFiles(files, pc).files| == |files| + pc
  {
    var kept := Sort(files)[..SliceEnd(|files|, pc)];
    assert |kept| == |files| + pc;
    var withApp := [AppWxssPath] + DropLast(kept);
    assert |withApp| == |kept| && withApp[0] == AppWxssPath;
    assert SelectFiles(files, pc).files == [""] + DropLast(withApp);
  }

  /** The selection step on the already sorted list. */
  function Choose(sorted: seq<string>, pc: int): (r: Selection)
    ensures r.appIdx == Find(sorted, AppWxssPath)
    ensures r.subIdx == Find(sorted, "")
    ensures r.appIdx < pc && r.subIdx < pc ==> r.files == sorted[..SliceEnd(|sorted|, pc)]
    ensures r.appIdx >= pc && r.subIdx < pc ==>
              r.files == [AppWxssPath] + DropLast(sorted[..SliceEnd(|sorted|, pc)])
    ensures r.subIdx >= pc ==> |r.files| > 0 && r.files[0] == ""
    ensures r.appIdx < pc && r.subIdx >= pc ==>
              r.files == [""] + DropLast(sorted[..SliceEnd(|sorted|, pc)])
    ensures r.appIdx >= pc && r.subIdx >= pc ==>
              r.files == [""] + DropLast([AppWxssPath] + DropLast(sorted[..SliceEnd(|sorted|, pc)]))
  {
    var appIdx := Find(sorted, AppWxssPath);
    var subIdx := Find(sorted, "");
    var kept := sorted[..SliceEnd(|sorted|, pc)];
    var withApp := if appIdx >= pc then [AppWxssPath] + DropLast(kept) else kept;
    var withSub := if subIdx >= pc then [""] + DropLast(withApp) else withApp;
    Selection(withSub, appIdx, subIdx)
  }

  /**
   * With a positive page count and no empty path among the files, the
   * selection keeps its length and the order of the sorted list: either the
   * first `pc` sorted files, or, when the application stylesheet sorted past
   * them, that stylesheet followed by the first `pc - 1`; in the second case
   * the recorded application position lies beyond the selection.
   */
  lemma SelectionShape(files: seq<string>, pc: int)
    requires pc >= 1 && "" !in files
    ensures var r := SelectFiles(files, pc);
            && r.subIdx == -1
            && |r.files| == Min(pc, |files|)
            && (r.appIdx < pc ==> r.files == Sort(files)[..Min(pc, |files|)])
            && (r.appIdx >= pc ==> r.files == [AppWxssPath] + Sort(files)[..pc - 1] && r.appIdx >= |r.files|)
  {
    var sorted := Sort(files);
    assert multiset(sorted)[""] == multiset(files)[""] == 0;
    ChooseShape(sorted, pc);
  }

  lemma ChooseShape(sorted: seq<string>, pc: int)
    requires pc >= 1 && "" !in sorted
    ensures var r := Choose(sorted, pc);
            && r.subIdx == -1
            && |r.files| == Min(pc, |sorted|)
            && (r.appIdx < pc ==> r.files == sorted[..Min(pc, |sorted|)])
            && (r.appIdx >= pc ==> r.files == [AppWxssPath] + sorted[..pc - 1] && r.appIdx >= |r.files|)
  {
    var r := Choose(sorted, pc);
    if r.appIdx >= pc {
      assert |sorted| > pc;
      assert sorted[..pc][..pc - 1] == sorted[..pc - 1];
    }
  }

  // ---------------------------------------------------------------------------
  // Loading
  // ---------------------------------------------------------------------------

  /** What the model takes from outside: file reading, the CSS parser, path operations, the package version. */
  datatype Host = Host(
    read: string -> Result<string, string>,
    parse: string -> Result<seq<CssNode>, string>,
    ops: PathOps,
    packageVersion: Option<string>)

  /** The path a file is read from: joined onto the base directory when one is given. */
  function SourcePath(ops: PathOps, base: string, file: string): string {
    if base != "" then ops.join(base, file) else file
  }

  /**
   * Reads every selected file into a fresh template, in order; a file that
   * cannot be read fails the compile with the reader's message.
   */
  function LoadAll(files: seq<string>, base: string, h: Host): (r: Result<seq<Template>, CompileError>)
    ensures r.Ok? <==> forall i :: 0 <= i < |files| ==> h.read(SourcePath(h.ops, base, files[i])).Ok?
    ensures r.Ok? ==> |r.value| == |files|
    ensures r.Ok? ==> forall i :: 0 <= i < |files| ==>
              r.value[i] == Loaded(files[i], h.read(SourcePath(h.ops, base, files[i])).value)
    ensures r.Err? ==> exists i :: 0 <= i < |files| && h.read(SourcePath(h.ops, base, files[i])).Err?
                                   && r.error == ReadFailure(h.read(SourcePath(h.ops, base, files[i])).error)
    decreases |files|
  {
    if |files| == 0 then Ok([])
    else
      match h.read(SourcePath(h.ops, base, files[0]))
      case Err(msg) => Err(ReadFailure(msg))
      case Ok(content) =>
        assert forall i :: 1 <= i < |files| ==> files[1..][i - 1] == files[i];
        match LoadAll(files[1..], base, h)
        case Err(e) => Err(e)
        case Ok(rest) => Ok([Loaded(files[0], content)] + rest)
  }

  /** The template list before encoding, with the entry positions `genComm` will use. */
  datatype Setup = Setup(templates: seq<Template>, appIdx: int, subIdx: int)

  /**
   * `r` is `ts` behind the placeholders the compile adds: one empty
   * application stylesheet when `appIdx` is -1 and one empty subpackage
   * stylesheet, first, when a subpackage is named and `subIdx` is -1; the
   * application position is moved from 0 to 1 (and no other) when the
   * subpackage placeholder goes in front of it.
   */
  predicate Placed(ts: seq<Template>, appIdx: int, subIdx: int, subpackage: string, subPath: string, r: Setup) {
    var missingSub := subpackage != "" && subIdx == -1;
    var added := (if appIdx == -1 then 1 else 0) + (if missingSub then 1 else 0);
    && |r.templates| == |ts| + added
    && r.templates[|r.templates| - |ts|..] == ts
    && (forall i :: 0 <= i < |r.templates| - |ts| ==> r.templates[i] == Loaded(r.templates[i].path, ""))
    && (appIdx == -1 ==> 0 <= r.appIdx < |r.templates| && r.templates[r.appIdx] == Loaded(AppWxssPath, ""))
    && (missingSub ==> r.subIdx == 0 && r.templates[0] == Loaded(subPath, ""))
    && (appIdx != -1 && !missingSub ==> r.appIdx == appIdx)
    && (appIdx != -1 && missingSub ==> r.appIdx == (if appIdx == 0 then 1 else appIdx))
    && (!missingSub ==> r.subIdx == subIdx)
  }

  /**
   * The placeholder step of `compile`: an empty application stylesheet is
   * put first when none was found, and, with a subpackage, an empty
   * subpackage stylesheet is put first when none was found, moving an
   * application position of 0 to 1 (and no other).
   */
  function AddPlaceholders(ts: seq<Template>, appIdx: int, subIdx: int, subpackage: string, subPath: string): (r: Setup)
    ensures Placed(ts, appIdx, subIdx, subpackage, subPath, r)
  {
    var withApp := if appIdx == -1 then [Loaded(AppWxssPath, "")] + ts else ts;
    var app := if appIdx == -1 then 0 else appIdx;
    if subpackage != "" && subIdx == -1 then
      Setup([Loaded(subPath, "")] + withApp, if app == 0 then 1 else app, 0)
    else
      Setup(withApp, app, subIdx)
  }

  // ---------------------------------------------------------------------------
  // Encoding every template
  // ---------------------------------------------------------------------------

  /** Records `path`'s template `k` as a parent of every edge's target, edge by edge. */
  function AddParents(ts: seq<Template>, edges: seq<ChildEdge>, k: nat, path: string): (r: seq<Template>)
    requires forall e :: e in edges ==> e.index < |ts|
    ensures |r| == |ts|
    ensures forall i :: 0 <= i < |ts| ==> r[i] == ts[i].(parents := r[i].parents)
    ensures forall i :: 0 <= i < |ts| ==> |r[i].parents| >= |ts[i].parents|
    ensures forall i :: 0 <= i < |ts| && i in Indices(edges) ==> |r[i].parents| > 0
    ensures forall i :: 0 <= i < |ts| && i !in Indices(edges) ==> r[i] == ts[i]
    ensures forall i :: 0 <= i < |ts| ==> r[i].parents == ts[i].parents + Copies(Hits(edges, i), ParentEdge(k, path))
    decreases |edges|
  {
    if |edges| == 0 then ts
    else
      var x := edges[0].index;
      var next := ts[x := ts[x].(parents := ts[x].parents + [ParentEdge(k, path)])];
      assert Indices(edges) == [x] + Indices(edges[1..]);
      var r := AddParents(next, edges[1..], k, path);
      ParentsAppended(ts, edges, k, path, next, r);
      r
  }

  /** How many of the edges point at template `x`. */
  function Hits(es: seq<ChildEdge>, x: nat): (n: nat)
    ensures n > 0 <==> x in Indices(es)
    ensures n <= |es|
    decreases |es|
  {
    if |es| == 0 then 0
    else
      assert Indices(es) == [es[0].index] + Indices(es[1..]);
      (if es[0].index == x then 1 else 0) + Hits(es[1..], x)
  }

  /** One parent record for the first edge's target, then the rest of the edges' records. */
  lemma {:induction false} ParentsAppended(ts: seq<Template>, edges: seq<ChildEdge>, k: nat, path: string, next: seq<Template>, r: seq<Template>)
    requires |edges| > 0 && edges[0].index < |ts|
    requires next == ts[edges[0].index := ts[edges[0].index].(parents := ts[edges[0].index].parents + [ParentEdge(k, path)])]
    requires |r| == |ts|
    requires forall i :: 0 <= i < |ts| ==> r[i].parents == next[i].parents + Copies(Hits(edges[1..], i), ParentEdge(k, path))
    ensures forall i :: 0 <= i < |ts| ==> r[i].parents == ts[i].parents + Copies(Hits(edges, i), ParentEdge(k, path))
  {
    var p := ParentEdge(k, path);
    forall i | 0 <= i < |ts| ensures r[i].parents == ts[i].parents + Copies(Hits(edges, i), p) {
      if i == edges[0].index {
        var m := Hits(edges[1..], i);
        assert Copies(m + 1, p) == [p] + Copies(m, p);
      }
    }
  }

  /** `n` copies of the parent record `p`. */
  function Copies(n: nat, p: ParentEdge): (r: seq<ParentEdge>)
    ensures |r| == n && forall j :: 0 <= j < n ==> r[j] == p
  {
    if n == 0 then [] else [p] + Copies(n - 1, p)
  }

  /** What encoding keeps true of the list: every template eligible, references matching edges, edge targets with parents. */
  predicate Linked(ts: seq<Template>) {
    && (forall i :: 0 <= i < |ts| ==> ts[i].needComm)
    && (forall i :: 0 <= i < |ts| ==> Refs(ts[i].tokens) == Indices(ts[i].children))
    && (forall i :: 0 <= i < |ts| ==> Canonical(ts[i].tokens))
    && (forall i :: 0 <= i < |ts| ==>
          forall x :: x in Indices(ts[i].children) ==> x < |ts| && |ts[x].parents| > 0)
  }

  lemma LinkedIsWellLinked(ts: seq<Template>)
    requires Linked(ts)
    ensures WellLinked(ts)
  {
  }

  /** The fields encoding leaves alone. */
  predicate Kept(t: Template, u: Template) {
    u.path == t.path && u.content == t.content && u.out == t.out && u.key == t.key
  }

  /** `parseJs` on template `j` of the list. */
  function SheetParse(h: Host, debug: bool, ts: seq<Template>, j: nat): Result<Option<Encoding>, CompileError>
    requires j < |ts|
  {
    ParseJs(EncEnv(h.ops, ts, j, ts[j].path, debug), ts[j].content, h.parse)
  }

  /** What `parseJs` makes of each template of the list. */
  function Outcomes(h: Host, debug: bool, ts: seq<Template>): (ps: seq<Result<Option<Encoding>, CompileError>>)
    ensures |ps| == |ts|
  {
    seq(|ts|, j requires 0 <= j < |ts| => SheetParse(h, debug, ts, j))
  }

  /**
   * `u` holds what `parseJs`'s answer `p` for template `t` says: the
   * encoding's list, diagnostic and edges, or `t`'s own when the stylesheet
   * is blank.
   */
  predicate EncodedBy(p: Result<Option<Encoding>, CompileError>, t: Template, u: Template) {
    && p.Ok?
    && (p.value.None? ==> u.tokens == t.tokens && u.diag == t.diag && u.children == t.children)
    && (p.value.Some? ==> u.tokens == p.value.value.tokens && u.diag == p.value.value.diag && u.children == p.value.value.children)
  }

  /** Template `j` is the first from `k` whose answer is a failure. */
  predicate FirstFailure(ps: seq<Result<Option<Encoding>, CompileError>>, k: nat, j: int) {
    && k <= j < |ps|
    && ps[j].Err?
    && forall i :: k <= i < j ==> ps[i].Ok?
  }

  /**
   * Encoding keeps every path and content, and `parseJs` reads nothing
   * else of the list: each template gets the same answer wherever it comes
   * in the pass.
   */
  lemma OutcomesKept(h: Host, debug: bool, ts: seq<Template>, next: seq<Template>)
    requires |next| == |ts|
    requires forall i :: 0 <= i < |ts| ==> Kept(ts[i], next[i])
    ensures Outcomes(h, debug, next) == Outcomes(h, debug, ts)
  {
    forall j | 0 <= j < |ts| ensures SheetParse(h, debug, next, j) == SheetParse(h, debug, ts, j) {
      ParseJsSeesSources(EncEnv(h.ops, ts, j, ts[j].path, debug), next, ts[j].content, h.parse);
    }
  }

  /**
   * The pass from `k` over `ts`, given `parseJs`'s answer for every
   * template in `ps`, ended with `r`: it succeeds exactly when every answer
   * from `k` does, and then each template from `k` holds what its answer
   * says, those before `k` are untouched, and no path, content or output
   * changed; otherwise its error is the first failing answer's.
   */
  predicate PassResult(ps: seq<Result<Option<Encoding>, CompileError>>, ts: seq<Template>, k: nat, r: Result<seq<Template>, CompileError>) {
    && k <= |ts| == |ps|
    && (r.Ok? <==> forall j :: k <= j < |ts| ==> ps[j].Ok?)
    && (r.Ok? ==> |r.value| == |ts|)
    && (r.Ok? ==> forall i :: 0 <= i < |ts| ==> Kept(ts[i], r.value[i]))
    && (r.Ok? ==> forall i :: 0 <= i < k ==>
          r.value[i].tokens == ts[i].tokens && r.value[i].diag == ts[i].diag && r.value[i].children == ts[i].children)
    && (r.Ok? ==> forall j :: k <= j < |ts| ==> EncodedBy(ps[j], ts[j], r.value[j]))
    && (r.Err? ==> exists j :: k <= j < |ps| && FirstFailure(ps, k, j) && r.error == ps[j].error)
  }

  /**
   * `parseJs` over the templates in order from `k`. A template that
   * encodes gets its list, diagnostic and edges, and each edge's target
   * records it as a parent; the pass fails exactly when some template's
   * `parseJs` does, with the first failure's error.
   */
  function EncodeFrom(h: Host, debug: bool, ts: seq<Template>, k: nat): (r: Result<seq<Template>, CompileError>)
    requires k <= |ts| && Linked(ts)
    ensures PassResult(Outcomes(h, debug, ts), ts, k, r)
    ensures r.Ok? ==> Linked(r.value)
    ensures r.Err? ==> r.error.ParseFailure? || r.error.ImportNotFound? || r.error == EmptyUrlFault
    decreases |ts| - k, 1
  {
    if k == |ts| then
      PassEnds(Outcomes(h, debug, ts), ts);
      Ok(ts)
    else
      assert Outcomes(h, debug, ts)[k] == SheetParse(h, debug, ts, k);
      EncodeRest(h, debug, ts, k, EncodeOne(h, debug, ts, k))
  }

  /** The pass once template `k` has taken its step: a failure ends it, otherwise it goes on from `k + 1`. */
  function EncodeRest(h: Host, debug: bool, ts: seq<Template>, k: nat, step: Result<seq<Template>, CompileError>)
    : (r: Result<seq<Template>, CompileError>)
    requires k < |ts| && Linked(ts)
    requires step.Ok? <==> Outcomes(h, debug, ts)[k].Ok?
    requires step.Err? ==> Outcomes(h, debug, ts)[k] == Err(step.error)
    requires step.Err? ==> step.error.ParseFailure? || step.error.ImportNotFound? || step.error == EmptyUrlFault
    requires step.Ok? ==> Stepped(Outcomes(h, debug, ts)[k], ts, k, step.value) && Linked(step.value)
    ensures PassResult(Outcomes(h, debug, ts), ts, k, r)
    ensures r.Ok? ==> Linked(r.value)
    ensures r.Err? ==> r.error.ParseFailure? || r.error.ImportNotFound? || r.error == EmptyUrlFault
    decreases |ts| - k, 0
  {
    match step
    case Err(e) =>
      FailsFirst(Outcomes(h, debug, ts), ts, k, e);
      Err(e)
    case Ok(next) =>
      var r := EncodeFrom(h, debug, next, k + 1);
      OutcomesKept(h, debug, ts, next);
      EncodeFromStep(Outcomes(h, debug, ts), ts, k, next, r);
      r
  }

  /** EncodeFrom's per-template facts from `k`, out of template `k`'s step and the rest of the pass from `k + 1`. */
  lemma {:induction false} EncodeFromStep(ps: seq<Result<Option<Encoding>, CompileError>>, ts: seq<Template>, k: nat,
                                          next: seq<Template>, r: Result<seq<Template>, CompileError>)
    requires k < |ts| == |ps|
    requires Stepped(ps[k], ts, k, next)
    requires PassResult(ps, next, k + 1, r)
    ensures PassResult(ps, ts, k, r)
  {
    if r.Ok? {
      forall j | k <= j < |ts| ensures EncodedBy(ps[j], ts[j], r.value[j]) {
        if j > k {
          assert EncodedBy(ps[j], next[j], r.value[j]);
        }
      }
    } else {
      assert exists j :: k + 1 <= j < |ps| && FirstFailure(ps, k + 1, j) && r.error == ps[j].error;
      var j :| k + 1 <= j < |ps| && FirstFailure(ps, k + 1, j) && r.error == ps[j].error;
      assert ps[k].Ok?;
      assert FirstFailure(ps, k, j);
    }
  }

  /** With no template left, the pass succeeds with the list as it is. */
  lemma PassEnds(ps: seq<Result<Option<Encoding>, CompileError>>, ts: seq<Template>)
    requires |ps| == |ts|
    ensures PassResult(ps, ts, |ts|, Ok(ts))
  {
  }

  /**
   * `next` is `ts` after template `k` took `parseJs`'s answer `p`: `k`
   * holds what the answer says, the other templates keep their lists,
   * diagnostics and edges, and no path, content or output changed.
   */
  predicate Stepped(p: Result<Option<Encoding>, CompileError>, ts: seq<Template>, k: nat, next: seq<Template>) {
    && k < |ts| == |next|
    && EncodedBy(p, ts[k], next[k])
    && (forall i :: 0 <= i < |ts| ==> Kept(ts[i], next[i]))
    && (forall i :: 0 <= i < |ts| && i != k ==>
          next[i].tokens == ts[i].tokens && next[i].diag == ts[i].diag && next[i].children == ts[i].children)
  }

  /** A failure at `k` ends the pass from `k` with its error. */
  lemma FailsFirst(ps: seq<Result<Option<Encoding>, CompileError>>, ts: seq<Template>, k: nat, e: CompileError)
    requires k < |ps| == |ts| && ps[k] == Err(e)
    ensures PassResult(ps, ts, k, Err(e))
  {
    assert FirstFailure(ps, k, k);
  }

  /**
   * Template `k` through `parseJs`: a blank stylesheet leaves the list
   * alone, an encoding is adopted, and a failure is passed on.
   */
  function EncodeOne(h: Host, debug: bool, ts: seq<Template>, k: nat): (r: Result<seq<Template>, CompileError>)
    requires k < |ts| && Linked(ts)
    ensures r.Ok? ==> |r.value| == |ts| && Linked(r.value)
    ensures r.Ok? ==> forall i :: 0 <= i < |ts| ==> Kept(ts[i], r.value[i])
    ensures r.Ok? ==> forall i :: 0 <= i < |ts| && i != k ==>
              r.value[i].tokens == ts[i].tokens && r.value[i].diag == ts[i].diag && r.value[i].children == ts[i].children
    ensures r.Ok? <==> SheetParse(h, debug, ts, k).Ok?
    ensures r.Ok? ==> EncodedBy(SheetParse(h, debug, ts, k), ts[k], r.value[k])
    ensures SheetParse(h, debug, ts, k) == Ok(None) ==> r == Ok(ts)
    ensures r.Err? ==> r.error == SheetParse(h, debug, ts, k).error
    ensures r.Err? ==> r.error.ParseFailure? || r.error.ImportNotFound? || r.error == EmptyUrlFault
  {
    Install(ts, k, SheetParse(h, debug, ts, k))
  }

  /**
   * `parseJs`'s answer `p` for template `k` applied to the list: a failure
   * is passed on, a blank stylesheet leaves the list alone, and an encoding
   * is adopted.
   */
  function Install(ts: seq<Template>, k: nat, p: Result<Option<Encoding>, CompileError>): (r: Result<seq<Template>, CompileError>)
    requires k < |ts| && Linked(ts)
    requires p.Ok? && p.value.Some? ==> Linkable(ts, p.value.value)
    ensures r.Ok? ==> |r.value| == |ts| && Linked(r.value)
    ensures r.Ok? ==> forall i :: 0 <= i < |ts| ==> Kept(ts[i], r.value[i])
    ensures r.Ok? ==> forall i :: 0 <= i < |ts| && i != k ==>
              r.value[i].tokens == ts[i].tokens && r.value[i].diag == ts[i].diag && r.value[i].children == ts[i].children
    ensures r.Ok? <==> p.Ok?
    ensures r.Ok? ==> EncodedBy(p, ts[k], r.value[k])
    ensures p == Ok(None) ==> r == Ok(ts)
    ensures r.Err? ==> r.error == p.error
    ensures r.Ok? ==> Stepped(p, ts, k, r.value)
  {
    match p
    case Err(e) => Err(e)
    case Ok(None) => Ok(ts)
    case Ok(Some(enc)) => Ok(Adopt(ts, k, enc))
  }

  /** Template `k` takes an encoding whose edges are valid, and its targets record it as a parent. */
  function Adopt(ts: seq<Template>, k: nat, enc: Encoding): (r: seq<Template>)
    requires k < |ts| && Linked(ts) && Linkable(ts, enc)
    ensures |r| == |ts| && Linked(r)
    ensures forall i :: 0 <= i < |ts| ==> Kept(ts[i], r[i])
    ensures forall i :: 0 <= i < |ts| && i != k ==> r[i].tokens == ts[i].tokens && r[i].diag == ts[i].diag && r[i].children == ts[i].children
    ensures r[k].tokens == enc.tokens && r[k].diag == enc.diag && r[k].children == enc.children
  {
    var updated := ts[k := ts[k].(tokens := enc.tokens, diag := enc.diag, children := enc.children)];
    EdgesInRange(ts, enc.children);
    var r := AddParents(updated, enc.children, k, ts[k].path);
    AdoptLinked(ts, k, enc, updated, r);
    r
  }

  /** Valid edges point inside the list. */
  lemma EdgesInRange(ts: seq<Template>, es: seq<ChildEdge>)
    requires forall e :: e in es ==> ValidEdge(ts, e)
    ensures forall e :: e in es ==> e.index < |ts|
    ensures forall x :: x in Indices(es) ==> x < |ts|
  {
    forall x | x in Indices(es) ensures x < |ts| {
      var j := IndexIn(es, x);
      assert ValidEdge(ts, es[j]);
    }
  }

  /** Adding parent records after installing a linked encoding keeps the list linked. */
  lemma AdoptLinked(ts: seq<Template>, k: nat, enc: Encoding, updated: seq<Template>, r: seq<Template>)
    requires k < |ts| && Linked(ts)
    requires Canonical(enc.tokens) && Refs(enc.tokens) == Indices(enc.children)
    requires forall x :: x in Indices(enc.children) ==> x < |ts|
    requires updated == ts[k := ts[k].(tokens := enc.tokens, diag := enc.diag, children := enc.children)]
    requires |r| == |updated|
    requires forall i :: 0 <= i < |updated| ==> r[i] == updated[i].(parents := r[i].parents)
    requires forall i :: 0 <= i < |updated| ==> |r[i].parents| >= |updated[i].parents|
    requires forall i :: 0 <= i < |updated| && i in Indices(enc.children) ==> |r[i].parents| > 0
    ensures Linked(r)
  {
    forall i | 0 <= i < |r|
      ensures r[i].needComm && Refs(r[i].tokens) == Indices(r[i].children) && Canonical(r[i].tokens)
    {
      if i != k { assert r[i].tokens == ts[i].tokens && r[i].children == ts[i].children; }
    }
    forall i, x | 0 <= i < |r| && x in Indices(r[i].children)
      ensures x < |r| && |r[x].parents| > 0
    {
      if i != k {
        assert r[i].children == ts[i].children;
        assert |r[x].parents| >= |updated[x].parents| == |ts[x].parents|;
      }
    }
  }

  /** Where in the edge list an index comes from. */
  lemma IndexIn(es: seq<ChildEdge>, x: nat) returns (j: nat)
    requires x in Indices(es)
    ensures j < |es| && es[j].index == x
    decreases |es|
  {
    if es[0].index == x {
      j := 0;
    } else {
      assert Indices(es) == [es[0].index] + Indices(es[1..]);
      var j' := IndexIn(es[1..], x);
      j := j' + 1;
    }
  }

  // ---------------------------------------------------------------------------
  // Output
  // ---------------------------------------------------------------------------

  /** The `key=out` fields the templates add to the output string, in order. */
  function Entries(ts: seq<Template>): string
    decreases |ts|
  {
    if |ts| == 0 then "" else "=" + ts[0].key + "=" + ts[0].out + Entries(ts[1..])
  }

  /** The string form: version, bundle, then each template's key and output, `=`-separated. */
  function OutString(version: string, comm: string, ts: seq<Template>): string {
    "version=" + version + "=comm=" + comm + Entries(ts)
  }

  /** The keys and outputs of the templates, interleaved. */
  function Fields(ts: seq<Template>): seq<string>
    decreases |ts|
  {
    if |ts| == 0 then [] else [ts[0].key, ts[0].out] + Fields(ts[1..])
  }

  /** No key or output holds the separator. */
  predicate Separable(ts: seq<Template>) {
    forall i :: 0 <= i < |ts| ==> '=' !in ts[i].key && '=' !in ts[i].out
  }

  /** Splitting at a separator that the first piece lacks cuts exactly there. */
  lemma {:induction false} SplitCons(a: string, c: char, b: string)
    requires c !in a
    ensures Split(a + [c] + b, c) == [a] + Split(b, c)
    decreases |a|
  {
    if |a| == 0 {
      assert a + [c] + b == [c] + b;
      assert ([c] + b)[1..] == b;
    } else {
      var s := a + [c] + b;
      assert s[1..] == a[1..] + [c] + b;
      SplitCons(a[1..], c, b);
      assert [a[0]] + a[1..] == a;
    }
  }

  /** Two separator-free pieces in front of `b` split off as two fields. */
  lemma SplitTwice(x: string, k: string, b: string, fs: seq<string>)
    requires '=' !in x && '=' !in k
    requires Split(b, '=') == fs
    ensures Split(x + ['='] + (k + ['='] + b), '=') == [x, k] + fs
  {
    SplitCons(x, '=', k + ['='] + b);
    SplitCons(k, '=', b);
  }

  lemma {:induction false} SplitEntries(x: string, ts: seq<Template>)
    requires '=' !in x && Separable(ts)
    ensures Split(x + Entries(ts), '=') == [x] + Fields(ts)
    decreases |ts|
  {
    if |ts| == 0 {
      assert x + Entries(ts) == x;
      SplitWithoutSeparator(x, '=');
    } else {
      var k := ts[0].key;
      var o := ts[0].out;
      var rest := Entries(ts[1..]);
      var fs := Fields(ts[1..]);
      SeparableTail(ts);
      EntriesStep(x, ts);
      SplitEntries(o, ts[1..]);
      SplitEntry(x, k, o, rest, fs);
      assert Fields(ts) == [k, o] + fs;
    }
  }

  /** One `=key=out` entry in front of a tail that splits into `[o] + fs`. */
  lemma SplitEntry(x: string, k: string, o: string, rest: string, fs: seq<string>)
    requires '=' !in x && '=' !in k
    requires Split(o + rest, '=') == [o] + fs
    ensures Split(x + ['='] + (k + ['='] + (o + rest)), '=') == [x] + ([k, o] + fs)
  {
    SplitTwice(x, k, o + rest, [o] + fs);
    assert [x, k] + ([o] + fs) == [x] + ([k, o] + fs);
  }

  lemma SeparableTail(ts: seq<Template>)
    requires |ts| > 0 && Separable(ts)
    ensures '=' !in ts[0].key && '=' !in ts[0].out && Separable(ts[1..])
  {
    forall i | 0 <= i < |ts[1..]| ensures '=' !in ts[1..][i].key && '=' !in ts[1..][i].out {
      assert ts[1..][i] == ts[i + 1];
    }
  }

  /** One template's entry split off the front. */
  lemma EntriesStep(x: string, ts: seq<Template>)
    requires |ts| > 0
    ensures x + Entries(ts) == x + ['='] + (ts[0].key + ['='] + (ts[0].out + Entries(ts[1..])))
  {
    var k, o, r := ts[0].key, ts[0].out, Entries(ts[1..]);
    assert Entries(ts) == "=" + k + "=" + o + r;
    EntryRegroup(x, k, o, r);
  }

  lemma EntryRegroup(x: string, k: string, o: string, r: string)
    ensures x + ("=" + k + "=" + o + r) == x + ['='] + (k + ['='] + (o + r))
  {
  }

  /**
   * The string form reads back by splitting at `=`: the version, the bundle,
   * then each template's key and output, provided none of them holds a `=`.
   */
  lemma OutStringFields(version: string, comm: string, ts: seq<Template>)
    requires '=' !in version && '=' !in comm && Separable(ts)
    ensures Split(OutString(version, comm, ts), '=') == ["version", version, "comm", comm] + Fields(ts)
  {
    var tail := comm + Entries(ts);
    var fs := Fields(ts);
    var t3 := "comm" + ['='] + tail;
    var t2 := version + ['='] + t3;
    assert Split(t3, '=') == ["comm", comm] + fs by {
      SplitEntries(comm, ts);
      SplitCons("comm", '=', tail);
    }
    assert Split(t2, '=') == [version, "comm", comm] + fs by {
      SplitCons(version, '=', t3);
    }
    assert OutString(version, comm, ts) == "version" + ['='] + t2 by {
      OutStringStep(version, comm, ts);
    }
    SplitCons("version", '=', t2);
  }

  lemma OutStringStep(version: string, comm: string, ts: seq<Template>)
    ensures OutString(version, comm, ts) == "version" + ['='] + (version + ['='] + ("comm" + ['='] + (comm + Entries(ts))))
  {
  }

  /** The map form, as its entries in insertion order. */
  type OutMap = seq<(string, string)>

  function Key(e: (string, string)): string { e.0 }

  /** The value stored under `k`, if any. */
  function Lookup(m: OutMap, k: string): (r: Option<string>)
    ensures r.None? <==> forall i :: 0 <= i < |m| ==> m[i].0 != k
    ensures r.Some? ==> exists i :: 0 <= i < |m| && m[i] == (k, r.value)
  {
    var i := GetArrIdx(m, Key, k);
    if i == -1 then None else Some(m[i].1)
  }

  /** Each key is stored at most once. */
  predicate UniqueKeys(m: OutMap) {
    forall i, j :: 0 <= i < j < |m| ==> m[i].0 != m[j].0
  }

  /** `m[k] = v`: an existing key keeps its place and takes the new value; a new key goes last. */
  function Put(m: OutMap, k: string, v: string): (r: OutMap)
    requires UniqueKeys(m)
    ensures UniqueKeys(r)
    ensures Lookup(r, k) == Some(v)
    ensures forall k' :: k' != k ==> Lookup(r, k') == Lookup(m, k')
    ensures Lookup(m, k).None? ==> r == m + [(k, v)]
    ensures Lookup(m, k).Some? ==> |r| == |m| && forall i :: 0 <= i < |m| ==> r[i].0 == m[i].0
  {
    var i := GetArrIdx(m, Key, k);
    if i == -1 then
      var r := m + [(k, v)];
      assert r[|m|] == (k, v);
      forall k' | k' != k ensures Lookup(r, k') == Lookup(m, k') {
        AppendedFrame(m, k, v, k');
      }
      r
    else
      var r := m[i := (k, v)];
      assert r[i] == (k, v);
      forall k' | k' != k ensures Lookup(r, k') == Lookup(m, k') {
        OverwrittenFrame(m, i, k, v, k');
      }
      r
  }

  /** A new last entry under `k` leaves every other key's value alone. */
  lemma AppendedFrame(m: OutMap, k: string, v: string, k': string)
    requires k' != k
    ensures Lookup(m + [(k, v)], k') == Lookup(m, k')
  {
    var r := m + [(k, v)];
    var a := GetArrIdx(r, Key, k');
    var b := GetArrIdx(m, Key, k');
    assert forall j :: 0 <= j < |m| ==> r[j] == m[j];
    assert Key(r[|m|]) != k';
  }

  /** Overwriting the entry under `k` in place leaves every other key's value alone. */
  lemma OverwrittenFrame(m: OutMap, i: int, k: string, v: string, k': string)
    requires 0 <= i < |m| && m[i].0 == k && k' != k
    ensures Lookup(m[i := (k, v)], k') == Lookup(m, k')
  {
    var r := m[i := (k, v)];
    var a := GetArrIdx(r, Key, k');
    var b := GetArrIdx(m, Key, k');
    assert Key(m[i]) == k && Key(r[i]) == k;
    assert forall j :: 0 <= j < |m| && j != i ==> r[j] == m[j];
    assert forall j :: 0 <= j < |m| ==> (Key(r[j]) == k' <==> Key(m[j]) == k');
  }

  /** Stores every template's output under its path, in template order. */
  function PutAll(m: OutMap, ts: seq<Template>): (r: OutMap)
    requires UniqueKeys(m)
    ensures UniqueKeys(r)
    ensures forall k :: Lookup(r, k) == (match LastOut(ts, k) case Some(o) => Some(o) case None => Lookup(m, k))
    decreases |ts|
  {
    if |ts| == 0 then m
    else
      var r := PutAll(Put(m, ts[0].path, ts[0].out), ts[1..]);
      forall k ensures Lookup(r, k) == (match LastOut(ts, k) case Some(o) => Some(o) case None => Lookup(m, k)) {
        LastOutStep(ts, k);
      }
      r
  }

  /** The output of the last template with path `k`: later templates overwrite earlier ones. */
  function LastOut(ts: seq<Template>, k: string): Option<string>
    decreases |ts|
  {
    if |ts| == 0 then None
    else if ts[|ts| - 1].path == k then Some(ts[|ts| - 1].out)
    else LastOut(ts[..|ts| - 1], k)
  }

  /** `LastOut` read from the front. */
  lemma {:induction false} LastOutStep(ts: seq<Template>, k: string)
    requires |ts| > 0
    ensures LastOut(ts, k) == (match LastOut(ts[1..], k)
                               case Some(o) => Some(o)
                               case None => if ts[0].path == k then Some(ts[0].out) else None)
    decreases |ts|
  {
    if |ts| > 1 && ts[|ts| - 1].path != k {
      LastOutStep(ts[..|ts| - 1], k);
      assert ts[..|ts| - 1][1..] == ts[1..][..|ts[1..]| - 1];
    }
  }

  /** The map form: the version, the bundle, then each template's output under its path. */
  function OutMapOf(version: string, comm: string, ts: seq<Template>): (r: OutMap)
    ensures UniqueKeys(r)
    ensures forall k :: Lookup(r, k) ==
              (match LastOut(ts, k)
               case Some(o) => Some(o)
               case None => if k == "comm" then Some(comm) else if k == "version" then Some(version) else None)
  {
    var base := Put(Put([], "version", version), "comm", comm);
    PutAll(base, ts)
  }

  // ---------------------------------------------------------------------------
  // The whole compile
  // ---------------------------------------------------------------------------

  /** What a compile delivers: the string form, the map form, or the plain-CSS result. */
  datatype Output = Text(text: string) | Table(entries: OutMap) | Delegated

  /** The subpackage's stylesheet path, once the option is known. */
  function SubpackagePath(ops: PathOps, subpackage: string): string {
    if subpackage != "" then "./" + ops.join(subpackage, "app.wxss") else ""
  }

  /** The intermediate results of a compile: the loaded list, the encoded list, and the generation. */
  datatype Run = Run(setup: Setup, parsed: seq<Template>, generated: Generated)

  /** Fresh templates are linked: no edges, no tokens, all eligible. */
  lemma LoadedLinked(ts: seq<Template>)
    requires forall i :: 0 <= i < |ts| ==> ts[i] == Loaded(ts[i].path, ts[i].content)
    ensures Linked(ts)
  {
    forall i | 0 <= i < |ts| ensures Refs(ts[i].tokens) == Indices(ts[i].children) && Canonical(ts[i].tokens) {
      assert ts[i].tokens == [] && ts[i].children == [];
    }
  }

  /**
   * The first stages of `compile` with a page count: select the files, read
   * them, add the placeholders. It fails exactly when a selected file cannot
   * be read, and otherwise each selected file's template holds what the
   * host read for it.
   */
  function Gather(h: Host, cmd: Cmd, files: seq<string>, base: string): (r: Result<Setup, CompileError>)
    requires cmd.pc.Some?
    ensures var sel := SelectFiles(files, cmd.pc.value);
            r.Ok? <==> forall i :: 0 <= i < |sel.files| ==> h.read(SourcePath(h.ops, base, sel.files[i])).Ok?
    ensures var sel := SelectFiles(files, cmd.pc.value);
            r.Ok? ==> && (forall i :: 0 <= i < |sel.files| ==> h.read(SourcePath(h.ops, base, sel.files[i])).Ok?)
                      && Gathered(sel, Reads(h, base, sel.files), cmd.subpackage, SubpackagePath(h.ops, cmd.subpackage), r.value)
    ensures r.Err? ==> r.error.ReadFailure?
  {
    var sel := SelectFiles(files, cmd.pc.value);
    var loaded :- LoadAll(sel.files, base, h);
    var subPath := SubpackagePath(h.ops, cmd.subpackage);
    PlaceholdersGathered(sel, Reads(h, base, sel.files), cmd.subpackage, subPath, loaded);
    Ok(AddPlaceholders(loaded, sel.appIdx, sel.subIdx, cmd.subpackage, subPath))
  }

  /** What the host reads for each file, when every read succeeds. */
  function Reads(h: Host, base: string, files: seq<string>): (cs: seq<string>)
    requires forall i :: 0 <= i < |files| ==> h.read(SourcePath(h.ops, base, files[i])).Ok?
    ensures |cs| == |files|
  {
    seq(|files|, i requires 0 <= i < |files| => h.read(SourcePath(h.ops, base, files[i])).value)
  }

  /**
   * The gathered list: the selected files, each as a fresh template holding
   * its content, after the placeholders, which are empty; the entry
   * positions as the placeholder step leaves them.
   */
  predicate Gathered(sel: Selection, contents: seq<string>, subpackage: string, subPath: string, setup: Setup) {
    var ts := setup.templates;
    var missingSub := subpackage != "" && sel.subIdx == -1;
    && |contents| == |sel.files|
    && |ts| == |sel.files| + (if sel.appIdx == -1 then 1 else 0) + (if missingSub then 1 else 0)
    && (forall i :: 0 <= i < |sel.files| ==> ts[|ts| - |sel.files| + i] == Loaded(sel.files[i], contents[i]))
    && (forall i :: 0 <= i < |ts| - |sel.files| ==> ts[i] == Loaded(ts[i].path, ""))
    && (forall i :: 0 <= i < |ts| ==> ts[i] == Loaded(ts[i].path, ts[i].content))
    && (sel.appIdx == -1 ==> 0 <= setup.appIdx < |ts| && ts[setup.appIdx] == Loaded(AppWxssPath, ""))
    && (sel.appIdx != -1 && !missingSub ==> setup.appIdx == sel.appIdx)
    && (missingSub ==> setup.subIdx == 0 && ts[0] == Loaded(subPath, ""))
    && (!missingSub ==> setup.subIdx == sel.subIdx)
  }

  lemma PlaceholdersGathered(sel: Selection, contents: seq<string>, subpackage: string, subPath: string, loaded: seq<Template>)
    requires |loaded| == |sel.files| == |contents|
    requires forall i :: 0 <= i < |loaded| ==> loaded[i] == Loaded(sel.files[i], contents[i])
    ensures Gathered(sel, contents, subpackage, subPath, AddPlaceholders(loaded, sel.appIdx, sel.subIdx, subpackage, subPath))
  {
    GatheredOfPlaced(sel, contents, subpackage, subPath, loaded, AddPlaceholders(loaded, sel.appIdx, sel.subIdx, subpackage, subPath));
  }

  lemma GatheredOfPlaced(sel: Selection, contents: seq<string>, subpackage: string, subPath: string, loaded: seq<Template>, setup: Setup)
    requires |loaded| == |sel.files| == |contents|
    requires forall i :: 0 <= i < |loaded| ==> loaded[i] == Loaded(sel.files[i], contents[i])
    requires Placed(loaded, sel.appIdx, sel.subIdx, subpackage, subPath, setup)
    ensures Gathered(sel, contents, subpackage, subPath, setup)
  {
    var ts := setup.templates;
    var n := |ts| - |loaded|;
    forall i | 0 <= i < |sel.files|
      ensures ts[n + i] == Loaded(sel.files[i], contents[i])
    {
      assert ts[n + i] == ts[n..][i] == loaded[i];
    }
    forall i | 0 <= i < |ts|
      ensures ts[i] == Loaded(ts[i].path, ts[i].content)
    {
      if i >= n {
        assert ts[i] == ts[n..][i - n];
      }
    }
  }

  /**
   * The stages of `compile` with a page count: gather, encode every
   * template, generate. Every template of the result is keyed by its path
   * and has an escaped output, the bundle is escaped, and the generation's
   * entry names a template.
   */
  function Stages(rt: Script, h: Host, cmd: Cmd, files: seq<string>, base: string): (r: Result<Run, CompileError>)
    requires cmd.pc.Some?
    ensures r.Ok? ==> Gather(h, cmd, files, base) == Ok(r.value.setup)
    ensures r.Ok? ==> PassResult(Outcomes(h, cmd.db, r.value.setup.templates), r.value.setup.templates, 0, Ok(r.value.parsed))
    ensures r.Ok? ==> var ts := r.value.setup.templates;
                      && |r.value.parsed| == |ts|
                      && (forall i :: 0 <= i < |ts| ==> Kept(ts[i], r.value.parsed[i]))
                      && Generation(rt, r.value.parsed, r.value.generated,
                                    EntryIndex(cmd.subpackage, r.value.setup.appIdx, r.value.setup.subIdx))
    ensures r.Ok? ==> Delivered(r.value.setup.templates, r.value.generated)
    ensures r.Err? ==> Fatal(r.error)
  {
    var setup :- Gather(h, cmd, files, base);
    Encoded(rt, h, cmd, setup)
  }

  /** Encoding and generation over the gathered templates. */
  function Encoded(rt: Script, h: Host, cmd: Cmd, setup: Setup): (r: Result<Run, CompileError>)
    requires forall i :: 0 <= i < |setup.templates| ==> setup.templates[i] == Loaded(setup.templates[i].path, setup.templates[i].content)
    ensures r.Ok? ==> r.value.setup == setup
    ensures r.Ok? ==> PassResult(Outcomes(h, cmd.db, setup.templates), setup.templates, 0, Ok(r.value.parsed))
    ensures r.Ok? ==> var ts := setup.templates;
                      && |r.value.parsed| == |ts|
                      && (forall i :: 0 <= i < |ts| ==> Kept(ts[i], r.value.parsed[i]))
                      && Generation(rt, r.value.parsed, r.value.generated,
                                    EntryIndex(cmd.subpackage, setup.appIdx, setup.subIdx))
    ensures r.Ok? ==> Delivered(setup.templates, r.value.generated)
    ensures r.Err? ==> Fatal(r.error)
  {
    LoadedLinked(setup.templates);
    match EncodeFrom(h, cmd.db, setup.templates, 0)
    case Err(e) => Err(e)
    case Ok(parsed) =>
      PassSucceeded(Outcomes(h, cmd.db, setup.templates), setup.templates, parsed);
      GeneratedRun(rt, cmd, setup, parsed)
  }

  /** A pass that succeeds keeps every template's path, content and output. */
  lemma PassSucceeded(ps: seq<Result<Option<Encoding>, CompileError>>, ts: seq<Template>, parsed: seq<Template>)
    requires PassResult(ps, ts, 0, Ok(parsed))
    ensures |parsed| == |ts| && forall i :: 0 <= i < |ts| ==> Kept(ts[i], parsed[i])
  {
  }

  /** Generation over the encoded templates, packed with the setup they came from. */
  function GeneratedRun(rt: Script, cmd: Cmd, setup: Setup, parsed: seq<Template>): (r: Result<Run, CompileError>)
    requires forall i :: 0 <= i < |setup.templates| ==> setup.templates[i] == Loaded(setup.templates[i].path, setup.templates[i].content)
    requires |parsed| == |setup.templates| && Linked(parsed)
    requires forall i :: 0 <= i < |setup.templates| ==> Kept(setup.templates[i], parsed[i])
    ensures r.Ok? ==> r.value.setup == setup && r.value.parsed == parsed
    ensures r.Ok? ==> Generation(rt, parsed, r.value.generated, EntryIndex(cmd.subpackage, setup.appIdx, setup.subIdx))
    ensures r.Ok? ==> Delivered(setup.templates, r.value.generated)
    ensures r.Err? ==> r.error.CycleImport? || r.error == MissingEntryFault
  {
    LinkedIsWellLinked(parsed);
    var g :- GenCode(rt, parsed, cmd.subpackage, setup.appIdx, setup.subIdx);
    DeliveredOf(rt, setup.templates, parsed, g, EntryIndex(cmd.subpackage, setup.appIdx, setup.subIdx));
    Ok(Run(setup, parsed, g))
  }

  /** The errors a compile can end with. */
  predicate Fatal(e: CompileError) {
    || e.ReadFailure? || e.ParseFailure? || e.ImportNotFound? || e == EmptyUrlFault
    || e.CycleImport? || e == MissingEntryFault
  }

  /** What the output step reads: one keyed, escaped output per template, and an escaped bundle. */
  predicate Delivered(ts: seq<Template>, g: Generated) {
    && |g.templates| == |ts|
    && (forall i :: 0 <= i < |ts| ==>
          g.templates[i].path == ts[i].path && g.templates[i].key == ts[i].path
          && g.templates[i].out != "" && Plain(g.templates[i].out))
    && Plain(g.comm)
  }

  lemma DeliveredOf(rt: Script, ts: seq<Template>, parsed: seq<Template>, g: Generated, e: int)
    requires |parsed| == |ts|
    requires forall i :: 0 <= i < |ts| ==> ts[i] == Loaded(ts[i].path, ts[i].content)
    requires forall i :: 0 <= i < |ts| ==> Kept(ts[i], parsed[i])
    requires Generation(rt, parsed, g, e)
    ensures Delivered(ts, g)
  {
    forall i | 0 <= i < |ts|
      ensures g.templates[i].path == ts[i].path && g.templates[i].key == ts[i].path
              && g.templates[i].out != "" && Plain(g.templates[i].out)
    {
      assert parsed[i].out == "";
      assert SameSource(parsed[i], g.templates[i]);
    }
  }

  /**
   * `compile` for parsed options: a zero or unreadable page count hands every
   * template to the plain-CSS compiler; otherwise the stages run and their
   * result is written out as the map form under `-om`, else as the string form.
   */
  function CompileWith(rt: Script, h: Host, cmd: Cmd, files: seq<string>, base: string): (r: Result<Output, CompileError>)
    ensures cmd.pc.None? || cmd.pc == Some(0) ==> r == Ok(Delegated)
    ensures cmd.pc.Some? && cmd.pc != Some(0) ==> (r.Ok? <==> Stages(rt, h, cmd, files, base).Ok?)
    ensures r.Err? ==> Fatal(r.error)
    ensures r.Ok? && cmd.pc.Some? && cmd.pc != Some(0) ==> (r.value.Table? <==> cmd.om) && (r.value.Text? <==> !cmd.om)
    ensures r.Ok? && cmd.pc.Some? && cmd.pc != Some(0) ==>
              var g := Stages(rt, h, cmd, files, base).value.generated;
              r.value == Written(Version(h.packageVersion), cmd.om, g)
  {
    if cmd.pc.None? || cmd.pc == Some(0) then Ok(Delegated)
    else
      var run :- Stages(rt, h, cmd, files, base);
      Ok(Written(Version(h.packageVersion), cmd.om, run.generated))
  }

  /** A generation written out: the map form when `om` is set, else the string form. */
  function Written(v: string, om: bool, g: Generated): (o: Output)
    ensures o.Table? <==> om
    ensures o.Text? <==> !om
  {
    if om then Table(OutMapOf(v, g.comm, g.templates)) else Text(OutString(v, g.comm, g.templates))
  }

  /** `new WCSC(config).compile()`: the options come from the argument list. */
  function Compile(rt: Script, h: Host, args: seq<string>, files: seq<string>, base: string): (r: Result<Output, CompileError>)
    ensures ParseCmd(args).pc == Some(0) ==> r == Ok(Delegated)
    ensures r.Ok? && r.value.Table? ==> "-om" in args
    ensures r.Ok? && r.value.Text? ==> "-om" !in args
    ensures var cmd := ParseCmd(args);
            cmd.pc.Some? && cmd.pc != Some(0) ==> (r.Ok? <==> Stages(rt, h, cmd, files, base).Ok?)
    ensures var cmd := ParseCmd(args);
            r.Ok? && cmd.pc.Some? && cmd.pc != Some(0) ==>
              r.value == Written(Version(h.packageVersion), "-om" in args, Stages(rt, h, cmd, files, base).value.generated)
  {
    CompileWith(rt, h, ParseCmd(args), files, base)
  }

  /** The compiler as shipped, with the standard runtime script. */
  function Wcsc(h: Host, args: seq<string>, files: seq<string>, base: string): Result<Output, CompileError> {
    Compile(Standard, h, args, files, base)
  }

  /**
   * The string form of a successful compile reads back by splitting at `=`:
   * the version, the bundle, then each template's path and escaped output,
   * provided the version and the paths hold no `=`.
   */
  lemma TextFields(rt: Script, h: Host, cmd: Cmd, files: seq<string>, base: string)
    requires cmd.pc.Some? && cmd.pc != Some(0) && !cmd.om
    requires CompileWith(rt, h, cmd, files, base).Ok?
    requires '=' !in Version(h.packageVersion)
    requires forall i :: 0 <= i < |Stages(rt, h, cmd, files, base).value.setup.templates| ==>
               '=' !in Stages(rt, h, cmd, files, base).value.setup.templates[i].path
    ensures var g := Stages(rt, h, cmd, files, base).value.generated;
            && CompileWith(rt, h, cmd, files, base).value == Text(OutString(Version(h.packageVersion), g.comm, g.templates))
            && Split(CompileWith(rt, h, cmd, files, base).value.text, '=')
               == ["version", Version(h.packageVersion), "comm", g.comm] + Fields(g.templates)
  {
    var run := Stages(rt, h, cmd, files, base).value;
    DeliveredFields(Version(h.packageVersion), run.setup.templates, run.generated);
  }

  /** Delivered outputs under `=`-free paths read back from the string form. */
  lemma DeliveredFields(version: string, ts: seq<Template>, g: Generated)
    requires '=' !in version && Delivered(ts, g)
    requires forall i :: 0 <= i < |ts| ==> '=' !in ts[i].path
    ensures Split(OutString(version, g.comm, g.templates), '=') == ["version", version, "comm", g.comm] + Fields(g.templates)
  {
    assert Plain(g.comm);
    assert Separable(g.templates) by {
      forall i | 0 <= i < |g.templates| ensures '=' !in g.templates[i].key && '=' !in g.templates[i].out {
        assert Plain(g.templates[i].out);
      }
    }
    OutStringFields(version, g.comm, g.templates);
  }

  /**
   * As written, the application stylesheet's position is not updated when it
   * is moved to the front: with no subpackage, no empty path among the files,
   * and the application stylesheet sorting at or past a positive page count,
   * the bundle's entry position lies past the end of the list and the compile
   * fails.
   */
  lemma AppPastCountFails(rt: Script, h: Host, cmd: Cmd, files: seq<string>, base: string)
    requires cmd.pc.Some? && cmd.pc.value >= 1 && cmd.subpackage == ""
    requires "" !in files
    requires Find(Sort(files), AppWxssPath) >= cmd.pc.value
    ensures CompileWith(rt, h, cmd, files, base).Err?
  {
    GatheredEntryPastEnd(h, cmd, files, base);
    var r := Stages(rt, h, cmd, files, base);
  }

  /** Under the same conditions, the gathered list's entry position lies outside it. */
  lemma GatheredEntryPastEnd(h: Host, cmd: Cmd, files: seq<string>, base: string)
    requires cmd.pc.Some? && cmd.pc.value >= 1 && cmd.subpackage == ""
    requires "" !in files
    requires Find(Sort(files), AppWxssPath) >= cmd.pc.value
    ensures Gather(h, cmd, files, base).Ok? ==>
              var setup := Gather(h, cmd, files, base).value;
              EntryIndex(cmd.subpackage, setup.appIdx, setup.subIdx) >= |setup.templates|
  {
    SelectionShape(files, cmd.pc.value);
  }

  /**
   * As written, the subpackage's stylesheet is looked up under the empty path:
   * with a subpackage and no empty path among the files, an empty placeholder
   * at position 0 is always the bundle's entry, even when the subpackage's
   * own stylesheet is among the files.
   */
  lemma SubpackageEntryIsPlaceholder(rt: Script, h: Host, cmd: Cmd, files: seq<string>, base: string)
    requires cmd.pc.Some? && cmd.pc.value >= 1 && cmd.subpackage != ""
    requires "" !in files
    requires Stages(rt, h, cmd, files, base).Ok?
    ensures var run := Stages(rt, h, cmd, files, base).value;
            && run.setup.subIdx == 0
            && EntryIndex(cmd.subpackage, run.setup.appIdx, run.setup.subIdx) == 0
            && run.setup.templates[0] == Loaded(SubpackagePath(h.ops, cmd.subpackage), "")
  {
    SelectionShape(files, cmd.pc.value);
  }
}
