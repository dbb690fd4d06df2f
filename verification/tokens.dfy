/**
 * The encoded form of a stylesheet: a list whose elements are literal
 * strings or the markers `[0, n]` (an rpx length), `[1]` (the per-page scope
 * suffix) and `[2, i]` (a reference to another template's encoding).
 *
 * The encoder builds it through a `Sink`: a pending literal buffer plus the
 * tokens emitted so far. The buffer is flushed only when a marker interrupts
 * it or the stylesheet ends, so no literal is ever empty and no two literals
 * are adjacent.
 */
module Tokens {
  import opened Strings

  datatype Token =
    | Lit(text: string)
    | Rpx(num: string)
    | Suffix
    | Ref(index: nat)

  /** The text a token list stands for with an empty scope suffix and rpx lengths kept as written. */
  function Text(ts: seq<Token>): string
    decreases |ts|
  {
    if |ts| == 0 then "" else TokenText(ts[0]) + Text(ts[1..])
  }

  function TokenText(t: Token): string {
    match t
    case Lit(s) => s
    case Rpx(n) => n + "rpx"
    case Suffix => ""
    case Ref(_) => ""
  }

  lemma {:induction false} TextAppend(a: seq<Token>, b: seq<Token>)
    ensures Text(a + b) == Text(a) + Text(b)
    decreases |a|
  {
    if |a| > 0 {
      TextAppend(a[1..], b);
      assert (a + b)[1..] == a[1..] + b;
    } else {
      assert a + b == b;
    }
  }

  lemma TextSingle(t: Token)
    ensures Text([t]) == TokenText(t)
  {
    assert [t][1..] == [];
  }

  /** The template indices of the `[2, i]` markers, in order. */
  function Refs(ts: seq<Token>): seq<nat>
    decreases |ts|
  {
    if |ts| == 0 then []
    else (if ts[0].Ref? then [ts[0].index] else []) + Refs(ts[1..])
  }

  lemma {:induction false} RefsAppend(a: seq<Token>, b: seq<Token>)
    ensures Refs(a + b) == Refs(a) + Refs(b)
    decreases |a|
  {
    if |a| > 0 {
      RefsAppend(a[1..], b);
      assert (a + b)[1..] == a[1..] + b;
    } else {
      assert a + b == b;
    }
  }

  lemma RefsSingle(t: Token)
    ensures Refs([t]) == (if t.Ref? then [t.index] else [])
  {
    assert [t][1..] == [];
  }

  // ---------------------------------------------------------------------------
  // The symbol stream: literal characters and markers, in order
  // ---------------------------------------------------------------------------

  /** One symbol of what a token list stands for: a character of literal text, or a marker. */
  datatype Sym = Ch(c: char) | Mark(marker: Token)

  /** Literal text as symbols. */
  function Chars(s: string): (r: seq<Sym>)
    ensures |r| == |s|
    ensures forall i :: 0 <= i < |s| ==> r[i] == Ch(s[i])
  {
    seq(|s|, i requires 0 <= i < |s| => Ch(s[i]))
  }

  lemma CharsAppend(a: string, b: string)
    ensures Chars(a + b) == Chars(a) + Chars(b)
  {
    assert forall i :: 0 <= i < |a + b| ==> Chars(a + b)[i] == (Chars(a) + Chars(b))[i];
  }

  /** Equal symbols mean equal text. */
  lemma CharsInjective(a: string, b: string)
    requires Chars(a) == Chars(b)
    ensures a == b
  {
    assert forall i :: 0 <= i < |a| ==> Chars(a)[i] == Ch(a[i]) && Chars(b)[i] == Ch(b[i]);
  }

  function TokenSyms(t: Token): seq<Sym> {
    if t.Lit? then Chars(t.text) else [Mark(t)]
  }

  /**
   * The symbols a token list stands for: each literal's characters, and each
   * marker as itself. Unlike `Text`, this keeps every marker's kind and place.
   */
  function Syms(ts: seq<Token>): seq<Sym>
    decreases |ts|
  {
    if |ts| == 0 then [] else TokenSyms(ts[0]) + Syms(ts[1..])
  }

  lemma {:induction false} SymsAppend(a: seq<Token>, b: seq<Token>)
    ensures Syms(a + b) == Syms(a) + Syms(b)
    decreases |a|
  {
    if |a| > 0 {
      SymsAppend(a[1..], b);
      assert (a + b)[1..] == a[1..] + b;
    } else {
      assert a + b == b;
    }
  }

  lemma SymsSingle(t: Token)
    ensures Syms([t]) == TokenSyms(t)
  {
    assert [t][1..] == [];
  }

  /** The text a symbol stands for: a character itself, a marker as `Text` renders it. */
  function SymText(x: Sym): string {
    if x.Ch? then [x.c] else TokenText(x.marker)
  }

  /** The text a symbol stream stands for, with an empty scope suffix and rpx lengths as written. */
  function Shown(ss: seq<Sym>): string
    decreases |ss|
  {
    if |ss| == 0 then "" else SymText(ss[0]) + Shown(ss[1..])
  }

  lemma {:induction false} ShownAppend(a: seq<Sym>, b: seq<Sym>)
    ensures Shown(a + b) == Shown(a) + Shown(b)
    decreases |a|
  {
    if |a| > 0 {
      ShownAppend(a[1..], b);
      assert (a + b)[1..] == a[1..] + b;
    } else {
      assert a + b == b;
    }
  }

  lemma {:induction false} ShownChars(s: string)
    ensures Shown(Chars(s)) == s
    decreases |s|
  {
    if |s| > 0 {
      ShownChars(s[1..]);
      assert Chars(s)[1..] == Chars(s[1..]);
      assert s == [s[0]] + s[1..];
    }
  }

  /** The symbol stream, shown, is the text of the token list. */
  lemma {:induction false} TextIsShown(ts: seq<Token>)
    ensures Text(ts) == Shown(Syms(ts))
    decreases |ts|
  {
    if |ts| > 0 {
      TextIsShown(ts[1..]);
      ShownAppend(TokenSyms(ts[0]), Syms(ts[1..]));
      if ts[0].Lit? {
        ShownChars(ts[0].text);
      } else {
        assert Shown([Mark(ts[0])]) == TokenText(ts[0]) + Shown([]);
      }
    }
  }

  /** No empty literal and no two literals side by side. */
  predicate Separated(ts: seq<Token>) {
    && (forall i :: 0 <= i < |ts| ==> NonEmptyLit(ts[i]))
    && (forall i :: 0 < i < |ts| ==> !(ts[i - 1].Lit? && ts[i].Lit?))
  }

  lemma SeparatedTail(ts: seq<Token>)
    requires Separated(ts) && |ts| > 0
    ensures Separated(ts[1..])
  {
    forall i | 0 < i < |ts[1..]|
      ensures !(ts[1..][i - 1].Lit? && ts[1..][i].Lit?)
    {
      assert ts[1..][i - 1] == ts[i] && ts[1..][i] == ts[i + 1];
    }
  }

  /** The symbols of a separated list that does not start with a literal start with a marker, if any. */
  lemma SymsStart(ts: seq<Token>)
    requires Separated(ts) && |ts| > 0
    ensures |Syms(ts)| > 0
    ensures ts[0].Lit? ==> Syms(ts)[0] == Ch(ts[0].text[0])
    ensures !ts[0].Lit? ==> Syms(ts)[0] == Mark(ts[0])
  {
    assert NonEmptyLit(ts[0]);
  }

  /**
   * A list without empty or adjacent literals is determined by its symbols:
   * the literals are exactly the maximal runs of characters, and the markers
   * are the markers. So the symbol stream loses nothing of a canonical list.
   */
  lemma {:induction false} SymsInjective(a: seq<Token>, b: seq<Token>)
    requires Separated(a) && Separated(b) && Syms(a) == Syms(b)
    ensures a == b
    decreases |a|
  {
    if |a| == 0 || |b| == 0 {
      if |a| > 0 { SymsStart(a); }
      if |b| > 0 { SymsStart(b); }
    } else {
      SymsStart(a);
      SymsStart(b);
      SeparatedTail(a);
      SeparatedTail(b);
      var ra, rb := Syms(a[1..]), Syms(b[1..]);
      assert Syms(a) == TokenSyms(a[0]) + ra;
      assert Syms(b) == TokenSyms(b[0]) + rb;
      if a[0].Lit? {
        assert b[0].Lit?;
        var s, t := a[0].text, b[0].text;
        LitRunEnds(a);
        LitRunEnds(b);
        assert |s| == |t|;
        assert Chars(s) == Syms(a)[..|s|] == Chars(t);
        CharsInjective(s, t);
        assert ra == Syms(a)[|s|..] == rb;
      } else {
        assert !b[0].Lit?;
        assert ra == Syms(a)[1..] == rb;
      }
      SymsInjective(a[1..], b[1..]);
      assert a == [a[0]] + a[1..] && b == [b[0]] + b[1..];
    }
  }

  /** After a leading literal of a separated list comes a marker, or nothing. */
  lemma LitRunEnds(ts: seq<Token>)
    requires Separated(ts) && |ts| > 0 && ts[0].Lit?
    ensures |Syms(ts)| == |ts[0].text| || (|Syms(ts)| > |ts[0].text| && Syms(ts)[|ts[0].text|].Mark?)
  {
    var n := |ts[0].text|;
    assert Syms(ts) == Chars(ts[0].text) + Syms(ts[1..]);
    if |ts| > 1 {
      SeparatedTail(ts);
      SymsStart(ts[1..]);
      assert !ts[1].Lit?;
      assert Syms(ts)[n] == Syms(ts[1..])[0];
    } else {
      assert ts[1..] == [];
    }
  }

  /** Pushing a literal (non-empty) and then an rpx or reference marker keeps a list open. */
  lemma OpenPush(ts: seq<Token>, extra: seq<Token>, m: Token)
    requires Open(ts) && (m.Rpx? || m.Ref?)
    requires extra == [] || (|extra| == 1 && extra[0].Lit? && extra[0].text != "")
    ensures Open(ts + extra + [m])
  {
    var r := ts + extra + [m];
    assert forall i :: 0 <= i < |ts| ==> r[i] == ts[i];
    assert |extra| == 1 ==> r[|ts|] == extra[0];
    assert r[|r| - 1] == m;
    forall i | 0 <= i < |r|
      ensures NonEmptyLit(r[i])
    {
      if i < |ts| { assert r[i] == ts[i]; }
    }
    forall i | 0 < i < |r|
      ensures Joined(r, i)
    {
      if i < |ts| {
        assert Joined(ts, i);
        assert r[i] == ts[i] && r[i - 1] == ts[i - 1];
      }
    }
  }

  /** Closing an open list with a non-empty literal leaves it canonical. */
  lemma CloseWithLit(ts: seq<Token>, b: string)
    requires Open(ts)
    ensures b != "" ==> Canonical(ts + [Lit(b)])
  {
    var r := ts + [Lit(b)];
    assert forall i :: 0 <= i < |ts| ==> r[i] == ts[i];
    forall i | 0 < i < |r|
      ensures Joined(r, i)
    {
      if i < |ts| {
        assert Joined(ts, i);
      }
    }
  }

  /** A literal ending in `.` followed by a suffix marker keeps a list open. */
  lemma OpenLead(ts: seq<Token>, b: string)
    requires Open(ts)
    ensures Open(ts + [Lit(b + "."), Suffix])
  {
    var r := ts + [Lit(b + "."), Suffix];
    assert forall i :: 0 <= i < |ts| ==> r[i] == ts[i];
    assert r[|ts|] == Lit(b + ".") && r[|ts| + 1] == Suffix;
    assert EndsWithDot(b + ".");
    forall i | 0 < i < |r|
      ensures Joined(r, i)
    {
      if i < |ts| {
        assert Joined(ts, i);
      }
    }
  }

  predicate EndsWithDot(s: string) {
    |s| > 0 && s[|s| - 1] == '.'
  }

  /**
   * The shape every finished encoding has: no empty literal, no two adjacent
   * literals, and every scope-suffix marker right after a literal ending in `.`.
   */
  predicate Canonical(ts: seq<Token>) {
    && (forall i :: 0 <= i < |ts| ==> NonEmptyLit(ts[i]))
    && (|ts| == 0 || !ts[0].Suffix?)
    && (forall i :: 0 < i < |ts| ==> Joined(ts, i))
  }

  predicate NonEmptyLit(t: Token) {
    t.Lit? ==> t.text != ""
  }

  /** The neighbour rules at position `i`: no literal after a literal, and a suffix only after a literal ending in `.`. */
  predicate Joined(ts: seq<Token>, i: nat)
    requires 0 < i < |ts|
  {
    && (ts[i - 1].Lit? ==> !ts[i].Lit?)
    && (ts[i].Suffix? ==> ts[i - 1].Lit? && EndsWithDot(ts[i - 1].text))
  }

  /** A canonical list that does not end in a literal: what a sink holds while the buffer is pending. */
  predicate Open(ts: seq<Token>) {
    Canonical(ts) && (|ts| == 0 || !ts[|ts| - 1].Lit?)
  }

  /** A canonical list is separated. */
  lemma CanonicalSeparated(ts: seq<Token>)
    requires Canonical(ts)
    ensures Separated(ts)
  {
    forall i | 0 < i < |ts|
      ensures !(ts[i - 1].Lit? && ts[i].Lit?)
    {
      assert Joined(ts, i);
    }
  }

  /** A canonical list is the only canonical list with its symbols. */
  lemma CanonicalBySyms(ts: seq<Token>)
    requires Canonical(ts)
    ensures forall other :: Canonical(other) && Syms(other) == Syms(ts) ==> other == ts
  {
    CanonicalSeparated(ts);
    forall other | Canonical(other) && Syms(other) == Syms(ts)
      ensures other == ts
    {
      CanonicalSeparated(other);
      SymsInjective(other, ts);
    }
  }

  /** The symbols of a list ending in a marker end in that marker. */
  lemma SymsLast(ts: seq<Token>)
    requires |ts| > 0 && !ts[|ts| - 1].Lit?
    ensures |Syms(ts)| > 0 && Syms(ts)[|Syms(ts)| - 1] == Mark(ts[|ts| - 1])
  {
    var n := |ts| - 1;
    SymsAppend(ts[..n], [ts[n]]);
    SymsSingle(ts[n]);
    assert ts == ts[..n] + [ts[n]];
  }

  /** The encoder's output channel: pending literal text and the tokens emitted so far. */
  datatype Sink = Sink(buf: string, toks: seq<Token>) {

    predicate Valid() {
      Open(toks)
    }

    /** Everything this sink stands for, emitted and pending, markers included. */
    function Content(): seq<Sym> {
      Syms(toks) + Chars(buf)
    }

    /** Appends literal text to the pending buffer. */
    function Append(s: string): (r: Sink)
      requires Valid()
      ensures r.Valid()
      ensures r.Content() == Content() + Chars(s)
      ensures r.toks == toks && r.buf == buf + s
    {
      CharsAppend(buf, s);
      Sink(buf + s, toks)
    }

    /**
     * Interrupts the literal with an rpx or reference marker: the buffer is
     * flushed when non-empty, the marker follows, and the buffer restarts empty.
     */
    function Emit(m: Token): (r: Sink)
      requires Valid() && (m.Rpx? || m.Ref?)
      ensures r.Valid()
      ensures r.Content() == Content() + [Mark(m)]
      ensures r.buf == "" && r.toks == toks + (if buf == "" then [] else [Lit(buf)]) + [m]
      ensures Refs(r.toks) == Refs(toks) + Refs([m])
    {
      var extra := if buf == "" then [] else [Lit(buf)];
      OpenPush(toks, extra, m);
      SymsAppend(toks + extra, [m]);
      SymsAppend(toks, extra);
      RefsAppend(toks + extra, [m]);
      RefsAppend(toks, extra);
      SymsSingle(m);
      SymsSingle(Lit(buf));
      RefsSingle(Lit(buf));
      Sink("", toks + extra + [m])
    }

    /**
     * A leading class: the buffer plus `.` is emitted as a literal, the scope
     * suffix marker follows, and the buffer restarts with the bare class name.
     */
    function Lead(name: string): (r: Sink)
      requires Valid()
      ensures r.Valid()
      ensures r.Content() == Content() + Chars(".") + [Mark(Suffix)] + Chars(name)
      ensures r.buf == name && r.toks == toks + [Lit(buf + "."), Suffix]
      ensures Refs(r.toks) == Refs(toks)
    {
      OpenLead(toks, buf);
      LeadSyms(toks, buf);
      LeadRefs(toks, buf);
      Sink(name, toks + [Lit(buf + "."), Suffix])
    }

    /** End of input: the pending buffer, if any, becomes the final literal. */
    function Finish(): (ts: seq<Token>)
      requires Valid()
      ensures Canonical(ts)
      ensures Syms(ts) == Content()
      ensures Refs(ts) == Refs(toks)
    {
      SymsAppend(toks, [Lit(buf)]);
      RefsAppend(toks, [Lit(buf)]);
      CloseWithLit(toks, buf);
      SymsSingle(Lit(buf));
      RefsSingle(Lit(buf));
      if buf == "" then toks else toks + [Lit(buf)]
    }
  }

  /** A dotted literal and a suffix marker add the dotted text and the marker. */
  lemma LeadSyms(ts: seq<Token>, b: string)
    ensures Syms(ts + [Lit(b + "."), Suffix]) == Syms(ts) + Chars(b) + Chars(".") + [Mark(Suffix)]
  {
    var pair := [Lit(b + "."), Suffix];
    SymsAppend(ts, pair);
    assert pair[1..] == [Suffix];
    SymsSingle(Suffix);
    assert Syms(pair) == Chars(b + ".") + [Mark(Suffix)];
    CharsAppend(b, ".");
    ConcatAssoc(Syms(ts), Chars(b) + Chars("."), [Mark(Suffix)]);
    ConcatAssoc(Syms(ts), Chars(b), Chars("."));
  }

  /** A dotted literal and a suffix marker add no reference. */
  lemma LeadRefs(ts: seq<Token>, b: string)
    ensures Refs(ts + [Lit(b + "."), Suffix]) == Refs(ts)
  {
    var pair := [Lit(b + "."), Suffix];
    RefsAppend(ts, pair);
    RefsAppend([Lit(b + ".")], [Suffix]);
    assert pair == [Lit(b + ".")] + [Suffix];
    RefsSingle(Lit(b + "."));
    RefsSingle(Suffix);
  }

  /**
   * A valid sink is determined by what it stands for: the pending buffer is
   * the run of characters after the last marker, and the emitted tokens are
   * the unique separated list with the remaining symbols.
   */
  lemma SinkDetermined(a: Sink, b: Sink)
    requires a.Valid() && b.Valid() && a.Content() == b.Content()
    ensures a == b
  {
    var c := a.Content();
    PendingIsTrailing(a);
    PendingIsTrailing(b);
    assert Chars(a.buf) == c[|c| - |a.buf|..] == Chars(b.buf);
    CharsInjective(a.buf, b.buf);
    assert Syms(a.toks) == c[..|c| - |a.buf|] == Syms(b.toks);
    CanonicalSeparated(a.toks);
    CanonicalSeparated(b.toks);
    SymsInjective(a.toks, b.toks);
  }

  /** The number of characters after the last marker. */
  function Trailing(c: seq<Sym>): nat
    decreases |c|
  {
    if |c| == 0 || c[|c| - 1].Mark? then 0 else 1 + Trailing(c[..|c| - 1])
  }

  lemma {:induction false} TrailingChars(p: seq<Sym>, s: string)
    requires |p| == 0 || p[|p| - 1].Mark?
    ensures Trailing(p + Chars(s)) == |s|
    decreases |s|
  {
    if |s| > 0 {
      var n := |s| - 1;
      CharsAppend(s[..n], [s[n]]);
      assert s == s[..n] + [s[n]];
      TrailingChars(p, s[..n]);
      assert (p + Chars(s))[..|p| + n] == p + Chars(s[..n]);
    } else {
      assert p + Chars(s) == p;
    }
  }

  /** In a valid sink the pending buffer is everything after the last marker. */
  lemma PendingIsTrailing(k: Sink)
    requires k.Valid()
    ensures Trailing(k.Content()) == |k.buf|
  {
    if |k.toks| > 0 {
      SymsLast(k.toks);
    }
    TrailingChars(Syms(k.toks), k.buf);
  }

  /** The empty sink every stylesheet starts from. */
  function EmptySink(): (s: Sink)
    ensures s.Valid() && s.Content() == []
  {
    Sink("", [])
  }

  // ---------------------------------------------------------------------------
  // JSON.stringify of a token list
  // ---------------------------------------------------------------------------

  function HexDigit(d: nat): char
    requires d < 16
  {
    "0123456789abcdef"[d]
  }

  /** The JSON escape of one string character. */
  function JsonChar(c: char): string {
    if c == '"' then "\\\""
    else if c == '\\' then "\\\\"
    else if c == '\U{8}' then "\\b"
    else if c == '\U{C}' then "\\f"
    else if c == '\n' then "\\n"
    else if c == '\r' then "\\r"
    else if c == '\t' then "\\t"
    else if (c as int) < 0x20 then "\\u00" + [HexDigit((c as int) / 16), HexDigit((c as int) % 16)]
    else [c]
  }

  function JsonChars(s: string): string
    decreases |s|
  {
    if |s| == 0 then "" else JsonChar(s[0]) + JsonChars(s[1..])
  }

  function JsonString(s: string): string {
    "\"" + JsonChars(s) + "\""
  }

  function JsonToken(t: Token): string {
    match t
    case Lit(s) => JsonString(s)
    case Rpx(n) => "[0," + n + "]"
    case Suffix => "[1]"
    case Ref(i) => "[2," + NatToString(i) + "]"
  }

  function JsonTokenList(ts: seq<Token>): seq<string>
    decreases |ts|
  {
    if |ts| == 0 then [] else [JsonToken(ts[0])] + JsonTokenList(ts[1..])
  }

  /** `JSON.stringify(file)` for a token list. */
  function Json(ts: seq<Token>): string {
    "[" + Join(JsonTokenList(ts), ",") + "]"
  }
}
