/**
 * The small helpers of `util.ts`: the escaper used on every emitted piece of
 * JavaScript text and its inverse, first-match lookup and removal in arrays,
 * `@import` argument unquoting and relative-path normalisation.
 */
module Util {
  import opened Wrappers
  import opened Strings

  // ---------------------------------------------------------------------------
  // escape / unescape
  // ---------------------------------------------------------------------------

  /** The characters that never appear raw in escaped text. */
  predicate Special(c: char) {
    c == '"' || c == '&' || c == '\'' || c == '<' || c == '=' || c == '>' || c == '\n'
  }

  /** Text with no character that needs escaping. */
  predicate Plain(s: string) {
    forall i :: 0 <= i < |s| ==> !Special(s[i])
  }

  /** The escape sequence of one character (the character itself when it needs none). */
  function EscapeChar(c: char): (r: string)
    ensures |r| >= 1
    ensures forall i :: 0 <= i < |r| ==> !Special(r[i])
    ensures !Special(c) && c != '\\' ==> r == [c]
  {
    match c
    case '\n' => "\\n"
    case '"' => "\\x22"
    case '&' => "\\x26"
    case '\'' => "\\x27"
    case '<' => "\\x3c"
    case '=' => "\\x3d"
    case '>' => "\\x3e"
    case '\\' => "\\x5c"
    case _ => [c]
  }

  /** A backslash directly followed by a newline at position `i`. */
  predicate PairAt(s: string, i: int) {
    0 <= i && i + 1 < |s| && s[i] == '\\' && s[i + 1] == '\n'
  }

  /**
   * `escape`: a left-to-right transform that replaces a backslash-newline pair
   * by the three characters `\\n` and every other character by `EscapeChar`.
   * The result has no raw quote, ampersand, apostrophe, angle bracket, equals
   * sign or newline, and is never shorter than the input.
   */
  function Escape(s: string): (r: string)
    ensures Plain(r)
    ensures |r| >= |s|
    decreases |s|
  {
    if |s| == 0 then ""
    else if PairAt(s, 0) then "\\\\n" + Escape(s[2..])
    else EscapeChar(s[0]) + Escape(s[1..])
  }

  /** The character a `\xHH` sequence stands for, when `HH` is one `unescape` knows. */
  function HexEscape(h1: char, h2: char): Option<char> {
    if h1 == '2' && h2 == '2' then Some('"')
    else if h1 == '2' && h2 == '6' then Some('&')
    else if h1 == '2' && h2 == '7' then Some('\'')
    else if h1 == '5' && h2 == 'c' then Some('\\')
    else if h1 == '3' && h2 == 'c' then Some('<')
    else if h1 == '3' && h2 == 'd' then Some('=')
    else if h1 == '3' && h2 == 'e' then Some('>')
    else None
  }

  /**
   * `unescape`: the inverse transform used by debug tooling. A `\x` whose two
   * following characters are not a known pair yields just the backslash.
   */
  function Unescape(s: string): (r: string)
    ensures |r| <= |s|
    decreases |s|
  {
    if |s| == 0 then ""
    else if s[0] == '\\' && |s| > 1 && s[1] == 'x' then
      if |s| > 3 && HexEscape(s[2], s[3]).Some? then [HexEscape(s[2], s[3]).value] + Unescape(s[4..])
      else [s[0]] + Unescape(s[1..])
    else if s[0] == '\\' && |s| > 2 && s[1] == '\\' && s[2] == 'n' then "\\n" + Unescape(s[3..])
    else if s[0] == '\\' && |s| > 1 && s[1] == 'n' then "\n" + Unescape(s[2..])
    else [s[0]] + Unescape(s[1..])
  }

  /** `s` with every backslash-newline pair replaced by a backslash and the letter `n`. */
  function FlattenPairs(s: string): (r: string)
    ensures |r| == |s|
    decreases |s|
  {
    if |s| == 0 then ""
    else if PairAt(s, 0) then "\\n" + FlattenPairs(s[2..])
    else [s[0]] + FlattenPairs(s[1..])
  }

  lemma UnescapeEscapeChar(c: char, rest: string)
    ensures Unescape(EscapeChar(c) + rest) == [c] + Unescape(rest)
  {
    var e := EscapeChar(c) + rest;
    if c == '\\' || Special(c) {
      if c == '\n' {
        assert e == ['\\', 'n'] + rest;
        assert e[2..] == rest;
      } else {
        assert e[4..] == rest;
      }
    } else {
      assert e[1..] == rest;
    }
  }

  /**
   * Escaping then unescaping gives the input back, except that a
   * backslash-newline pair comes back as a backslash and the letter `n`.
   */
  lemma {:induction false} UnescapeEscape(s: string)
    ensures Unescape(Escape(s)) == FlattenPairs(s)
    decreases |s|
  {
    if |s| > 0 {
      if PairAt(s, 0) {
        UnescapeEscape(s[2..]);
        var e := "\\\\n" + Escape(s[2..]);
        assert e[3..] == Escape(s[2..]);
      } else {
        UnescapeEscape(s[1..]);
        UnescapeEscapeChar(s[0], Escape(s[1..]));
      }
    }
  }

  /** For text without a backslash-newline pair the round trip is exact. */
  lemma {:induction false} UnescapeEscapeExact(s: string)
    requires forall i :: 0 <= i < |s| ==> !PairAt(s, i)
    ensures Unescape(Escape(s)) == s
  {
    UnescapeEscape(s);
    FlattenPairsIdentity(s);
  }

  lemma {:induction false} FlattenPairsIdentity(s: string)
    requires forall i :: 0 <= i < |s| ==> !PairAt(s, i)
    ensures FlattenPairs(s) == s
    decreases |s|
  {
    if |s| > 0 {
      assert !PairAt(s, 0);
      forall i | 0 <= i < |s[1..]|
        ensures !PairAt(s[1..], i)
      {
        assert !PairAt(s, i + 1);
      }
      FlattenPairsIdentity(s[1..]);
    }
  }

  /** The asymmetry: a backslash-newline pair does not survive the round trip. */
  lemma PairDoesNotRoundTrip()
    ensures Unescape(Escape("\\\n")) == "\\n"
    ensures Unescape(Escape("\\\n")) != "\\\n"
  {
    UnescapeEscape("\\\n");
    assert PairAt("\\\n", 0);
    assert FlattenPairs("\\\n") == "\\n" + FlattenPairs("");
  }

  // ---------------------------------------------------------------------------
  // first-match lookup and removal
  // ---------------------------------------------------------------------------

  /**
   * `getArrIdx(arr, key, val)`: the smallest index whose `key` field equals
   * `val`, or -1 when there is none.
   */
  function GetArrIdx<T, U(==)>(arr: seq<T>, key: T -> U, val: U): (idx: int)
    ensures -1 <= idx < |arr|
    ensures idx == -1 <==> forall i :: 0 <= i < |arr| ==> key(arr[i]) != val
    ensures idx >= 0 ==> key(arr[idx]) == val
    ensures idx >= 0 ==> forall i :: 0 <= i < idx ==> key(arr[i]) != val
  {
    FindFrom(arr, key, val, 0)
  }

  function FindFrom<T, U(==)>(arr: seq<T>, key: T -> U, val: U, i: nat): (idx: int)
    requires i <= |arr|
    ensures idx == -1 || i <= idx < |arr|
    ensures idx == -1 <==> forall j :: i <= j < |arr| ==> key(arr[j]) != val
    ensures idx >= 0 ==> key(arr[idx]) == val
    ensures idx >= 0 ==> forall j :: i <= j < idx ==> key(arr[j]) != val
    decreases |arr| - i
  {
    if i == |arr| then -1
    else if key(arr[i]) == val then i
    else FindFrom(arr, key, val, i + 1)
  }

  /** What `getAndRemoveFromArr` returns, together with the array it leaves behind. */
  datatype Removal<T> = Removal(item: Option<T>, rest: seq<T>)

  /**
   * `getAndRemoveFromArr(arr, key, val)`: removes the first element whose
   * `key` field equals `val` and returns it; with no match nothing changes.
   */
  function GetAndRemoveFromArr<T, U(==)>(arr: seq<T>, key: T -> U, val: U): (r: Removal<T>)
    ensures r.item.None? <==> forall i :: 0 <= i < |arr| ==> key(arr[i]) != val
    ensures r.item.None? ==> r.rest == arr
    ensures r.item.Some? ==> exists k :: 0 <= k < |arr| && r.item.value == arr[k]
                                       && key(arr[k]) == val
                                       && (forall i :: 0 <= i < k ==> key(arr[i]) != val)
                                       && r.rest == arr[..k] + arr[k + 1..]
    ensures r.item.Some? ==> multiset(r.rest) + multiset{r.item.value} == multiset(arr)
  {
    var idx := GetArrIdx(arr, key, val);
    if idx == -1 then Removal(None, arr)
    else
      RemoveAtMultiset(arr, idx);
      Removal(Some(arr[idx]), arr[..idx] + arr[idx + 1..])
  }

  /** Taking out the element at `k` leaves the rest of the multiset. */
  lemma RemoveAtMultiset<T>(arr: seq<T>, k: nat)
    requires k < |arr|
    ensures multiset(arr[..k] + arr[k + 1..]) + multiset{arr[k]} == multiset(arr)
  {
    assert arr == arr[..k] + [arr[k]] + arr[k + 1..];
  }

  // ---------------------------------------------------------------------------
  // @import arguments and paths
  // ---------------------------------------------------------------------------

  /**
   * `handleImportPath`: the trimmed argument without one pair of matching
   * surrounding double or single quotes.
   */
  function HandleImportPath(p: string): (r: string)
    ensures Quoted(Trim(p)) && |Trim(p)| >= 2 ==> Trim(p) == [Trim(p)[0]] + r + [Trim(p)[0]]
    ensures Quoted(Trim(p)) && |Trim(p)| == 1 ==> r == ""
    ensures !Quoted(Trim(p)) ==> r == Trim(p)
  {
    var t := Trim(p);
    if |t| >= 1 && t[0] == '"' && t[|t| - 1] == '"' then QuotesDropped(t); Slice(t, 1, |t| - 1)
    else if |t| >= 1 && t[0] == '\'' && t[|t| - 1] == '\'' then QuotesDropped(t); Slice(t, 1, |t| - 1)
    else t
  }

  /** `t` starts with a double or single quote and ends with the same one. */
  predicate Quoted(t: string) {
    |t| >= 1 && (t[0] == '"' || t[0] == '\'') && t[|t| - 1] == t[0]
  }

  /** Dropping the first and last character of `t` leaves what lies between them. */
  lemma QuotesDropped(t: string)
    requires |t| >= 1
    ensures |t| >= 2 ==> t == [t[0]] + Slice(t, 1, |t| - 1) + [t[|t| - 1]]
    ensures |t| == 1 ==> Slice(t, 1, |t| - 1) == ""
  {
    if |t| >= 2 {
      assert t == [t[0]] + t[1..|t| - 1] + [t[|t| - 1]];
    }
  }

  /** `s.slice(a, b)` for in-range bounds: empty when `b` does not exceed `a`. */
  function Slice(s: string, a: nat, b: nat): (r: string)
    requires a <= |s| && b <= |s|
    ensures a <= b ==> r == s[a..b]
    ensures b < a ==> r == ""
  {
    if a <= b then s[a..b] else ""
  }

  /** Quoting a path and reading it back as an `@import` argument gives the path. */
  lemma UnquoteQuoted(x: string, q: char)
    requires q == '"' || q == '\''
    ensures HandleImportPath([q] + x + [q]) == x
  {
    var p := [q] + x + [q];
    assert TrimStart(p) == p;
    assert TrimEnd(p) == p;
    assert Trim(p) == p;
    assert p[1..|p| - 1] == x;
  }

  /** The two POSIX path operations the compiler borrows from the host platform. */
  datatype PathOps = PathOps(join: (string, string) -> string, dirname: string -> string)

  /** POSIX `isAbsolute`: the path starts with a slash. */
  predicate IsAbsolute(p: string) {
    |p| > 0 && p[0] == '/'
  }

  /**
   * `getNormalizePath(importer, target)`: the template path an `@import` of
   * `target` inside `importer` refers to; always of the form `./...`.
   */
  function NormalizePath(ops: PathOps, importer: string, target: string): (r: string)
    ensures |r| >= 2 && r[..2] == "./"
    ensures IsAbsolute(target) ==> r == "." + target
    ensures !IsAbsolute(target) ==> r[2..] == ops.join(ops.dirname(importer), target)
  {
    if IsAbsolute(target) then "." + target
    else "./" + ops.join(ops.dirname(importer), target)
  }

  /**
   * What an import resolves to depends on the importer only through its
   * directory, and not at all for an absolute target, which stays readable
   * behind the leading `.`.
   */
  lemma ResolutionDependsOnDirectory(ops: PathOps, a: string, b: string, target: string)
    ensures IsAbsolute(target) ==> NormalizePath(ops, a, target) == NormalizePath(ops, b, target)
    ensures IsAbsolute(target) ==> NormalizePath(ops, a, target)[1..] == target
    ensures ops.dirname(a) == ops.dirname(b) ==> NormalizePath(ops, a, target) == NormalizePath(ops, b, target)
    ensures !IsAbsolute(target) && NormalizePath(ops, a, target) == NormalizePath(ops, b, target) ==>
              ops.join(ops.dirname(a), target) == ops.join(ops.dirname(b), target)
  {
    if !IsAbsolute(target) {
      assert NormalizePath(ops, a, target)[2..] == ops.join(ops.dirname(a), target);
      assert NormalizePath(ops, b, target)[2..] == ops.join(ops.dirname(b), target);
    }
  }
}
