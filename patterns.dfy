/**
 * The four regular expressions the scripts search with all have the shape
 *
 *     NAME \s* = \s* Q ( VALUE ) Q
 *
 * where Q is a quote character and VALUE a non-empty run of one character
 * class (for the convert URL, a run that must also begin with `http://` or
 * `https://`). `re.search` returns group 1 of the leftmost match.
 *
 * `MatchAt` scans greedily; `Decomposes` is the regular expression read as
 * a language (any split of the text into the pattern's parts). Because the
 * quote is neither whitespace nor in the VALUE class, a match at a given
 * position is unique, so greedy scanning and backtracking agree.
 */
module Patterns {
  import opened Wrappers
  import opened Text

  datatype CharClass = Space | Digit | LowerHex | NotChar(excluded: char)

  predicate InClass(cls: CharClass, c: char) {
    match cls
    case Space => IsSpace(c)
    case Digit => '0' <= c <= '9'
    case LowerHex => '0' <= c <= '9' || 'a' <= c <= 'f'
    case NotChar(x) => c != x
  }

  /** NAME \s* = \s* QUOTE (VALUE+) QUOTE; `httpUrl` adds the `https?://` prefix to VALUE. */
  datatype Pattern = Pattern(name: string, quote: char, value: CharClass, httpUrl: bool)

  /** What makes a match position unique. */
  predicate WellFormed(p: Pattern) {
    !IsSpace(p.quote) && !InClass(p.value, p.quote)
  }

  /** `https?://` followed by at least one more character. */
  predicate HttpPrefixed(v: string) {
    (|v| > 7 && v[..7] == "http://") || (|v| > 8 && v[..8] == "https://")
  }

  /** The conditions on a captured value beyond its character class. */
  predicate Accept(p: Pattern, v: string) {
    |v| > 0 && (p.httpUrl ==> HttpPrefixed(v))
  }

  /** Greedy `cls*` from `j`: the end of the longest run of `cls` characters. */
  function SkipRun(cls: CharClass, s: string, j: nat): (r: nat)
    requires j <= |s|
    ensures j <= r <= |s|
    ensures forall k :: j <= k < r ==> InClass(cls, s[k])
    ensures r < |s| ==> !InClass(cls, s[r])
    decreases |s| - j
  {
    if j < |s| && InClass(cls, s[j]) then SkipRun(cls, s, j + 1) else j
  }

  /** Group 1 of a match starting exactly at offset `i`, scanning greedily. */
  function MatchAt(p: Pattern, s: string, i: nat): Option<string> {
    var n := i + |p.name|;
    if n > |s| || s[i..n] != p.name then None
    else
      var e1 := SkipRun(Space, s, n);
      if e1 == |s| || s[e1] != '=' then None
      else
        var e2 := SkipRun(Space, s, e1 + 1);
        if e2 == |s| || s[e2] != p.quote then None
        else
          var b := SkipRun(p.value, s, e2 + 1);
          if b == |s| || s[b] != p.quote || !Accept(p, s[e2 + 1..b]) then None
          else Some(s[e2 + 1..b])
  }

  /**
   * The pattern read as a language: from `i`, the name, whitespace up to
   * the `=` at `e1`, whitespace up to the opening quote at `e2`, VALUE
   * characters up to the closing quote at `b`.
   */
  ghost predicate Decomposes(p: Pattern, s: string, i: int, e1: int, e2: int, b: int) {
    0 <= i && i + |p.name| <= e1 < e2 < b < |s|
    && s[i..i + |p.name|] == p.name
    && (forall k :: i + |p.name| <= k < e1 ==> IsSpace(s[k])) && s[e1] == '='
    && (forall k :: e1 < k < e2 ==> IsSpace(s[k])) && s[e2] == p.quote
    && (forall k :: e2 < k < b ==> InClass(p.value, s[k])) && s[b] == p.quote
    && Accept(p, s[e2 + 1..b])
  }

  /** The regular expression matches at `i` with group 1 equal to `v`. */
  ghost predicate MatchesAt(p: Pattern, s: string, i: int, v: string) {
    exists e1, e2, b :: Decomposes(p, s, i, e1, e2, b) && v == s[e2 + 1..b]
  }

  /** The regular expression matches at `i` at all. */
  ghost predicate AnyMatchAt(p: Pattern, s: string, i: int) {
    exists e1, e2, b :: Decomposes(p, s, i, e1, e2, b)
  }

  /** Whatever the greedy scan returns is a match of the pattern at `i`. */
  lemma MatchAtSound(p: Pattern, s: string, i: nat)
    requires MatchAt(p, s, i).Some?
    ensures MatchesAt(p, s, i, MatchAt(p, s, i).value)
  {
    var n := i + |p.name|;
    var e1 := SkipRun(Space, s, n);
    var e2 := SkipRun(Space, s, e1 + 1);
    var b := SkipRun(p.value, s, e2 + 1);
    assert Decomposes(p, s, i, e1, e2, b);
  }

  /** Every match of the pattern at `i` is the one the greedy scan finds. */
  lemma MatchAtComplete(p: Pattern, s: string, i: nat, e1: int, e2: int, b: int)
    requires WellFormed(p)
    requires Decomposes(p, s, i, e1, e2, b)
    ensures MatchAt(p, s, i) == Some(s[e2 + 1..b])
  {
  }

  /** The pattern matches at `i` exactly when the greedy scan succeeds there. */
  lemma MatchAtExact(p: Pattern, s: string, i: nat)
    requires WellFormed(p)
    ensures MatchAt(p, s, i).Some? <==> AnyMatchAt(p, s, i)
  {
    if MatchAt(p, s, i).Some? {
      MatchAtSound(p, s, i);
    }
    if AnyMatchAt(p, s, i) {
      var e1, e2, b :| Decomposes(p, s, i, e1, e2, b);
      MatchAtComplete(p, s, i, e1, e2, b);
    }
  }

  /** The leftmost offset at or after `i` where the greedy scan succeeds. */
  function FirstMatch(p: Pattern, s: string, i: nat): (r: Option<nat>)
    ensures r.Some? ==> i <= r.value <= |s| && MatchAt(p, s, r.value).Some?
    ensures forall k :: i <= k <= |s| && (r.None? || k < r.value) ==> MatchAt(p, s, k).None?
    decreases |s| + 1 - i
  {
    if i > |s| then None
    else if MatchAt(p, s, i).Some? then Some(i)
    else FirstMatch(p, s, i + 1)
  }

  /** `re.search(p, s)` followed by `.group(1)`, or None when nothing matches. */
  function Search(p: Pattern, s: string): (r: Option<string>)
    ensures r.Some? ==> Accept(p, r.value)
    ensures r.Some? ==> forall k :: 0 <= k < |r.value| ==> InClass(p.value, r.value[k])
  {
    match FirstMatch(p, s, 0)
    case None => None
    case Some(i) => MatchAt(p, s, i)
  }

  /** `v` is group 1 of a match at some offset, and no earlier offset matches. */
  ghost predicate LeftmostCapture(p: Pattern, s: string, v: string) {
    exists i :: 0 <= i <= |s| && MatchesAt(p, s, i, v) && forall j :: 0 <= j < i ==> !AnyMatchAt(p, s, j)
  }

  /** What `Search` returns is group 1 of a match, and no earlier offset matches. */
  lemma SearchSound(p: Pattern, s: string)
    requires WellFormed(p)
    requires Search(p, s).Some?
    ensures LeftmostCapture(p, s, Search(p, s).value)
  {
    var i := FirstMatch(p, s, 0).value;
    MatchAtSound(p, s, i);
    forall j | 0 <= j < i ensures !AnyMatchAt(p, s, j) {
      MatchAtExact(p, s, j);
    }
  }

  /** A match at `i` with no match earlier is what `Search` returns. */
  lemma SearchLeftmost(p: Pattern, s: string, i: nat, v: string)
    requires WellFormed(p)
    requires MatchesAt(p, s, i, v)
    requires forall j :: 0 <= j < i ==> !AnyMatchAt(p, s, j)
    ensures Search(p, s) == Some(v)
  {
    var e1, e2, b :| Decomposes(p, s, i, e1, e2, b) && v == s[e2 + 1..b];
    MatchAtComplete(p, s, i, e1, e2, b);
    var f := FirstMatch(p, s, 0);
    if f.value < i {
      MatchAtExact(p, s, f.value);
    }
  }

  /** `Search` gives None exactly when the pattern matches nowhere. */
  lemma SearchAbsent(p: Pattern, s: string)
    requires WellFormed(p)
    ensures Search(p, s).None? <==> forall i :: 0 <= i <= |s| ==> !AnyMatchAt(p, s, i)
  {
    if Search(p, s).None? {
      forall i | 0 <= i <= |s| ensures !AnyMatchAt(p, s, i) {
        MatchAtExact(p, s, i);
      }
    } else {
      var i := FirstMatch(p, s, 0).value;
      MatchAtExact(p, s, i);
    }
  }

  /** `s_tt\s*=\s*'([^']+)'` (downloader.py). */
  const SessionTokenPattern := Pattern("s_tt", '\'', NotChar('\''), false)
  /** `k_exp\s*=\s*"(\d+)"` (tikdownloader_local.py). */
  const ExpPattern := Pattern("k_exp", '"', Digit, false)
  /** `k_token\s*=\s*"([a-f0-9]+)"` (tikdownloader_local.py). */
  const TokenPattern := Pattern("k_token", '"', LowerHex, false)
  /** `k_url_convert\s*=\s*"(https?://[^"]+)"` (tikdownloader_local.py). */
  const ConvertUrlPattern := Pattern("k_url_convert", '"', NotChar('"'), true)

  /** All four patterns have unique match positions, so the lemmas above apply to them. */
  lemma PatternsWellFormed()
    ensures WellFormed(SessionTokenPattern) && WellFormed(ExpPattern)
    ensures WellFormed(TokenPattern) && WellFormed(ConvertUrlPattern)
  {
  }
}
