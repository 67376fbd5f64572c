/**
 * String helpers with Python's semantics: the whitespace set shared by
 * `str.strip()` and the regular-expression class `\s`, `str.strip()` itself,
 * `"".join(parts)` and the substring test `sub in s`.
 */
module Text {

  /** Python's `str.isspace()` for one character (also what `\s` matches in a `str` pattern). */
  predicate IsSpace(c: char) {
    c == ' ' || ('\t' <= c <= '\r') || ('\U{1c}' <= c <= '\U{1f}')
    || c == '\U{85}' || c == '\U{a0}' || c == '\U{1680}'
    || ('\U{2000}' <= c <= '\U{200a}') || c == '\U{2028}' || c == '\U{2029}'
    || c == '\U{202f}' || c == '\U{205f}' || c == '\U{3000}'
  }

  /** Where `s.lstrip()` starts, scanning from `i`: the first non-whitespace offset at or after `i`. */
  function LeadEnd(s: string, i: nat): (k: nat)
    requires i <= |s|
    ensures i <= k <= |s|
    ensures forall m :: i <= m < k ==> IsSpace(s[m])
    ensures k < |s| ==> !IsSpace(s[k])
    decreases |s| - i
  {
    if i < |s| && IsSpace(s[i]) then LeadEnd(s, i + 1) else i
  }

  /** Where `s[lo..j].rstrip()` ends: the end of `s[lo..j]` once trailing whitespace is dropped. */
  function TrailStart(s: string, lo: nat, j: nat): (e: nat)
    requires lo <= j <= |s|
    ensures lo <= e <= j
    ensures forall m :: e <= m < j ==> IsSpace(s[m])
    ensures e > lo ==> !IsSpace(s[e - 1])
    decreases j
  {
    if j > lo && IsSpace(s[j - 1]) then TrailStart(s, lo, j - 1) else j
  }

  /**
   * `s.strip()`: the slice of `s` between its leading and its trailing
   * whitespace. It is empty exactly when `s` is all whitespace, and
   * otherwise begins and ends with a non-whitespace character.
   */
  function Strip(s: string): (r: string)
    ensures exists k, e :: StrippedAt(s, k, e) && r == s[k..e]
    ensures r != [] ==> !IsSpace(r[0]) && !IsSpace(r[|r| - 1])
    ensures r == [] <==> forall m :: 0 <= m < |s| ==> IsSpace(s[m])
  {
    var k := LeadEnd(s, 0);
    var e := TrailStart(s, k, |s|);
    assert StrippedAt(s, k, e);
    s[k..e]
  }

  /** `s[k..e]` has only whitespace before and after it in `s`. */
  ghost predicate StrippedAt(s: string, k: int, e: int) {
    0 <= k <= e <= |s|
    && (forall m :: 0 <= m < k ==> IsSpace(s[m]))
    && (forall m :: e <= m < |s| ==> IsSpace(s[m]))
  }

  /** `"".join(parts)`. */
  function Join(parts: seq<string>): string {
    if parts == [] then "" else Join(parts[..|parts| - 1]) + parts[|parts| - 1]
  }

  /** True when `sub` occurs in `s` at offset `i`. */
  predicate OccursAt(s: string, sub: string, i: nat) {
    i + |sub| <= |s| && s[i..i + |sub|] == sub
  }

  /** `sub` occurs somewhere in `s` at or after offset `i`. */
  ghost predicate OccursFrom(s: string, sub: string, i: nat) {
    exists k :: i <= k <= |s| && OccursAt(s, sub, k)
  }

  /** Python's `sub in s`, scanning offsets from `i` on. */
  function ContainsFrom(s: string, sub: string, i: nat): bool
    requires i <= |s|
    decreases |s| - i
  {
    if OccursAt(s, sub, i) then true
    else if i == |s| then false
    else ContainsFrom(s, sub, i + 1)
  }

  /** Python's `sub in s`. */
  function Contains(s: string, sub: string): bool {
    ContainsFrom(s, sub, 0)
  }

  /** The scan from `i` succeeds exactly when `sub` occurs at some offset at or after `i`. */
  lemma {:induction false} ContainsFromMeaning(s: string, sub: string, i: nat)
    requires i <= |s|
    ensures ContainsFrom(s, sub, i) <==> OccursFrom(s, sub, i)
    decreases |s| - i
  {
    if !OccursAt(s, sub, i) && i < |s| {
      ContainsFromMeaning(s, sub, i + 1);
      if OccursFrom(s, sub, i) {
        var k :| i <= k <= |s| && OccursAt(s, sub, k);
        assert k != i;
      }
    }
  }

  /** `sub in s` holds exactly when `sub` occurs at some offset of `s`. */
  lemma ContainsMeaning(s: string, sub: string)
    ensures Contains(s, sub) <==> OccursFrom(s, sub, 0)
  {
    ContainsFromMeaning(s, sub, 0);
  }
}
