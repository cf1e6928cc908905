/** Small string and option helpers shared by every module: JavaScript's
    `trim`, ASCII case mapping and substring search. */
module Common {

  datatype Option<+T> = None | Some(value: T)

  /** A value, or the message of the error thrown instead. */
  datatype Result<+T> = Ok(value: T) | Err(message: string)

  /** The characters above ASCII that JavaScript's `String.prototype.trim`
      removes: the no-break and Unicode space separators, the byte-order
      mark and the line separators. */
  const WideBlanks: set<char> := {
    '\U{00A0}', '\U{1680}', '\U{2000}', '\U{2001}', '\U{2002}', '\U{2003}', '\U{2004}', '\U{2005}',
    '\U{2006}', '\U{2007}', '\U{2008}', '\U{2009}', '\U{200A}', '\U{2028}', '\U{2029}', '\U{202F}',
    '\U{205F}', '\U{3000}', '\U{FEFF}'
  }

  /** The characters `trim` removes: the ASCII blanks and the wide ones. */
  predicate IsSpace(c: char) {
    c == ' ' || c == '\t' || c == '\n' || c == '\r' || c == '\U{000B}' || c == '\U{000C}'
    || ('\U{00A0}' <= c && c in WideBlanks)
  }

  predicate AllSpace(s: string) {
    forall i :: 0 <= i < |s| ==> IsSpace(s[i])
  }

  /** The index of the first non-blank at or after `i`: everything skipped
      is white space. */
  function SkipBlanks(s: string, i: nat): (j: nat)
    requires i <= |s|
    ensures i <= j <= |s|
    ensures forall k :: i <= k < j ==> IsSpace(s[k])
    ensures j == |s| || !IsSpace(s[j])
    decreases |s| - i
  {
    if i < |s| && IsSpace(s[i]) then SkipBlanks(s, i + 1) else i
  }

  /** The index just past the last non-blank before `j`, stopping at `lo`:
      everything stepped over is white space. */
  function BackBlanks(s: string, lo: nat, j: nat): (k: nat)
    requires lo <= j <= |s|
    ensures lo <= k <= j
    ensures forall m :: k <= m < j ==> IsSpace(s[m])
    ensures k == lo || !IsSpace(s[k - 1])
    decreases j
  {
    if lo < j && IsSpace(s[j - 1]) then BackBlanks(s, lo, j - 1) else j
  }

  /** JavaScript's `trim`: the text between the leading and the trailing
      white space. */
  function Trim(s: string): string {
    var start := SkipBlanks(s, 0);
    s[start..BackBlanks(s, start, |s|)]
  }

  /** Neither starts nor ends with a blank. */
  predicate Trimmed(s: string) {
    s == [] || (!IsSpace(s[0]) && !IsSpace(s[|s| - 1]))
  }

  /** Text without border blanks is its own trim. */
  lemma TrimmedIsFixed(s: string)
    requires Trimmed(s)
    ensures Trim(s) == s
  {
    assert SkipBlanks(s, 0) == 0;
    assert BackBlanks(s, 0, |s|) == |s|;
    assert s[0..|s|] == s;
  }

  /** A trimmed string neither starts nor ends with a blank, and trimming is
      idempotent. */
  lemma TrimmedHasNoBorderSpace(s: string)
    ensures Trimmed(Trim(s))
    ensures Trim(Trim(s)) == Trim(s)
  {
    var start := SkipBlanks(s, 0);
    var end := BackBlanks(s, start, |s|);
    var t := s[start..end];
    if t != [] {
      assert t[0] == s[start] && t[|t| - 1] == s[end - 1];
    }
    TrimmedIsFixed(t);
  }

  /** A string trims to the empty string exactly when it is all blanks. */
  lemma TrimEmptyIffAllSpace(s: string)
    ensures Trim(s) == [] <==> AllSpace(s)
  {
    var start := SkipBlanks(s, 0);
    var end := BackBlanks(s, start, |s|);
    if start < |s| {
      // the first non-blank survives
      assert start < end;
      assert s[start..end][0] == s[start];
    }
  }

  function LowerChar(c: char): char {
    if 'A' <= c <= 'Z' then (c as int + 32) as char else c
  }

  function UpperChar(c: char): char {
    if 'a' <= c <= 'z' then (c as int - 32) as char else c
  }

  /** `toLowerCase` on the ASCII letters. */
  function Lower(s: string): (r: string)
    ensures |r| == |s|
  {
    seq(|s|, i requires 0 <= i < |s| => LowerChar(s[i]))
  }

  /** `toUpperCase` on the ASCII letters. */
  function Upper(s: string): (r: string)
    ensures |r| == |s|
  {
    seq(|s|, i requires 0 <= i < |s| => UpperChar(s[i]))
  }

  /** `pat` occurs in `s` at position `p`. */
  predicate OccursAt(s: string, pat: string, p: nat) {
    p + |pat| <= |s| && s[p..p + |pat|] == pat
  }

  /** One differing character rules an occurrence out. */
  lemma MismatchAt(s: string, pat: string, p: nat, k: nat)
    requires k < |pat| && p + |pat| <= |s| && s[p + k] != pat[k]
    ensures !OccursAt(s, pat, p)
  {
    assert s[p..p + |pat|][k] == s[p + k];
  }

  /** JavaScript's `includes`. */
  predicate Contains(s: string, pat: string) {
    exists p: nat :: p + |pat| <= |s| && OccursAt(s, pat, p)
  }
}
