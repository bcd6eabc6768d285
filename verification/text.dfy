/**
 Case-insensitive substring matching, the model of SQL `question ILIKE '%term%'`
 as the search endpoint uses it. Case folding is ASCII only: letters `A`-`Z`
 become `a`-`z`, every other character is left alone.
 */
module Text {

  predicate IsUpper(c: char) {
    'A' <= c <= 'Z'
  }

  function LowerChar(c: char): (d: char)
    ensures !IsUpper(d)
    ensures !IsUpper(c) ==> d == c
  {
    if IsUpper(c) then (c as int + 32) as char else c
  }

  /** ASCII lower-casing, one character at a time. */
  function Lower(s: string): (r: string)
    ensures |r| == |s|
    ensures forall i :: 0 <= i < |s| ==> r[i] == LowerChar(s[i])
  {
    if |s| == 0 then "" else [LowerChar(s[0])] + Lower(s[1..])
  }

  lemma LowerIdempotent(s: string)
    ensures Lower(Lower(s)) == Lower(s)
  {
  }

  predicate StartsWith(t: string, p: string) {
    |p| <= |t| && t[..|p|] == p
  }

  /** The window of `t` starting at `i` is exactly `p`. */
  ghost predicate OccursAt(p: string, t: string, i: int) {
    0 <= i <= |t| - |p| && t[i..i + |p|] == p
  }

  /** The specification of "`p` is a substring of `t`": some window of `t` equals `p`. */
  ghost predicate Occurs(p: string, t: string) {
    exists i :: OccursAt(p, t, i)
  }

  /** A pattern that does not start `t` occurs in `t` exactly when it occurs in `t`'s tail. */
  lemma OccursTail(t: string, p: string)
    requires |t| > 0
    requires !StartsWith(t, p)
    ensures Occurs(p, t) <==> Occurs(p, t[1..])
  {
    if Occurs(p, t) {
      var i :| OccursAt(p, t, i);
      assert i != 0;
      assert t[1..][i - 1..i - 1 + |p|] == t[i..i + |p|];
      assert OccursAt(p, t[1..], i - 1);
    }
    if Occurs(p, t[1..]) {
      var j :| OccursAt(p, t[1..], j);
      assert t[j + 1..j + 1 + |p|] == t[1..][j..j + |p|];
      assert OccursAt(p, t, j + 1);
    }
  }

  /** Executable substring test, scanning `t` from the left. */
  function Contains(t: string, p: string): (b: bool)
    ensures b <==> Occurs(p, t)
    decreases |t|
  {
    if StartsWith(t, p) then
      assert OccursAt(p, t, 0);
      true
    else if |t| == 0 then
      false
    else
      OccursTail(t, p);
      Contains(t[1..], p)
  }

  /** The specification of a search hit: the term occurs in the text, ignoring ASCII case. */
  ghost predicate OccursIgnoreCase(term: string, text: string) {
    Occurs(Lower(term), Lower(text))
  }

  /** `text ILIKE '%term%'`, with ASCII case folding on both sides. */
  function ContainsIgnoreCase(text: string, term: string): (b: bool)
    ensures b <==> OccursIgnoreCase(term, text)
  {
    Contains(Lower(text), Lower(term))
  }

  /** Matching ignores the case of the text and of the term. */
  lemma MatchIgnoresCase(text: string, term: string)
    ensures ContainsIgnoreCase(Lower(text), term) == ContainsIgnoreCase(text, term)
    ensures ContainsIgnoreCase(text, Lower(term)) == ContainsIgnoreCase(text, term)
  {
    LowerIdempotent(text);
    LowerIdempotent(term);
  }

  /** The empty search term matches every text. */
  lemma EmptyTermMatchesAll(text: string)
    ensures ContainsIgnoreCase(text, "")
  {
  }

  /** Searching "test" finds any text that starts "Test", such as "Test question". */
  lemma SearchFindsOtherCase(rest: string)
    ensures ContainsIgnoreCase("Test" + rest, "test")
  {
  }

  /** Searching "test" does not find "Exam". */
  lemma SearchMissesOtherWord()
    ensures !ContainsIgnoreCase("Exam", "test")
  {
  }
}
