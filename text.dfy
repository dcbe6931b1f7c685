/**
 * The string helpers the interpreter relies on: Python's `str.lower`,
 * `str.strip` and slicing `s[n:]`, restricted to ASCII.
 */
module Text {

  /** Python's `str.isspace` on the ASCII range: tab, newline, vertical tab,
      form feed, carriage return, the four separators 0x1C-0x1F and space. */
  predicate IsSpace(c: char) {
    (9 <= c as int <= 13) || (28 <= c as int <= 32)
  }

  predicate IsUpper(c: char) {
    'A' <= c <= 'Z'
  }

  /** ASCII case fold of one character. */
  function LowerChar(c: char): (r: char)
    ensures !IsUpper(r)
    ensures IsUpper(c) ==> r as int == c as int + 32
    ensures !IsUpper(c) ==> r == c
  {
    if IsUpper(c) then (c as int + 32) as char else c
  }

  /** `s.lower()`: every character case-folded, length and order kept. */
  function Lower(s: string): string {
    seq(|s|, k requires 0 <= k < |s| => LowerChar(s[k]))
  }

  /** A string that `lower()` leaves alone. */
  predicate IsLower(s: string) {
    Lower(s) == s
  }

  lemma LowerLength(s: string)
    ensures |Lower(s)| == |s|
  {
  }

  lemma LowerIsLower(s: string)
    ensures IsLower(Lower(s))
  {
    assert forall k :: 0 <= k < |s| ==> LowerChar(LowerChar(s[k])) == LowerChar(s[k]);
  }

  /** A string without upper-case letters is its own lower-casing. */
  lemma NoUpperIsLower(s: string)
    requires forall k :: 0 <= k < |s| ==> !IsUpper(s[k])
    ensures Lower(s) == s
  {
  }

  /** `[x.lower() for x in xs]`: same length, same order, duplicates kept. */
  function LowerAll(xs: seq<string>): seq<string> {
    seq(|xs|, k requires 0 <= k < |xs| => Lower(xs[k]))
  }

  /** `set(x.lower() for x in xs)`. */
  function LowerSet(xs: seq<string>): set<string> {
    set x | x in xs :: Lower(x)
  }

  /** Everything in a `LowerSet` is already lower-case. */
  lemma LowerSetIsLower(xs: seq<string>)
    ensures forall y :: y in LowerSet(xs) ==> IsLower(y)
  {
    forall y | y in LowerSet(xs) ensures IsLower(y) {
      var x :| x in xs && y == Lower(x);
      LowerIsLower(x);
    }
  }

  /** Extending the list by one name extends its `LowerSet` by that name
      lower-cased. */
  lemma LowerSetSnoc(xs: seq<string>, k: nat)
    requires k < |xs|
    ensures LowerSet(xs[..k + 1]) == LowerSet(xs[..k]) + {Lower(xs[k])}
  {
    assert xs[..k + 1] == xs[..k] + [xs[k]];
  }

  /** The first index at or after `i` that does not hold whitespace, or
      `|s|`. */
  function SkipSpaces(s: string, i: nat): (k: nat)
    requires i <= |s|
    ensures i <= k <= |s|
    decreases |s| - i
  {
    if i < |s| && IsSpace(s[i]) then SkipSpaces(s, i + 1) else i
  }

  /** The last index at or before `j` that follows a character that is not
      whitespace, or 0. */
  function SkipSpacesBack(s: string, j: nat): (k: nat)
    requires j <= |s|
    ensures k <= j
  {
    if j > 0 && IsSpace(s[j - 1]) then SkipSpacesBack(s, j - 1) else j
  }

  /** `SkipSpaces` passes over whitespace only, and stops at the first
      character that is not whitespace. */
  lemma {:induction false} SkipSpacesSpec(s: string, i: nat)
    requires i <= |s|
    ensures forall m :: i <= m < SkipSpaces(s, i) ==> IsSpace(s[m])
    ensures SkipSpaces(s, i) < |s| ==> !IsSpace(s[SkipSpaces(s, i)])
    decreases |s| - i
  {
    if i < |s| && IsSpace(s[i]) {
      SkipSpacesSpec(s, i + 1);
    }
  }

  /** `SkipSpacesBack` passes over whitespace only, and stops after the last
      character that is not whitespace. */
  lemma {:induction false} SkipSpacesBackSpec(s: string, j: nat)
    requires j <= |s|
    ensures forall m :: SkipSpacesBack(s, j) <= m < j ==> IsSpace(s[m])
    ensures SkipSpacesBack(s, j) > 0 ==> !IsSpace(s[SkipSpacesBack(s, j) - 1])
  {
    if j > 0 && IsSpace(s[j - 1]) {
      SkipSpacesBackSpec(s, j - 1);
    }
  }

  /** `s.lstrip()`. */
  function TrimStart(s: string): string {
    s[SkipSpaces(s, 0)..]
  }

  /** `s.rstrip()`. */
  function TrimEnd(s: string): string {
    s[..SkipSpacesBack(s, |s|)]
  }

  /** `s.strip()`. */
  function Trim(s: string): string {
    TrimEnd(TrimStart(s))
  }

  /** `strip` removes whitespace on both ends only: what remains is a
      piece of the input that neither starts nor ends with whitespace, and
      it is empty exactly for an all-blank string. */
  lemma TrimSpec(s: string)
    ensures |Trim(s)| <= |s|
    ensures Trim(s) == [] || (!IsSpace(Trim(s)[0]) && !IsSpace(Trim(s)[|Trim(s)| - 1]))
    ensures Trim(s) == [] <==> forall k :: 0 <= k < |s| ==> IsSpace(s[k])
    ensures var a := SkipSpaces(s, 0);
      && a + |Trim(s)| <= |s| && Trim(s) == s[a..a + |Trim(s)|]
      && (forall m :: 0 <= m < a ==> IsSpace(s[m]))
      && (forall m :: a + |Trim(s)| <= m < |s| ==> IsSpace(s[m]))
  {
    var a := SkipSpaces(s, 0);
    var t := s[a..];
    var b := SkipSpacesBack(t, |t|);
    SkipSpacesSpec(s, 0);
    SkipSpacesBackSpec(t, |t|);
    assert Trim(s) == t[..b];
    assert Trim(s) == s[a..a + b];
    forall m | a + b <= m < |s| ensures IsSpace(s[m]) {
      assert s[m] == t[m - a];
    }
    if a < |s| {
      assert t[0] == s[a] && !IsSpace(s[a]);
      assert b > 0;
      assert Trim(s)[0] == s[a];
    }
  }

  /** Python's `s[n:]`, which yields the empty string once `n` passes the end. */
  function Suffix(s: string, n: nat): string {
    if n <= |s| then s[n..] else []
  }
}
