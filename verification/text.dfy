/**
 * Character classes and trimming as ECMAScript defines them. The regular
 * expression class `\s` and `String.prototype.trim` use the same set of
 * characters: WhiteSpace (TAB, VT, FF, SP, NBSP, ZWNBSP and the Unicode
 * category Zs) and LineTerminator (LF, CR, LS, PS).
 */
module Text {

  /** ECMAScript WhiteSpace or LineTerminator: what `\s` matches. */
  predicate IsSpace(c: char)
  {
    || c == '\t' || c == '\U{000B}' || c == '\U{000C}' || c == ' '
    || c == '\U{00A0}' || c == '\U{FEFF}'
    || c == '\U{1680}' || ('\U{2000}' <= c <= '\U{200A}')
    || c == '\U{202F}' || c == '\U{205F}' || c == '\U{3000}'
    || c == '\n' || c == '\r' || c == '\U{2028}' || c == '\U{2029}'
  }

  /** What `\S` matches. */
  predicate NonSpace(c: char)
  {
    !IsSpace(c)
  }

  predicate AllSpace(s: string)
  {
    forall k :: 0 <= k < |s| ==> IsSpace(s[k])
  }

  predicate AllNonSpace(s: string)
  {
    forall k :: 0 <= k < |s| ==> NonSpace(s[k])
  }

  /** The first position at or after k that does not hold white space (|s| if none). */
  function SkipSpace(s: string, k: nat): (i: nat)
    requires k <= |s|
    ensures k <= i <= |s|
    ensures forall m :: k <= m < i ==> IsSpace(s[m])
    ensures i == |s| || NonSpace(s[i])
    decreases |s| - k
  {
    if k == |s| || NonSpace(s[k]) then k else SkipSpace(s, k + 1)
  }

  /** Going back from j, no further than i, past the white space that ends s[i..j]. */
  function BackOverSpace(s: string, i: nat, j: nat): (e: nat)
    requires i <= j <= |s|
    ensures i <= e <= j
    ensures forall m :: e <= m < j ==> IsSpace(s[m])
    ensures e == i || NonSpace(s[e - 1])
    decreases j
  {
    if j == i || NonSpace(s[j - 1]) then j else BackOverSpace(s, i, j - 1)
  }

  /** Where the text that `trim` keeps starts: the length of the leading white space. */
  function TrimOffset(s: string): (i: nat)
    ensures i <= |s|
  {
    SkipSpace(s, 0)
  }

  /**
   * `String.prototype.trim`: the piece of s that starts at `TrimOffset(s)`,
   * with only white space cut away on either side, and no white space left
   * at either end.
   */
  function Trim(s: string): (r: string)
    ensures var i := TrimOffset(s);
      && i + |r| <= |s| && r == s[i..i + |r|]
      && (forall m :: 0 <= m < i ==> IsSpace(s[m]))
      && (forall m :: i + |r| <= m < |s| ==> IsSpace(s[m]))
      && (r == [] || (NonSpace(r[0]) && NonSpace(r[|r| - 1])))
  {
    var i := TrimOffset(s);
    var e := BackOverSpace(s, i, |s|);
    assert e == i ==> i == |s|;
    s[i..e]
  }

  /** The trimmed string is empty exactly when the input is all white space. */
  lemma TrimEmptyIff(s: string)
    ensures Trim(s) == [] <==> AllSpace(s)
  {
    var i := TrimOffset(s);
    if Trim(s) != [] {
      assert s[i] == Trim(s)[0];
    }
  }

  /** Trimming twice is trimming once. */
  lemma TrimIdempotent(s: string)
    ensures Trim(Trim(s)) == Trim(s)
  {
    var r := Trim(s);
    if r != [] {
      assert TrimOffset(r) == 0;
      assert BackOverSpace(r, 0, |r|) == |r|;
    }
  }
}
