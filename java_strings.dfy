/**
 * The few `java.lang.String` operations the view-handling strategy relies on,
 * stated over `seq<char>`: prefix and suffix tests, `trim`, `indexOf`,
 * `lastIndexOf` and `split` on a one-character separator.
 */
module JavaStrings {

  type String = seq<char>

  /** `s.startsWith(p)` */
  predicate StartsWith(s: String, p: String) {
    |p| <= |s| && s[..|p|] == p
  }

  /** `s.endsWith(t)` */
  predicate EndsWith(s: String, t: String) {
    |t| <= |s| && s[|s| - |t|..] == t
  }

  /** `String.trim` strips every character whose code is at most U+0020. */
  predicate IsTrimmed(c: char) {
    c <= ' '
  }

  function TrimStart(s: String): (r: String)
    ensures |r| <= |s| && r == s[|s| - |r|..]
    ensures r == [] || !IsTrimmed(r[0])
    ensures forall i :: 0 <= i < |s| - |r| ==> IsTrimmed(s[i])
  {
    if s == [] || !IsTrimmed(s[0]) then s else TrimStart(s[1..])
  }

  function TrimEnd(s: String): (r: String)
    ensures |r| <= |s| && r == s[..|r|]
    ensures r == [] || !IsTrimmed(r[|r| - 1])
    ensures forall i :: |r| <= i < |s| ==> IsTrimmed(s[i])
  {
    if s == [] || !IsTrimmed(s[|s| - 1]) then s else TrimEnd(s[..|s| - 1])
  }

  /** `s.trim()`: the longest infix whose first and last characters are not trimmed. */
  function Trim(s: String): (r: String)
    ensures |r| <= |s|
    ensures r == [] || (!IsTrimmed(r[0]) && !IsTrimmed(r[|r| - 1]))
  {
    TrimEnd(TrimStart(s))
  }

  /** A string with no surrounding blanks is its own trim. */
  lemma TrimNoBlanks(s: String)
    requires s == [] || (!IsTrimmed(s[0]) && !IsTrimmed(s[|s| - 1]))
    ensures Trim(s) == s
  {
  }

  /** `s.indexOf(c, from)`: the first position at or after `from` holding `c`, or -1. */
  function IndexOf(s: String, c: char, from: nat): (r: int)
    decreases |s| - from
    ensures r == -1 || (from <= r < |s| && s[r] == c)
    ensures r == -1 ==> forall k :: from <= k < |s| ==> s[k] != c
    ensures r != -1 ==> forall k :: from <= k < r ==> s[k] != c
  {
    if from >= |s| then -1
    else if s[from] == c then from
    else IndexOf(s, c, from + 1)
  }

  /** Whether `t` occurs in `s` starting at position `i`. */
  predicate OccursAt(s: String, t: String, i: nat) {
    i + |t| <= |s| && s[i..i + |t|] == t
  }

  /** `s.lastIndexOf(t)`: the last position where `t` occurs in `s`, or -1. */
  function LastIndexOf(s: String, t: String): (r: int)
    ensures r == -1 || (0 <= r && OccursAt(s, t, r))
  {
    if |t| > |s| then -1 else LastIndexOfFrom(s, t, |s| - |t|)
  }

  function LastIndexOfFrom(s: String, t: String, k: nat): (r: int)
    requires k + |t| <= |s|
    decreases k
    ensures r == -1 || (0 <= r <= k && OccursAt(s, t, r))
    ensures r == -1 ==> forall i :: 0 <= i <= k ==> !OccursAt(s, t, i)
    ensures r != -1 ==> forall i :: r < i <= k ==> !OccursAt(s, t, i)
  {
    if s[k..k + |t|] == t then k
    else if k == 0 then -1
    else LastIndexOfFrom(s, t, k - 1)
  }

  /** When `s` ends with `t`, the last occurrence of `t` is that suffix. */
  lemma LastIndexOfSuffix(s: String, t: String)
    requires EndsWith(s, t)
    ensures LastIndexOf(s, t) == |s| - |t|
  {
  }

  /** The pieces of `s` between occurrences of `c`, empty pieces included. */
  function Pieces(s: String, c: char): (r: seq<String>)
    decreases |s|
    ensures |r| >= 1
    ensures forall k :: 0 <= k < |r| ==> c !in r[k]
  {
    var i := IndexOf(s, c, 0);
    if i == -1 then [s] else [s[..i]] + Pieces(s[i + 1..], c)
  }

  /** Joining pieces back with the separator. */
  function Join(parts: seq<String>, c: char): String
    requires |parts| >= 1
  {
    if |parts| == 1 then parts[0] else parts[0] + [c] + Join(parts[1..], c)
  }

  /** Splitting loses nothing: the pieces joined by the separator are the input. */
  lemma {:induction false} JoinPieces(s: String, c: char)
    decreases |s|
    ensures Join(Pieces(s, c), c) == s
  {
    var i := IndexOf(s, c, 0);
    if i != -1 {
      JoinPieces(s[i + 1..], c);
      assert s == s[..i] + [c] + s[i + 1..];
    }
  }

  function DropTrailingEmpty(parts: seq<String>): (r: seq<String>)
    ensures |r| <= |parts| && r == parts[..|r|]
    ensures r == [] || r[|r| - 1] != []
    ensures forall k :: |r| <= k < |parts| ==> parts[k] == []
  {
    if parts == [] || parts[|parts| - 1] != [] then parts
    else DropTrailingEmpty(parts[..|parts| - 1])
  }

  /**
   * `s.split(c)` for a separator that is not a regular-expression meta
   * character: without a match the whole input is the one element;
   * otherwise the pieces, less the trailing empty ones.
   */
  function Split(s: String, c: char): (r: seq<String>)
    ensures forall k :: 0 <= k < |r| ==> c !in r[k]
  {
    if c !in s then [s] else DropTrailingEmpty(Pieces(s, c))
  }

  /** Every element of a split is one of the pieces, in order and from the first. */
  lemma SplitIsPrefixOfPieces(s: String, c: char)
    ensures |Split(s, c)| <= |Pieces(s, c)|
    ensures Split(s, c) == Pieces(s, c)[..|Split(s, c)|]
  {
    if c !in s {
      assert IndexOf(s, c, 0) == -1;
    }
  }
}
