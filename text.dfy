/**
 * String primitives the validators are built from: Python's str.strip(),
 * lower-casing, prefix and substring tests, character removal and the
 * slice s[:n].  Strings are sequences of Unicode scalar values, as Python
 * str values are.
 */
module Text {

  datatype Option<T> = None | Some(value: T)

  /** What a Python call does: return a value or raise an exception carrying a text. */
  datatype Call<T> = Returns(value: T) | Raises(error: string)

  predicate IsAsciiLetter(c: char) { 'a' <= c <= 'z' || 'A' <= c <= 'Z' }

  predicate IsAsciiDigit(c: char) { '0' <= c <= '9' }

  predicate IsAsciiAlnum(c: char) { IsAsciiLetter(c) || IsAsciiDigit(c) }

  /** Python's str.isspace(): the characters str.strip() removes when given no argument. */
  predicate IsSpace(c: char) {
    || '\t' <= c <= '\r'
    || '\U{1C}' <= c <= '\U{1F}'
    || c == ' '
    || c == '\U{85}'
    || c == '\U{A0}'
    || c == '\U{1680}'
    || '\U{2000}' <= c <= '\U{200A}'
    || c == '\U{2028}'
    || c == '\U{2029}'
    || c == '\U{202F}'
    || c == '\U{205F}'
    || c == '\U{3000}'
  }

  /** Python's str.lstrip(): drops the leading whitespace. */
  function LStrip(s: string): (r: string)
    ensures |r| <= |s| && r == s[|s| - |r|..]
    ensures r == [] || !IsSpace(r[0])
    ensures forall i :: 0 <= i < |s| - |r| ==> IsSpace(s[i])
  {
    if s != [] && IsSpace(s[0]) then LStrip(s[1..]) else s
  }

  /** Python's str.rstrip(): drops the trailing whitespace. */
  function RStrip(s: string): (r: string)
    ensures |r| <= |s| && r == s[..|r|]
    ensures r == [] || !IsSpace(r[|r| - 1])
    ensures forall i :: |r| <= i < |s| ==> IsSpace(s[i])
  {
    if s != [] && IsSpace(s[|s| - 1]) then RStrip(s[..|s| - 1]) else s
  }

  /**
   * r is the slice of s that starts at k, and everything before k and
   * everything after the slice is whitespace.
   */
  predicate StripsTo(s: string, k: int, r: string) {
    && 0 <= k && k + |r| <= |s| && r == s[k..k + |r|]
    && (forall i :: 0 <= i < k ==> IsSpace(s[i]))
    && (forall i :: k + |r| <= i < |s| ==> IsSpace(s[i]))
  }

  /**
   * Python's str.strip() with no argument: the slice of s left when the
   * leading and trailing whitespace is dropped, which neither starts nor
   * ends with whitespace and is empty only when s is all whitespace.
   */
  function Strip(s: string): (r: string)
    ensures |r| <= |s|
    ensures StripsTo(s, |s| - |LStrip(s)|, r)
    ensures Trimmed(r)
    ensures r == [] <==> forall i :: 0 <= i < |s| ==> IsSpace(s[i])
  {
    SliceOfSuffix(s, LStrip(s), RStrip(LStrip(s)));
    EmptyStrip(s, LStrip(s), RStrip(LStrip(s)));
    RStrip(LStrip(s))
  }

  /** The strip is empty exactly when s is all whitespace, and otherwise starts and ends with non-whitespace. */
  lemma EmptyStrip(s: string, l: string, r: string)
    requires |l| <= |s| && l == s[|s| - |l|..]
    requires l == [] || !IsSpace(l[0])
    requires forall i :: 0 <= i < |s| - |l| ==> IsSpace(s[i])
    requires |r| <= |l| && r == l[..|r|]
    requires r == [] || !IsSpace(r[|r| - 1])
    requires forall i :: |r| <= i < |l| ==> IsSpace(l[i])
    ensures Trimmed(r)
    ensures r == [] <==> forall i :: 0 <= i < |s| ==> IsSpace(s[i])
  {
    if r != [] {
      assert r[0] == l[0] == s[|s| - |l|];
    }
  }

  /** A prefix r of a suffix l of s, with whitespace around it in s, is what Strip's contract describes. */
  lemma SliceOfSuffix(s: string, l: string, r: string)
    requires |l| <= |s| && l == s[|s| - |l|..]
    requires forall i :: 0 <= i < |s| - |l| ==> IsSpace(s[i])
    requires |r| <= |l| && r == l[..|r|]
    requires forall i :: |r| <= i < |l| ==> IsSpace(l[i])
    ensures StripsTo(s, |s| - |l|, r)
  {
    var k := |s| - |l|;
    forall i | k + |r| <= i < |s| ensures IsSpace(s[i]) {
      assert s[i] == l[i - k];
    }
  }

  /** Neither the first nor the last character of s is whitespace. */
  predicate Trimmed(s: string) {
    s == [] || (!IsSpace(s[0]) && !IsSpace(s[|s| - 1]))
  }

  /** A string with no whitespace at either end is its own strip. */
  lemma {:induction false} StripStripped(s: string)
    requires s == [] || (!IsSpace(s[0]) && !IsSpace(s[|s| - 1]))
    ensures Strip(s) == s
  {
  }

  function LowerChar(c: char): (d: char)
  {
    if 'A' <= c <= 'Z' then (c as int + 32) as char else c
  }

  /**
   * Lower-casing of ASCII letters.  Python's str.lower() folds all of
   * Unicode; for the texts this model compares lowered strings against,
   * see Lower's use sites.
   */
  function Lower(s: string): (r: string)
    ensures |r| == |s|
    ensures forall i :: 0 <= i < |s| ==> r[i] == LowerChar(s[i])
  {
    seq(|s|, i requires 0 <= i < |s| => LowerChar(s[i]))
  }

  /** Python's s.startswith(p). */
  predicate HasPrefix(s: string, p: string) {
    |p| <= |s| && s[..|p|] == p
  }

  /** Python's `sub in s` for strings: sub occurs somewhere in s. */
  predicate HasInfix(s: string, sub: string)
  {
    HasPrefix(s, sub) || (s != [] && HasInfix(s[1..], sub))
  }

  /** sub occurs in s starting at index i. */
  predicate OccursAt(s: string, sub: string, i: int) {
    0 <= i <= |s| - |sub| && s[i..i + |sub|] == sub
  }

  /** HasInfix means what it says: an occurrence at some index. */
  lemma {:induction false} HasInfixIff(s: string, sub: string)
    ensures HasInfix(s, sub) <==> exists i :: OccursAt(s, sub, i)
  {
    if HasPrefix(s, sub) {
      assert OccursAt(s, sub, 0);
    } else if s != [] {
      HasInfixIff(s[1..], sub);
      if HasInfix(s[1..], sub) {
        var i :| OccursAt(s[1..], sub, i);
        assert s[i + 1..i + 1 + |sub|] == s[1..][i..i + |sub|];
        assert OccursAt(s, sub, i + 1);
      }
      if exists i :: OccursAt(s, sub, i) {
        var i :| OccursAt(s, sub, i);
        assert i != 0;
        assert s[1..][i - 1..i - 1 + |sub|] == s[i..i + |sub|];
        assert OccursAt(s[1..], sub, i - 1);
      }
    }
  }

  /** A substring whose k-th character does not occur in s does not occur in s. */
  lemma MissingCharNoInfix(s: string, sub: string, k: nat)
    requires k < |sub| && sub[k] !in s
    ensures !HasInfix(s, sub)
  {
    forall i | 0 <= i <= |s| - |sub|
      ensures !OccursAt(s, sub, i)
    {
      assert s[i..i + |sub|][k] == s[i + k];
    }
    HasInfixIff(s, sub);
  }

  /** Where sub occurs, so does every prefix of it. */
  lemma InfixOfPrefix(s: string, sub: string, p: string)
    requires HasInfix(s, sub) && HasPrefix(sub, p)
    ensures HasInfix(s, p)
  {
    HasInfixIff(s, sub);
    HasInfixIff(s, p);
    var i :| OccursAt(s, sub, i);
    assert s[i..i + |p|] == s[i..i + |sub|][..|p|];
    assert OccursAt(s, p, i);
  }

  /** A two-character substring, stated over adjacent positions. */
  lemma HasPairIff(s: string, a: char, b: char)
    ensures HasInfix(s, [a, b]) <==> exists i :: 0 <= i < |s| - 1 && s[i] == a && s[i + 1] == b
  {
    HasInfixIff(s, [a, b]);
    if exists i :: 0 <= i < |s| - 1 && s[i] == a && s[i + 1] == b {
      var i :| 0 <= i < |s| - 1 && s[i] == a && s[i + 1] == b;
      assert OccursAt(s, [a, b], i);
    }
    if HasInfix(s, [a, b]) {
      var i :| OccursAt(s, [a, b], i);
      assert s[i] == s[i..i + 2][0] && s[i + 1] == s[i..i + 2][1];
    }
  }

  /** Some character of s is one of chars (a regular-expression class search). */
  predicate AnyIn(s: string, chars: set<char>) {
    exists i :: 0 <= i < |s| && s[i] in chars
  }

  /** s with every character of drop removed, as str.replace(c, '') and re.sub('[...]', '') do. */
  function Remove(s: string, drop: set<char>): (r: string)
    ensures |r| <= |s|
    ensures forall i :: 0 <= i < |r| ==> r[i] !in drop
    ensures (forall i :: 0 <= i < |s| ==> s[i] !in drop) ==> r == s
  {
    if s == [] then []
    else if s[0] in drop then Remove(s[1..], drop)
    else [s[0]] + Remove(s[1..], drop)
  }

  /** On one character, removal drops it exactly when it is in drop; with RemoveAppend this fixes Remove on every text. */
  lemma RemoveOne(c: char, drop: set<char>)
    ensures Remove([c], drop) == if c in drop then [] else [c]
  {
    assert [c][1..] == [];
  }

  /** Removal works piecewise on a concatenation. */
  lemma {:induction false} RemoveAppend(a: string, b: string, drop: set<char>)
    ensures Remove(a + b, drop) == Remove(a, drop) + Remove(b, drop)
  {
    if a != [] {
      assert (a + b)[1..] == a[1..] + b;
      RemoveAppend(a[1..], b, drop);
    } else {
      assert a + b == b;
    }
  }

  /** Removing every character of a text made only of dropped characters leaves nothing. */
  lemma {:induction false} RemoveAll(s: string, drop: set<char>)
    requires forall i :: 0 <= i < |s| ==> s[i] in drop
    ensures Remove(s, drop) == []
  {
    if s != [] {
      RemoveAll(s[1..], drop);
    }
  }

  /** Removal adds no character. */
  lemma {:induction false} RemoveAbsent(s: string, drop: set<char>, c: char)
    requires c !in s
    ensures c !in Remove(s, drop)
  {
    if s != [] {
      RemoveAbsent(s[1..], drop, c);
    }
  }

  /** Python's slice s[:n]. */
  function Take(s: string, n: nat): (r: string)
    ensures |r| <= n && HasPrefix(s, r)
    ensures |s| <= n ==> r == s
    ensures |s| > n ==> |r| == n
  {
    if |s| > n then s[..n] else s
  }

  /** Index of the first c in s, or |s| when there is none (Python's find with -1 read as |s|). */
  function IndexOf(s: string, c: char): (i: nat)
    ensures i <= |s|
    ensures i < |s| ==> s[i] == c
    ensures forall j :: 0 <= j < i ==> s[j] != c
    ensures i == |s| <==> c !in s
  {
    if s == [] then 0
    else if s[0] == c then 0
    else 1 + IndexOf(s[1..], c)
  }

  /** The first c of x + [c] + y, for x free of c, is the one between x and y. */
  lemma IndexOfSplit(x: string, c: char, y: string)
    requires c !in x
    ensures IndexOf(x + ([c] + y), c) == |x|
    ensures (x + ([c] + y))[..|x|] == x && (x + ([c] + y))[|x| + 1..] == y
  {
    var s := x + ([c] + y);
    assert s[|x|] == c;
    assert forall j :: 0 <= j < |x| ==> s[j] == x[j];
  }

  /** The text before the first character of stops (all of s when there is none). */
  function UpTo(s: string, stops: set<char>): (r: string)
    ensures HasPrefix(s, r)
    ensures forall i :: 0 <= i < |r| ==> r[i] !in stops
    ensures |r| < |s| ==> s[|r|] in stops
  {
    if s == [] || s[0] in stops then [] else [s[0]] + UpTo(s[1..], stops)
  }
}
