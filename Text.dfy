/**
 * The three JavaScript string operations the task list relies on:
 * `String.prototype.trim` (the blank-draft test in `createTask`),
 * `String.prototype.toLowerCase` and `String.prototype.includes`
 * (the search filter).
 */
module Text {

  /** The code points ECMAScript's `trim` strips: WhiteSpace (TAB, VT, FF, ZWNBSP
      and every Unicode "Zs" space separator) and LineTerminator (LF, CR, LS, PS). */
  predicate IsWhiteSpace(c: char) {
    var n := c as int;
    n == 0x09 || n == 0x0B || n == 0x0C || n == 0x20 || n == 0xA0 || n == 0xFEFF
    || n == 0x1680 || (0x2000 <= n <= 0x200A) || n == 0x202F || n == 0x205F || n == 0x3000
    || n == 0x0A || n == 0x0D || n == 0x2028 || n == 0x2029
  }

  /** A string made only of white space (the empty string included). */
  predicate IsBlank(s: string) {
    forall i :: 0 <= i < |s| ==> IsWhiteSpace(s[i])
  }

  /** Drops the leading white space: the result is a suffix of `s`, everything
      dropped was white space, and the result does not start with white space. */
  function TrimStart(s: string): (r: string)
    ensures |r| <= |s| && r == s[|s| - |r|..]
    ensures forall i :: 0 <= i < |s| - |r| ==> IsWhiteSpace(s[i])
    ensures r != [] ==> !IsWhiteSpace(r[0])
  {
    if s != [] && IsWhiteSpace(s[0]) then TrimStart(s[1..]) else s
  }

  /** Drops the trailing white space: the result is a prefix of `s`, everything
      dropped was white space, and the result does not end with white space. */
  function TrimEnd(s: string): (r: string)
    ensures |r| <= |s| && r == s[..|r|]
    ensures forall i :: |r| <= i < |s| ==> IsWhiteSpace(s[i])
    ensures r != [] ==> !IsWhiteSpace(r[|r| - 1])
  {
    if s != [] && IsWhiteSpace(s[|s| - 1]) then TrimEnd(s[..|s| - 1]) else s
  }

  /** `s.trim()`: white space removed from both ends. The result is the
      middle slice of `s` left once a blank prefix and a blank suffix are
      dropped, and it neither starts nor ends with white space. */
  function Trim(s: string): (r: string)
    ensures |r| <= |s|
    ensures IsBlankPadded(s, r)
    ensures r != [] ==> !IsWhiteSpace(r[0]) && !IsWhiteSpace(r[|r| - 1])
  {
    var a := TrimStart(s);
    var r := TrimEnd(a);
    var k := |s| - |a|;
    assert r == s[k..k + |r|] by {
      assert a == s[k..] && r == a[..|r|];
    }
    assert forall j :: k + |r| <= j < |s| ==> IsWhiteSpace(s[j]);
    assert forall i :: 0 <= i < k ==> IsWhiteSpace(s[i]);
    assert 0 <= k <= |s| - |r|;
    BlankEnds(s, k, r);
    r
  }

  /** `s` is `r` with a blank prefix and a blank suffix around it. */
  ghost predicate IsBlankPadded(s: string, r: string) {
    exists k ::
      && 0 <= k <= |s| - |r| && r == s[k..k + |r|]
      && IsBlank(s[..k]) && IsBlank(s[k + |r|..])
  }

  /** A slice of `s` whose surroundings are all white space is `s` with its
      blank padding removed. */
  lemma BlankEnds(s: string, k: int, r: string)
    requires 0 <= k <= |s| - |r| && r == s[k..k + |r|]
    requires forall i :: 0 <= i < k ==> IsWhiteSpace(s[i])
    requires forall j :: k + |r| <= j < |s| ==> IsWhiteSpace(s[j])
    ensures IsBlankPadded(s, r)
  {
    BlankSlice(s, 0, k);
    BlankSlice(s, k + |r|, |s|);
    assert s[..k] == s[0..k] && s[k + |r|..] == s[k + |r|..|s|];
  }

  /** A slice whose characters are all white space is blank. */
  lemma BlankSlice(s: string, lo: int, hi: int)
    requires 0 <= lo <= hi <= |s|
    requires forall j :: lo <= j < hi ==> IsWhiteSpace(s[j])
    ensures IsBlank(s[lo..hi])
  {
  }

  /** The blank test of `createTask`: trimming yields "" exactly when every
      character of the string is white space. */
  lemma TrimEmptyIffBlank(s: string)
    ensures Trim(s) == [] <==> IsBlank(s)
  {
  }

  predicate IsAsciiUpper(c: char) {
    'A' <= c <= 'Z'
  }

  /** Lower-cases one character; only the ASCII letters A-Z are affected. */
  function ToLowerChar(c: char): (d: char)
    ensures !IsAsciiUpper(d)
    ensures IsAsciiUpper(c) ==> d as int - c as int == 'a' as int - 'A' as int
    ensures !IsAsciiUpper(c) ==> d == c
  {
    if IsAsciiUpper(c) then (c as int - 'A' as int + 'a' as int) as char else c
  }

  /** `s.toLowerCase()`, restricted to ASCII: the same length, each character
      lower-cased, and no upper-case ASCII letter left. */
  function ToLower(s: string): (r: string)
    ensures |r| == |s|
    ensures forall i :: 0 <= i < |s| ==> r[i] == ToLowerChar(s[i])
    ensures forall i :: 0 <= i < |r| ==> !IsAsciiUpper(r[i])
  {
    if s == [] then [] else [ToLowerChar(s[0])] + ToLower(s[1..])
  }

  /** Lower-casing twice is lower-casing once. */
  lemma ToLowerIdempotent(s: string)
    ensures ToLower(ToLower(s)) == ToLower(s)
  {
  }

  predicate IsPrefix(q: string, s: string) {
    |q| <= |s| && s[..|q|] == q
  }

  /** `q` occurs in `s` starting at index `i`. */
  ghost predicate OccursAt(s: string, q: string, i: int) {
    0 <= i && i + |q| <= |s| && s[i..i + |q|] == q
  }

  /** `s.includes(q)`: `q` is a prefix of some suffix of `s`. The empty string
      is included in every string. */
  function Includes(s: string, q: string): (r: bool)
    ensures q == [] ==> r
    ensures r ==> |q| <= |s|
  {
    IsPrefix(q, s) || (s != [] && Includes(s[1..], q))
  }

  /** An occurrence of `q` in `s` at index `i` is found by `Includes`. */
  lemma {:induction false} OccursImpliesIncludes(s: string, q: string, i: int)
    requires OccursAt(s, q, i)
    ensures Includes(s, q)
    decreases i
  {
    if i > 0 {
      assert s[1..][i - 1..i - 1 + |q|] == s[i..i + |q|];
      OccursImpliesIncludes(s[1..], q, i - 1);
    }
  }

  /** When `Includes` holds, `q` occurs in `s` at some index. */
  lemma {:induction false} IncludesImpliesOccurs(s: string, q: string)
    requires Includes(s, q)
    ensures exists i :: OccursAt(s, q, i)
  {
    if IsPrefix(q, s) {
      assert OccursAt(s, q, 0);
    } else {
      IncludesImpliesOccurs(s[1..], q);
      var j :| OccursAt(s[1..], q, j);
      assert s[1..][j..j + |q|] == s[j + 1..j + 1 + |q|];
      assert OccursAt(s, q, j + 1);
    }
  }

  /** `Includes` is the substring relation: it holds exactly when `q` occurs
      in `s` at some index. */
  lemma IncludesIffOccurs(s: string, q: string)
    ensures Includes(s, q) <==> exists i :: OccursAt(s, q, i)
  {
    if Includes(s, q) {
      IncludesImpliesOccurs(s, q);
    }
    forall i | OccursAt(s, q, i) ensures Includes(s, q) {
      OccursImpliesIncludes(s, q, i);
    }
  }
}
