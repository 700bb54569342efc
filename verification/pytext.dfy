/** The pieces of Python's `str` behaviour that the KQL syntax validator relies on:
    the whitespace predicate behind `str.strip()` / `str.isspace()`, the
    argument-less `strip`, and single-character `str.count`. A string is a
    sequence of Dafny `char`s, which are Unicode scalar values: unlike a
    Python 3 `str`, it cannot hold a lone surrogate (U+D800-U+DFFF). */
module PyText {

  /** A character Python 3 treats as whitespace (`str.isspace()`), which is the
      set `str.strip()` removes when called without arguments: the ASCII
      controls TAB, LF, VT, FF, CR, the information separators U+001C-U+001F,
      SPACE, NEL, NO-BREAK SPACE, and the Unicode space separators and
      line/paragraph separators. */
  predicate IsSpace(c: char): (b: bool)
    ensures c == ' ' || c == '\t' || c == '\n' || c == '\r' || c == '\U{0B}' || c == '\U{0C}' ==> b
    ensures b ==> c != '(' && c != ')'
    ensures '!' <= c <= '~' ==> !b
  {
    || ('\t' <= c <= '\r')
    || ('\U{1C}' <= c <= ' ')
    || c == '\U{85}'
    || c == '\U{A0}'
    || c == '\U{1680}'
    || ('\U{2000}' <= c <= '\U{200A}')
    || c == '\U{2028}'
    || c == '\U{2029}'
    || c == '\U{202F}'
    || c == '\U{205F}'
    || c == '\U{3000}'
  }

  /** Every character of `s` is whitespace (the empty string included). */
  predicate IsBlank(s: string) {
    forall i :: 0 <= i < |s| ==> IsSpace(s[i])
  }

  /** `s.count(c)` for a one-character needle: the number of positions holding `c`. */
  function Count(s: string, c: char): (n: nat)
    ensures n <= |s|
    ensures n == 0 <==> c !in s
  {
    if s == [] then 0
    else (if s[0] == c then 1 else 0) + Count(s[1..], c)
  }

  /** `s.lstrip()`: drops the longest all-whitespace prefix. */
  function LStrip(s: string): (r: string)
    ensures |r| <= |s| && r == s[|s| - |r|..]
    ensures IsBlank(s[..|s| - |r|])
    ensures r == [] || !IsSpace(r[0])
  {
    if s != [] && IsSpace(s[0]) then
      var r := LStrip(s[1..]);
      assert s[..|s| - |r|] == [s[0]] + s[1..][..|s| - 1 - |r|];
      BlankAppend([s[0]], s[1..][..|s| - 1 - |r|]);
      r
    else s
  }

  /** `s.rstrip()`: drops the longest all-whitespace suffix. */
  function RStrip(s: string): (r: string)
    ensures |r| <= |s| && r == s[..|r|]
    ensures IsBlank(s[|r|..])
    ensures r == [] || !IsSpace(r[|r| - 1])
  {
    if s != [] && IsSpace(s[|s| - 1]) then
      var r := RStrip(s[..|s| - 1]);
      assert s[|r|..] == s[..|s| - 1][|r|..] + [s[|s| - 1]];
      BlankAppend(s[..|s| - 1][|r|..], [s[|s| - 1]]);
      r
    else s
  }

  /** `s.strip()`: whitespace removed from both ends. It is empty exactly
      when `s` is all whitespace, which is why `not s.strip()` is Python's
      blank test. */
  function Strip(s: string): (r: string)
    ensures r == [] <==> IsBlank(s)
    ensures r == [] || (!IsSpace(r[0]) && !IsSpace(r[|r| - 1]))
  {
    var t := LStrip(s);
    RStripEmptyIffBlank(t);
    LStripKeepsBlank(s);
    var r := RStrip(t);
    assert r != [] ==> r[0] == t[0];
    r
  }

  /** The count agrees with the multiplicity of `c` in the multiset of `s`. */
  lemma {:induction false} CountIsMultiplicity(s: string, c: char)
    ensures Count(s, c) == multiset(s)[c]
  {
    if s != [] {
      assert s == [s[0]] + s[1..];
      assert multiset(s) == multiset([s[0]]) + multiset(s[1..]);
      CountIsMultiplicity(s[1..], c);
    }
  }

  /** Counting distributes over concatenation. */
  lemma {:induction false} CountAppend(a: string, b: string, c: char)
    ensures Count(a + b, c) == Count(a, c) + Count(b, c)
  {
    if a == [] {
      assert a + b == b;
    } else {
      assert (a + b)[1..] == a[1..] + b;
      CountAppend(a[1..], b, c);
    }
  }

  /** A blank string holds no non-whitespace character, so counting one gives 0. */
  lemma {:induction false} BlankCountsZero(s: string, c: char)
    requires IsBlank(s)
    requires !IsSpace(c)
    ensures Count(s, c) == 0
  {
    if s != [] {
      assert IsSpace(s[0]);
      assert IsBlank(s[1..]) by {
        forall i | 0 <= i < |s[1..]| ensures IsSpace(s[1..][i]) {
          assert s[1..][i] == s[i + 1];
        }
      }
      BlankCountsZero(s[1..], c);
    }
  }

  /** A concatenation is blank exactly when both parts are. */
  lemma BlankAppend(a: string, b: string)
    ensures IsBlank(a + b) <==> IsBlank(a) && IsBlank(b)
  {
    if IsBlank(a + b) {
      forall i | 0 <= i < |a| ensures IsSpace(a[i]) {
        assert (a + b)[i] == a[i];
      }
      forall i | 0 <= i < |b| ensures IsSpace(b[i]) {
        assert (a + b)[|a| + i] == b[i];
      }
    }
  }

  /** `rstrip` yields the empty string exactly on blank input. */
  lemma RStripEmptyIffBlank(t: string)
    ensures RStrip(t) == [] <==> IsBlank(t)
  {
    var r := RStrip(t);
    if r == [] {
      assert t[|r|..] == t;
    } else {
      assert r[|r| - 1] == t[|r| - 1];
    }
  }

  /** `lstrip` only removes whitespace, so it keeps (non-)blankness. */
  lemma LStripKeepsBlank(s: string)
    ensures IsBlank(LStrip(s)) <==> IsBlank(s)
  {
    var t := LStrip(s);
    var p := s[..|s| - |t|];
    assert IsBlank(p);
    assert p + t == s;
    BlankAppend(p, t);
  }
}
