/**
 * The string operations the forms and queries rely on: Python's str.strip()
 * and str.lower(), str.endswith(), str.rsplit() on one character, and the
 * `icontains` lookup. Whitespace is Python's full str.isspace() set; case
 * folding is modelled for ASCII letters only.
 */
module Text {
  import opened Wrappers

  /**
   * Python's str.isspace() on one character: the ASCII controls tab to carriage
   * return, the four separators 0x1C to 0x1F, space, and the Unicode spaces
   * and line and paragraph separators.
   */
  predicate IsSpace(c: char) {
    InRanges(c as int, SpaceRanges)
  }

  /** The code points str.isspace() accepts, as inclusive ranges. */
  const SpaceRanges: seq<(int, int)> := [
    (0x09, 0x0D), (0x1C, 0x20), (0x85, 0x85), (0xA0, 0xA0), (0x1680, 0x1680),
    (0x2000, 0x200A), (0x2028, 0x2029), (0x202F, 0x202F), (0x205F, 0x205F), (0x3000, 0x3000)]

  /** `n` lies in one of the inclusive ranges. */
  predicate InRanges(n: int, ranges: seq<(int, int)>) {
    ranges != [] && (ranges[0].0 <= n <= ranges[0].1 || InRanges(n, ranges[1..]))
  }

  /** InRanges holds exactly when one of the ranges contains `n`. */
  lemma {:induction false} InRangesExactly(n: int, ranges: seq<(int, int)>)
    ensures InRanges(n, ranges) <==> exists k :: 0 <= k < |ranges| && ranges[k].0 <= n <= ranges[k].1
  {
    if ranges != [] {
      InRangesExactly(n, ranges[1..]);
      if exists k :: 0 <= k < |ranges| && ranges[k].0 <= n <= ranges[k].1 {
        var k :| 0 <= k < |ranges| && ranges[k].0 <= n <= ranges[k].1;
        if k > 0 {
          assert ranges[1..][k - 1] == ranges[k];
        }
      }
    }
  }

  /** The separators 0x1C to 0x1F and the no-break space are whitespace; a letter is not. */
  lemma SeparatorsAreSpace()
    ensures IsSpace('\U{001C}') && IsSpace('\U{001F}') && IsSpace('\U{00A0}')
    ensures !IsSpace('a')
  {
    InRangesExactly('a' as int, SpaceRanges);
  }

  /** No ASCII letter is whitespace. */
  lemma LetterIsNotSpace(c: char)
    requires 'A' <= c <= 'Z' || 'a' <= c <= 'z'
    ensures !IsSpace(c)
  {
    InRangesExactly(c as int, SpaceRanges);
  }

  /** str.strip() removes the information separators around a word. */
  lemma StripSeparators()
    ensures Strip("\U{001C}a\U{001F}") == "a"
  {
    SeparatorsAreSpace();
    var s := "\U{001C}a\U{001F}";
    assert s[1..] == "a\U{001F}";
    assert "a\U{001F}"[..1] == "a";
    assert Strip("a") == "a";
    assert Strip("a\U{001F}") == "a";
  }

  /**
   * Python's str.strip(): what Django's CharField does to every submitted value.
   * Whitespace is dropped from the front, then from the back, until neither end is whitespace.
   */
  function Strip(s: string): (r: string)
    ensures |r| <= |s|
    ensures r == [] || (!IsSpace(r[0]) && !IsSpace(r[|r| - 1]))
    ensures r == [] <==> forall i :: 0 <= i < |s| ==> IsSpace(s[i])
    decreases |s|
  {
    if s == [] then s
    else if IsSpace(s[0]) then Strip(s[1..])
    else if IsSpace(s[|s| - 1]) then
      assert s[..|s| - 1][0] == s[0];
      Strip(s[..|s| - 1])
    else s
  }

  /** What Strip keeps is a contiguous run of the input, with only whitespace cut off either end. */
  lemma {:induction false} StripKeepsMiddle(s: string)
    ensures exists i, j :: StrippedAt(s, Strip(s), i, j)
    decreases |s|
  {
    var r := Strip(s);
    if s == [] {
      assert StrippedAt(s, r, 0, 0);
    } else if IsSpace(s[0]) {
      StripKeepsMiddle(s[1..]);
      var i, j :| StrippedAt(s[1..], r, i, j);
      assert s[1..][i..j] == s[i + 1..j + 1];
      assert StrippedAt(s, r, i + 1, j + 1);
    } else if IsSpace(s[|s| - 1]) {
      StripKeepsMiddle(s[..|s| - 1]);
      var i, j :| StrippedAt(s[..|s| - 1], r, i, j);
      assert s[..|s| - 1][i..j] == s[i..j];
      assert StrippedAt(s, r, i, j);
    } else {
      assert StrippedAt(s, r, 0, |s|);
    }
  }

  /** `r` is `s[i..j]`, and everything before `i` and from `j` on is whitespace. */
  predicate StrippedAt(s: string, r: string, i: int, j: int) {
    && 0 <= i <= j <= |s|
    && r == s[i..j]
    && (forall k :: 0 <= k < i ==> IsSpace(s[k]))
    && (forall k :: j <= k < |s| ==> IsSpace(s[k]))
  }

  /** A value with a NUL character in it, which every form text field refuses. */
  predicate HasNul(s: string) {
    '\0' in s
  }

  /** Stripping a stripped value changes nothing. */
  lemma StripIdempotent(s: string)
    ensures Strip(Strip(s)) == Strip(s)
  {
  }

  function LowerChar(c: char): char {
    if 'A' <= c <= 'Z' then (c as int + 32) as char else c
  }

  /** Python's str.lower(), restricted to ASCII letters. */
  function Lower(s: string): (r: string)
    ensures |r| == |s|
    ensures forall i :: 0 <= i < |s| ==> r[i] == LowerChar(s[i])
  {
    seq(|s|, i requires 0 <= i < |s| => LowerChar(s[i]))
  }

  /** The position of the last `c` in `s`, if any: where str.rsplit(c, 1) splits. */
  function LastIndexOf(s: string, c: char): (r: Option<nat>)
    ensures r.Some? ==> r.value < |s| && s[r.value] == c
    ensures r.Some? ==> forall i :: r.value < i < |s| ==> s[i] != c
    ensures r.None? ==> forall i :: 0 <= i < |s| ==> s[i] != c
  {
    if s == [] then None
    else if s[|s| - 1] == c then Some(|s| - 1)
    else LastIndexOf(s[..|s| - 1], c)
  }

  /** A `c` at `k` with none after it is the last one. */
  lemma LastIndexOfUnique(s: string, c: char, k: nat)
    requires k < |s| && s[k] == c
    requires forall i :: k < i < |s| ==> s[i] != c
    ensures LastIndexOf(s, c) == Some(k)
  {
  }

  /** `s` with every character from position `k` on lower-cased. */
  function LowerFrom(s: string, k: nat): (r: string)
    requires k <= |s|
    ensures |r| == |s|
    ensures forall i :: 0 <= i < k ==> r[i] == s[i]
    ensures forall i :: k <= i < |s| ==> r[i] == LowerChar(s[i])
  {
    seq(|s|, i requires 0 <= i < |s| => if i < k then s[i] else LowerChar(s[i]))
  }

  predicate StartsWith(s: string, prefix: string) {
    |prefix| <= |s| && s[..|prefix|] == prefix
  }

  predicate EndsWith(s: string, suffix: string) {
    |suffix| <= |s| && s[|s| - |suffix|..] == suffix
  }

  /** str.endswith with a tuple of suffixes: true when any one of them ends `s`. */
  predicate EndsWithAny(s: string, suffixes: seq<string>) {
    exists k :: 0 <= k < |suffixes| && EndsWith(s, suffixes[k])
  }

  /** Lower-casing a name keeps every suffix that is already lower case. */
  lemma {:induction false} LowerKeepsLowerSuffix(s: string, suffix: string)
    requires EndsWith(s, suffix)
    requires Lower(suffix) == suffix
    ensures EndsWith(Lower(s), suffix)
  {
    var d := |s| - |suffix|;
    forall i | 0 <= i < |suffix|
      ensures Lower(s)[d + i] == suffix[i]
    {
      assert s[d + i] == suffix[i];
      assert Lower(suffix)[i] == LowerChar(suffix[i]);
    }
    assert Lower(s)[d..] == suffix;
  }

  /** `sub` occurs in `s` as a contiguous run (SQL LIKE '%sub%'). */
  predicate Contains(s: string, sub: string)
    decreases |s|
  {
    StartsWith(s, sub) || (s != [] && Contains(s[1..], sub))
  }

  /** `sub` occurs in `s` starting at position `k`. */
  predicate OccursAt(s: string, sub: string, k: int) {
    0 <= k <= |s| - |sub| && s[k..k + |sub|] == sub
  }

  /** Contains agrees with the positional definition of a substring, in both directions. */
  lemma {:induction false} ContainsAt(s: string, sub: string)
    ensures Contains(s, sub) <==> exists k :: OccursAt(s, sub, k)
  {
    if StartsWith(s, sub) {
      assert OccursAt(s, sub, 0);
    } else if s == [] {
    } else {
      ContainsAt(s[1..], sub);
      if Contains(s, sub) {
        var k :| OccursAt(s[1..], sub, k);
        assert s[k + 1..k + 1 + |sub|] == s[1..][k..k + |sub|];
        assert OccursAt(s, sub, k + 1);
      }
      if exists k :: OccursAt(s, sub, k) {
        var k :| OccursAt(s, sub, k);
        assert k != 0;
        assert s[1..][k - 1..k - 1 + |sub|] == s[k..k + |sub|];
        assert OccursAt(s[1..], sub, k - 1);
      }
    }
  }

  /** Django's `__icontains` on the default database: an ASCII case-insensitive substring test. */
  predicate ContainsIgnoreCase(s: string, sub: string) {
    Contains(Lower(s), Lower(sub))
  }
}
