/**
 * The JavaScript string operations the components rely on, stated over
 * `seq<char>`: `toLowerCase` (ASCII letters only), `includes`, `trim`
 * and `substring`, following sections 22.1.3.8 (includes),
 * 22.1.3.25 (substring), 22.1.3.28 (toLowerCase) and 22.1.3.32 (trim)
 * of ECMA-262.
 */
module JsString {

  function Min(a: int, b: int): int { if a <= b then a else b }

  // ---------------------------------------------------------------------
  // toLowerCase
  // ---------------------------------------------------------------------

  predicate IsAsciiUpper(c: char) { 'A' <= c <= 'Z' }

  /** Lowercase of one character; anything but 'A'..'Z' is left alone. */
  function LowerChar(c: char): char
  {
    if IsAsciiUpper(c) then (c as int - 'A' as int + 'a' as int) as char else c
  }

  /** `s.toLowerCase()`, restricted to the ASCII letters. */
  function ToLower(s: string): (r: string)
    ensures |r| == |s|
    ensures forall i :: 0 <= i < |s| ==> r[i] == LowerChar(s[i])
  {
    if s == [] then [] else [LowerChar(s[0])] + ToLower(s[1..])
  }

  /** A lowercased string has no upper-case letter left. */
  lemma ToLowerHasNoUpper(s: string)
    ensures forall i :: 0 <= i < |s| ==> !IsAsciiUpper(ToLower(s)[i])
  {
  }

  /** Lowercasing twice is lowercasing once. */
  lemma ToLowerIdempotent(s: string)
    ensures ToLower(ToLower(s)) == ToLower(s)
  {
    var once := ToLower(s);
    assert forall i :: 0 <= i < |once| ==> LowerChar(once[i]) == once[i];
  }

  /** Lowercasing works character by character, so it distributes over `+`. */
  lemma ToLowerAppend(a: string, b: string)
    ensures ToLower(a + b) == ToLower(a) + ToLower(b)
  {
    assert forall i :: 0 <= i < |a + b| ==> ToLower(a + b)[i] == (ToLower(a) + ToLower(b))[i];
  }

  // ---------------------------------------------------------------------
  // includes
  // ---------------------------------------------------------------------

  predicate StartsWith(s: string, p: string) { |p| <= |s| && s[..|p|] == p }

  /** `p` occurs in `s` at position `i`: the reference meaning of `includes`. */
  ghost predicate OccursAt(s: string, p: string, i: int)
  {
    0 <= i && i + |p| <= |s| && s[i..i + |p|] == p
  }

  ghost predicate OccursIn(s: string, p: string)
  {
    exists i :: OccursAt(s, p, i)
  }

  /** `s.includes(p)`: a search from position 0 for the first occurrence. */
  function Includes(s: string, p: string): bool
    decreases |s|
  {
    if StartsWith(s, p) then true
    else if s == [] then false
    else Includes(s[1..], p)
  }

  /** The position-by-position search finds `p` exactly when `p` occurs somewhere in `s`. */
  lemma {:induction false} IncludesIffOccurs(s: string, p: string)
    ensures Includes(s, p) <==> OccursIn(s, p)
    decreases |s|
  {
    if StartsWith(s, p) {
      assert OccursAt(s, p, 0);
    } else if s == [] {
    } else {
      IncludesIffOccurs(s[1..], p);
      if OccursIn(s[1..], p) {
        var i :| OccursAt(s[1..], p, i);
        forall k | 0 <= k < |p| ensures s[i + 1 + k] == p[k] {
          assert s[1..][i + k] == p[k];
        }
        assert OccursAt(s, p, i + 1);
      }
      if OccursIn(s, p) {
        var i :| OccursAt(s, p, i);
        assert i != 0;
        assert s[1..][i - 1..i - 1 + |p|] == s[i..i + |p|];
        assert OccursAt(s[1..], p, i - 1);
      }
    }
  }

  /** Whatever surrounds it, a written-out `p` is found. */
  lemma IncludesInfix(before: string, p: string, after: string)
    ensures Includes(before + p + after, p)
  {
    var s := before + p + after;
    assert s[|before|..|before| + |p|] == p;
    assert OccursAt(s, p, |before|);
    IncludesIffOccurs(s, p);
  }

  /** `text` mentions `keyword` (given in lower case), ignoring the case of ASCII letters. */
  ghost predicate Mentions(text: string, keyword: string)
  {
    OccursIn(ToLower(text), keyword)
  }

  /** A keyword typed in any letter case anywhere in a text is mentioned. */
  lemma MentionsWrittenKeyword(before: string, word: string, after: string)
    ensures Mentions(before + word + after, ToLower(word))
  {
    ToLowerAppend(before + word, after);
    ToLowerAppend(before, word);
    IncludesInfix(ToLower(before), ToLower(word), ToLower(after));
    IncludesIffOccurs(ToLower(before + word + after), ToLower(word));
  }

  // ---------------------------------------------------------------------
  // trim
  // ---------------------------------------------------------------------

  /**
   * The WhiteSpace and LineTerminator code points of sections 12.2 and 12.3
   * of ECMA-262 (tab, vertical tab, form feed, space, no-break space,
   * byte order mark, the Zs separators, line feed, carriage return,
   * line and paragraph separators).
   */
  predicate IsTrimmable(c: char)
  {
    var n := c as int;
    n == 0x09 || n == 0x0B || n == 0x0C || n == 0x20 || n == 0xA0 || n == 0xFEFF ||
    n == 0x1680 || (0x2000 <= n <= 0x200A) || n == 0x202F || n == 0x205F || n == 0x3000 ||
    n == 0x0A || n == 0x0D || n == 0x2028 || n == 0x2029
  }

  /** Leading white space removed: `r` is a suffix of `s`, everything cut was white space, `r` starts with none. */
  function TrimStart(s: string): (r: string)
    ensures |r| <= |s| && r == s[|s| - |r|..]
    ensures forall i :: 0 <= i < |s| - |r| ==> IsTrimmable(s[i])
    ensures r != [] ==> !IsTrimmable(r[0])
  {
    if s != [] && IsTrimmable(s[0]) then TrimStart(s[1..]) else s
  }

  /** Trailing white space removed: `r` is a prefix of `s`, everything cut was white space, `r` ends with none. */
  function TrimEnd(s: string): (r: string)
    ensures |r| <= |s| && r == s[..|r|]
    ensures forall i :: |r| <= i < |s| ==> IsTrimmable(s[i])
    ensures r != [] ==> !IsTrimmable(r[|r| - 1])
  {
    if s != [] && IsTrimmable(s[|s| - 1]) then TrimEnd(s[..|s| - 1]) else s
  }

  /** `s.trim()`: no longer than `s`, and neither starting nor ending with white space. */
  function Trim(s: string): (r: string)
    ensures |r| <= |s|
    ensures r != [] ==> !IsTrimmable(r[0]) && !IsTrimmable(r[|r| - 1])
    ensures exists i, k :: 0 <= i <= k <= |s| && r == s[i..k] && IsBlank(s[..i]) && IsBlank(s[k..])
  {
    BlankEndsSlice(s, TrimStart(s), TrimEnd(TrimStart(s)));
    TrimEnd(TrimStart(s))
  }

  /**
   * A string that keeps a suffix `t` of `s` and then a prefix `r` of `t`,
   * cutting only white space each time, is a slice of `s` with blank ends.
   */
  lemma BlankEndsSlice(s: string, t: string, r: string)
    requires |t| <= |s| && t == s[|s| - |t|..]
    requires forall n :: 0 <= n < |s| - |t| ==> IsTrimmable(s[n])
    requires |r| <= |t| && r == t[..|r|]
    requires forall n :: |r| <= n < |t| ==> IsTrimmable(t[n])
    ensures exists i, k :: 0 <= i <= k <= |s| && r == s[i..k] && IsBlank(s[..i]) && IsBlank(s[k..])
  {
    var i, k := |s| - |t|, |s| - |t| + |r|;
    assert r == s[i..k];
    assert IsBlank(s[..i]) by {
      forall n | 0 <= n < i ensures IsTrimmable(s[..i][n]) {
        assert s[..i][n] == s[n];
      }
    }
    assert IsBlank(s[k..]) by {
      forall n | 0 <= n < |s| - k ensures IsTrimmable(s[k..][n]) {
        assert s[k..][n] == t[|r| + n];
      }
    }
  }

  /** Every character is white space (or there is none). */
  ghost predicate IsBlank(s: string)
  {
    forall i :: 0 <= i < |s| ==> IsTrimmable(s[i])
  }

  /** A string trims to "" exactly when every character of it is white space. */
  lemma TrimEmptyIffBlank(s: string)
    ensures Trim(s) == [] <==> IsBlank(s)
  {
    if Trim(s) != [] {
      var t := TrimStart(s);
      assert !IsTrimmable(s[|s| - |t|]);
    }
  }

  // ---------------------------------------------------------------------
  // substring
  // ---------------------------------------------------------------------

  /** An index argument clamped into `0..len`, as `substring` does after ToIntegerOrInfinity. */
  function Clamp(x: int, len: nat): (c: nat)
    ensures c <= len
    ensures 0 <= x <= len ==> c == x
    ensures x < 0 ==> c == 0
    ensures len < x ==> c == len
  {
    if x < 0 then 0 else if x > len then len else x
  }

  /**
   * `s.substring(start, end)`: both indices are clamped into `0..|s|` and,
   * if they come out in the wrong order, swapped.
   */
  function Substring(s: string, start: int, end: int): (r: string)
    ensures 0 <= start <= end <= |s| ==> r == s[start..end]
  {
    var from, to := Clamp(start, |s|), Clamp(end, |s|);
    if from <= to then s[from..to] else s[to..from]
  }

  /** `s.substring(start)`: the end defaults to the length of `s`. */
  function SubstringFrom(s: string, start: int): (r: string)
    ensures start <= 0 ==> r == s
    ensures 0 <= start <= |s| ==> r == s[start..]
    ensures |s| <= start ==> r == []
  {
    Substring(s, start, |s|)
  }

  /** The order of the two arguments of `substring` does not matter. */
  lemma SubstringSymmetric(s: string, a: int, b: int)
    ensures Substring(s, a, b) == Substring(s, b, a)
  {
  }

  /** Out-of-range arguments behave as the nearest end of `s`. */
  lemma SubstringClamps(s: string, a: int, b: int)
    ensures Substring(s, a, b) == Substring(s, Clamp(a, |s|), Clamp(b, |s|))
  {
  }

  /** `s.substring(0, n)` is the first min(n, |s|) characters. */
  lemma SubstringPrefix(s: string, n: int)
    requires 0 <= n
    ensures Substring(s, 0, n) == s[..Min(n, |s|)]
  {
  }

  /** `s.substring(|s| - n)` is the last min(n, |s|) characters. */
  lemma SubstringSuffix(s: string, n: int)
    requires 0 <= n
    ensures SubstringFrom(s, |s| - n) == s[|s| - Min(n, |s|)..]
  {
  }
}
