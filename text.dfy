/**
 * The string operations the services apply to e-mail addresses:
 * `String.ToLower`, `String.Trim`, ordinal `String.Contains` and
 * `Uri.UnescapeDataString`.
 */
module Text {

  /** `char.IsWhiteSpace`: the characters `String.Trim` removes. */
  predicate IsWhiteSpace(c: char)
  {
    || c == ' ' || ('\t' <= c <= '\r')
    || c == '\U{85}' || c == '\U{A0}' || c == '\U{1680}'
    || ('\U{2000}' <= c <= '\U{200A}')
    || c == '\U{2028}' || c == '\U{2029}' || c == '\U{202F}' || c == '\U{205F}' || c == '\U{3000}'
  }

  predicate IsUpper(c: char)
  {
    'A' <= c <= 'Z'
  }

  /** Lower-casing of one character; only the ASCII letters are mapped. */
  function LowerChar(c: char): (d: char)
    ensures !IsUpper(d)
    ensures IsWhiteSpace(d) == IsWhiteSpace(c)
    ensures !IsUpper(c) ==> d == c
  {
    if IsUpper(c) then (c as int + 32) as char else c
  }

  /** Two strings of one length with whitespace at the same positions. */
  predicate SameWhiteSpace(s: string, l: string)
  {
    |s| == |l| && forall k :: 0 <= k < |s| ==> IsWhiteSpace(s[k]) == IsWhiteSpace(l[k])
  }

  /** `String.ToLower`. */
  function ToLower(s: string): (r: string)
    ensures |r| == |s|
  {
    seq(|s|, i requires 0 <= i < |s| => LowerChar(s[i]))
  }

  /**
   * What `ToLower` promises: no capital letter is left, each capital becomes
   * its small letter, and every other character (whitespace included) stays put.
   */
  lemma ToLowerSpec(s: string)
    ensures SameWhiteSpace(s, ToLower(s))
    ensures forall i :: 0 <= i < |s| ==> !IsUpper(ToLower(s)[i])
    ensures forall i :: 0 <= i < |s| && IsUpper(s[i]) ==> ToLower(s)[i] as int == s[i] as int + 32
    ensures forall i :: 0 <= i < |s| && !IsUpper(s[i]) ==> ToLower(s)[i] == s[i]
  {
  }

  /** Lower-casing twice is lower-casing once. */
  lemma ToLowerIdempotent(s: string)
    ensures ToLower(ToLower(s)) == ToLower(s)
  {
    var t := ToLower(s);
    assert forall i :: 0 <= i < |t| ==> ToLower(t)[i] == t[i];
  }

  /** The first index at or after `i` that holds no whitespace, or `|s|`. */
  function SkipWhiteSpace(s: string, i: nat): (j: nat)
    requires i <= |s|
    ensures i <= j <= |s|
    ensures forall k :: i <= k < j ==> IsWhiteSpace(s[k])
    ensures j < |s| ==> !IsWhiteSpace(s[j])
    decreases |s| - i
  {
    if i < |s| && IsWhiteSpace(s[i]) then SkipWhiteSpace(s, i + 1) else i
  }

  /** Scanning back from `hi` to no lower than `lo`: the end of the last non-whitespace character, or `lo`. */
  function SkipWhiteSpaceBack(s: string, lo: nat, hi: nat): (e: nat)
    requires lo <= hi <= |s|
    ensures lo <= e <= hi
    ensures forall k :: e <= k < hi ==> IsWhiteSpace(s[k])
    ensures e > lo ==> !IsWhiteSpace(s[e - 1])
    decreases hi
  {
    if hi > lo && IsWhiteSpace(s[hi - 1]) then SkipWhiteSpaceBack(s, lo, hi - 1) else hi
  }

  /** `String.Trim`: `s` without its leading and trailing whitespace. */
  function Trim(s: string): (r: string)
  {
    var start := SkipWhiteSpace(s, 0);
    s[start..SkipWhiteSpaceBack(s, start, |s|)]
  }

  /** `Trim` keeps a contiguous part of `s`, drops only whitespace, and leaves no whitespace at either end. */
  lemma TrimSpec(s: string)
    ensures exists i, j :: (0 <= i <= j <= |s| && Trim(s) == s[i..j]
                            && (forall k :: 0 <= k < i ==> IsWhiteSpace(s[k]))
                            && (forall k :: j <= k < |s| ==> IsWhiteSpace(s[k])))
    ensures Trim(s) != [] ==> !IsWhiteSpace(Trim(s)[0]) && !IsWhiteSpace(Trim(s)[|Trim(s)| - 1])
  {
    var start := SkipWhiteSpace(s, 0);
    var end := SkipWhiteSpaceBack(s, start, |s|);
    assert Trim(s) == s[start..end];
  }

  /** A string without whitespace at either end is its own trim. */
  lemma TrimOfTrimmed(s: string)
    requires s != [] ==> !IsWhiteSpace(s[0]) && !IsWhiteSpace(s[|s| - 1])
    ensures Trim(s) == s
  {
    assert s[0..|s|] == s;
  }

  /** Trimming twice is trimming once. */
  lemma TrimIdempotent(s: string)
    ensures Trim(Trim(s)) == Trim(s)
  {
    TrimSpec(s);
    TrimOfTrimmed(Trim(s));
  }

  /** Both scans depend only on where the whitespace is. */
  lemma {:induction false} SkipAgrees(s: string, l: string, i: nat)
    requires SameWhiteSpace(s, l) && i <= |s|
    ensures SkipWhiteSpace(l, i) == SkipWhiteSpace(s, i)
    decreases |s| - i
  {
    if i < |s| {
      assert IsWhiteSpace(s[i]) == IsWhiteSpace(l[i]);
      SkipAgrees(s, l, i + 1);
    }
  }

  lemma {:induction false} SkipBackAgrees(s: string, l: string, lo: nat, hi: nat)
    requires SameWhiteSpace(s, l) && lo <= hi <= |s|
    ensures SkipWhiteSpaceBack(l, lo, hi) == SkipWhiteSpaceBack(s, lo, hi)
    decreases hi
  {
    if hi > lo {
      assert IsWhiteSpace(s[hi - 1]) == IsWhiteSpace(l[hi - 1]);
      SkipBackAgrees(s, l, lo, hi - 1);
    }
  }

  /** `Trim` and `ToLower` commute, because lower-casing maps whitespace to whitespace. */
  lemma TrimToLowerCommute(s: string)
    ensures Trim(ToLower(s)) == ToLower(Trim(s))
  {
    var l := ToLower(s);
    ToLowerSpec(s);
    var start := SkipWhiteSpace(s, 0);
    SkipAgrees(s, l, 0);
    SkipBackAgrees(s, l, start, |s|);
    ToLowerSlice(s, start, SkipWhiteSpaceBack(s, start, |s|));
  }

  /** Lower-casing commutes with taking a slice. */
  lemma ToLowerSlice(s: string, i: nat, j: nat)
    requires i <= j <= |s|
    ensures ToLower(s[i..j]) == ToLower(s)[i..j]
  {
    forall k | 0 <= k < j - i ensures ToLower(s[i..j])[k] == ToLower(s)[i..j][k] {
      assert s[i..j][k] == s[i + k];
    }
  }

  /** `sub` occurs in `s` starting at index `i`. */
  predicate OccursAt(s: string, sub: string, i: nat)
  {
    i + |sub| <= |s| && s[i..i + |sub|] == sub
  }

  /** Ordinal `String.Contains`: `sub` occurs in `s` at some position. */
  function Contains(s: string, sub: string): (b: bool)
    ensures b <==> exists i: nat :: OccursAt(s, sub, i)
    decreases |s|
  {
    if |sub| > |s| then false
    else if s[..|sub|] == sub then
      assert OccursAt(s, sub, 0);
      true
    else
      var rest := Contains(s[1..], sub);
      assert !OccursAt(s, sub, 0);
      assert forall i: nat :: OccursAt(s[1..], sub, i) <==> OccursAt(s, sub, i + 1) by {
        forall i: nat ensures OccursAt(s[1..], sub, i) <==> OccursAt(s, sub, i + 1) {
          if i + |sub| <= |s[1..]| {
            assert s[1..][i..i + |sub|] == s[i + 1..i + 1 + |sub|];
          }
        }
      }
      assert (exists i: nat :: OccursAt(s, sub, i)) ==> exists i: nat :: OccursAt(s[1..], sub, i) by {
        if exists i: nat :: OccursAt(s, sub, i) {
          var i: nat :| OccursAt(s, sub, i);
          assert i != 0;
          assert OccursAt(s[1..], sub, i - 1);
        }
      }
      rest
  }

  predicate IsHexDigit(c: char)
  {
    ('0' <= c <= '9') || ('A' <= c <= 'F') || ('a' <= c <= 'f')
  }

  function HexValue(c: char): (v: nat)
    requires IsHexDigit(c)
    ensures v < 16
  {
    if '0' <= c <= '9' then c as int - '0' as int
    else if 'A' <= c <= 'F' then c as int - 'A' as int + 10
    else c as int - 'a' as int + 10
  }

  /**
   * `Uri.UnescapeDataString`, in one left-to-right pass: each `%XX` whose
   * value is an ASCII character becomes that character; every other
   * character, and every `%` that does not start such an escape, is kept.
   */
  function Unescape(s: string): (r: string)
    ensures |r| <= |s|
    decreases |s|
  {
    if s == [] then []
    else if |s| >= 3 && s[0] == '%' && IsHexDigit(s[1]) && IsHexDigit(s[2])
            && HexValue(s[1]) * 16 + HexValue(s[2]) < 0x80 then
      [(HexValue(s[1]) * 16 + HexValue(s[2])) as char] + Unescape(s[3..])
    else
      [s[0]] + Unescape(s[1..])
  }

  /** Text without a `%` is not changed by unescaping. */
  lemma {:induction false} UnescapeWithoutPercent(s: string)
    requires '%' !in s
    ensures Unescape(s) == s
  {
    if s != [] {
      assert '%' !in s[1..];
      UnescapeWithoutPercent(s[1..]);
    }
  }
}
