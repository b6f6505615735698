/**
 * The string operations the price machine relies on: `str.lower`, the
 * substring test `a in b` and `str.endswith`.
 *
 * Lowercasing is modelled character by character over the two scripts the
 * price lists use: ASCII Latin and the Cyrillic capitals U+0400..U+042F
 * (Ѐ..Џ map 80 code points up, А..Я map 32 up, as Unicode's simple case
 * mapping does). Every other character is left as it is.
 */
module Text {

  /** Characters that `LowerChar` changes. */
  predicate IsUpper(c: char) {
    ('A' <= c <= 'Z') || ('\U{0400}' <= c <= '\U{042F}')
  }

  /** Lowercase one character. */
  function LowerChar(c: char): (d: char)
    ensures !IsUpper(d)
    ensures !IsUpper(c) ==> d == c
    ensures IsUpper(c) ==> d != c
  {
    if 'A' <= c <= 'Z' then (c as int + 0x20) as char
    else if '\U{0400}' <= c <= '\U{040F}' then (c as int + 0x50) as char
    else if '\U{0410}' <= c <= '\U{042F}' then (c as int + 0x20) as char
    else c
  }

  /** `s.lower()`: lowercase every character, keeping the length. */
  function Lower(s: string): (r: string)
    ensures |r| == |s|
    ensures forall i :: 0 <= i < |s| ==> r[i] == LowerChar(s[i])
  {
    if s == [] then [] else [LowerChar(s[0])] + Lower(s[1..])
  }

  /** A string without upper-case characters is its own lowercase form. */
  lemma LowerOfLowercase(s: string)
    requires forall i :: 0 <= i < |s| ==> !IsUpper(s[i])
    ensures Lower(s) == s
  {
  }

  /** Lowercasing twice is lowercasing once. */
  lemma LowerIdempotent(s: string)
    ensures Lower(Lower(s)) == Lower(s)
  {
    LowerOfLowercase(Lower(s));
  }

  /** `t in s` for strings: `t` occurs in `s` at some position. */
  function IsSubstring(t: string, s: string): (r: bool)
    ensures r ==> |t| <= |s|
    ensures t == [] ==> r
  {
    t <= s || (s != [] && IsSubstring(t, s[1..]))
  }

  /** `t` occurs in `s` starting at index `i`. */
  predicate OccursAt(t: string, s: string, i: nat) {
    i + |t| <= |s| && s[i..i + |t|] == t
  }

  /** `IsSubstring` holds exactly when `t` occurs at some index of `s`. */
  lemma {:induction false} IsSubstringAt(t: string, s: string)
    ensures IsSubstring(t, s) <==> exists i: nat :: OccursAt(t, s, i)
  {
    if t <= s {
      assert OccursAt(t, s, 0);
    } else if s == [] {
    } else {
      IsSubstringAt(t, s[1..]);
      if IsSubstring(t, s[1..]) {
        var i: nat :| OccursAt(t, s[1..], i);
        assert s[i + 1..i + 1 + |t|] == s[1..][i..i + |t|];
        assert OccursAt(t, s, i + 1);
      } else {
        forall i: nat
          ensures !OccursAt(t, s, i)
        {
          if i == 0 {
          } else if i + |t| <= |s| {
            assert s[i..i + |t|] == s[1..][i - 1..i - 1 + |t|];
            assert !OccursAt(t, s[1..], i - 1);
          }
        }
      }
    }
  }

  /** An occurrence at a known index is enough for `IsSubstring`. */
  lemma OccursIsSubstring(t: string, s: string, i: nat)
    requires OccursAt(t, s, i)
    ensures IsSubstring(t, s)
  {
    IsSubstringAt(t, s);
  }

  /** The empty string occurs in every string. */
  lemma EmptyIsSubstring(s: string)
    ensures IsSubstring("", s)
  {
  }

  /** `s.endswith(suffix)`, which compares characters exactly (no case folding). */
  predicate EndsWith(s: string, suffix: string): (r: bool)
    ensures r <==> |suffix| <= |s| && forall i :: 0 <= i < |suffix| ==> s[|s| - |suffix| + i] == suffix[i]
  {
    |suffix| <= |s| && s[|s| - |suffix|..] == suffix
  }
}
