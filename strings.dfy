/**
 * The .NET string operations the domain relies on: `String.Trim()`,
 * `String.IsNullOrEmpty` and the ordinal case-insensitive key comparison.
 */
module Strings {
  import opened Wrappers

  /** `Char.IsWhiteSpace`: the Unicode characters with the White_Space property. */
  predicate IsWhiteSpace(c: char) {
    ('\U{9}' <= c <= '\U{D}') || c == ' ' || c == '\U{85}' || c == '\U{A0}'
    || c == '\U{1680}' || ('\U{2000}' <= c <= '\U{200A}') || c == '\U{2028}'
    || c == '\U{2029}' || c == '\U{202F}' || c == '\U{205F}' || c == '\U{3000}'
  }

  predicate AllWhiteSpace(s: string) {
    forall i :: 0 <= i < |s| ==> IsWhiteSpace(s[i])
  }

  /** The string neither starts nor ends with white space. */
  predicate Trimmed(s: string) {
    |s| == 0 || (!IsWhiteSpace(s[0]) && !IsWhiteSpace(s[|s| - 1]))
  }

  /** `TrimStart()`: drops leading white space. */
  function TrimStart(s: string): string {
    if |s| > 0 && IsWhiteSpace(s[0]) then TrimStart(s[1..]) else s
  }

  /** What `TrimStart()` drops is white space, and what it keeps is a suffix that starts with something else. */
  lemma {:induction false} TrimStartSpec(s: string)
    ensures var r := TrimStart(s);
      |r| <= |s| && r == s[|s| - |r|..] && AllWhiteSpace(s[..|s| - |r|]) && (|r| == 0 || !IsWhiteSpace(r[0]))
  {
    if |s| > 0 && IsWhiteSpace(s[0]) {
      var t := s[1..];
      TrimStartSpec(t);
      var r := TrimStart(s);
      assert t[|t| - |r|..] == s[|s| - |r|..];
      var cut := s[..|s| - |r|];
      forall j | 0 <= j < |cut| ensures IsWhiteSpace(cut[j]) {
        if j > 0 {
          assert cut[j] == t[..|t| - |r|][j - 1];
        }
      }
    }
  }

  /** `TrimEnd()`: drops trailing white space. */
  function TrimEnd(s: string): string {
    if |s| > 0 && IsWhiteSpace(s[|s| - 1]) then TrimEnd(s[..|s| - 1]) else s
  }

  /** What `TrimEnd()` drops is white space, and what it keeps is a prefix that ends with something else. */
  lemma {:induction false} TrimEndSpec(s: string)
    ensures var r := TrimEnd(s);
      |r| <= |s| && r == s[..|r|] && AllWhiteSpace(s[|r|..]) && (|r| == 0 || !IsWhiteSpace(r[|r| - 1]))
  {
    if |s| > 0 && IsWhiteSpace(s[|s| - 1]) {
      var t := s[..|s| - 1];
      TrimEndSpec(t);
      var r := TrimEnd(s);
      assert t[..|r|] == s[..|r|];
      var cut := s[|r|..];
      forall j | 0 <= j < |cut| ensures IsWhiteSpace(cut[j]) {
        if j < |cut| - 1 {
          assert cut[j] == t[|r|..][j];
        }
      }
    }
  }

  /**
   * `Trim()`: `s` without its leading and its trailing white space.
   */
  function Trim(s: string): (r: string)
    ensures Trimmed(r)
  {
    TrimStartSpec(s);
    TrimEndSpec(TrimStart(s));
    var a := TrimStart(s);
    var r := TrimEnd(a);
    assert |r| > 0 ==> r[0] == a[0];
    r
  }

  /** What `Trim()` cuts off on either side is white space, and what it keeps is a middle part of `s`. */
  lemma TrimCutsWhiteSpace(s: string)
    ensures var r := Trim(s);
      exists i :: 0 <= i <= |s| - |r| && r == s[i..i + |r|] && AllWhiteSpace(s[..i]) && AllWhiteSpace(s[i + |r|..])
  {
    var a := TrimStart(s);
    var r := TrimEnd(a);
    TrimStartSpec(s);
    TrimEndSpec(a);
    var i := |s| - |a|;
    assert a == s[i..];
    assert s[i..i + |r|] == r;
    assert s[i + |r|..] == a[|r|..];
    assert Trim(s) == r;
    assert AllWhiteSpace(s[..i]) && AllWhiteSpace(s[i + |r|..]);
  }

  /** Trimming a string without leading or trailing white space gives it back. */
  lemma TrimTrimmed(s: string)
    requires Trimmed(s)
    ensures Trim(s) == s
  {
  }

  /** Trimming twice is trimming once. */
  lemma TrimIdempotent(s: string)
    ensures Trim(Trim(s)) == Trim(s)
  {
    TrimTrimmed(Trim(s));
  }

  /** `Trim()` gives the empty string exactly for a string made of white space only. */
  lemma TrimEmpty(s: string)
    ensures Trim(s) == "" <==> AllWhiteSpace(s)
  {
    TrimStartSpec(s);
    var r := Trim(s);
    TrimCutsWhiteSpace(s);
    if r == "" {
      var i :| 0 <= i <= |s| && AllWhiteSpace(s[..i]) && AllWhiteSpace(s[i..]);
      forall k | 0 <= k < |s| ensures IsWhiteSpace(s[k]) {
        if k < i { assert s[..i][k] == s[k]; } else { assert s[i..][k - i] == s[k]; }
      }
    }
  }

  /**
   * `String.Length`: the number of UTF-16 code units. A character outside
   * the Basic Multilingual Plane (code point 0x10000 or above) is stored as
   * a surrogate pair and counts twice.
   */
  function Utf16Length(s: string): (n: nat)
    ensures |s| <= n <= 2 * |s|
  {
    if |s| == 0 then 0 else Utf16Units(s[0]) + Utf16Length(s[1..])
  }

  function Utf16Units(c: char): nat {
    if c as int >= 0x1_0000 then 2 else 1
  }

  /** Every character lies in the Basic Multilingual Plane. */
  predicate InBmp(s: string) {
    forall i :: 0 <= i < |s| ==> s[i] as int < 0x1_0000
  }

  /** The length of a concatenation is the sum of the lengths. */
  lemma {:induction false} Utf16LengthAppend(a: string, b: string)
    ensures Utf16Length(a + b) == Utf16Length(a) + Utf16Length(b)
    decreases |a|
  {
    if |a| > 0 {
      assert (a + b)[0] == a[0] && (a + b)[1..] == a[1..] + b;
      Utf16LengthAppend(a[1..], b);
    } else {
      assert a + b == b;
    }
  }

  /** `Length` counts characters exactly when every character lies in the Basic Multilingual Plane. */
  lemma {:induction false} Utf16LengthBmp(s: string)
    ensures Utf16Length(s) == |s| <==> InBmp(s)
    decreases |s|
  {
    if |s| > 0 {
      Utf16LengthBmp(s[1..]);
      if InBmp(s) {
        assert InBmp(s[1..]) by {
          forall i | 0 <= i < |s[1..]| ensures s[1..][i] as int < 0x1_0000 {
            assert s[1..][i] == s[i + 1];
          }
        }
      }
      if Utf16Length(s) == |s| {
        assert Utf16Length(s[1..]) >= |s[1..]|;
        assert s[0] as int < 0x1_0000 && InBmp(s[1..]);
        forall i | 0 <= i < |s| ensures s[i] as int < 0x1_0000 {
          if i > 0 { assert s[i] == s[1..][i - 1]; }
        }
      }
    }
  }

  /** One character outside the Basic Multilingual Plane, such as an emoji, has length 2. */
  lemma EmojiLength()
    ensures Utf16Length("\U{1F335}") == 2
  {
    assert "\U{1F335}"[1..] == "";
  }

  /** `String.IsNullOrEmpty`. */
  predicate IsNullOrEmpty(s: Option<string>) {
    s.None? || s.value == ""
  }

  /** A `string?` argument defaulted with `?? ""`. */
  function OrEmpty(s: Option<string>): (r: string)
    ensures s.Some? ==> r == s.value
    ensures s.None? ==> r == ""
  {
    s.GetOr("")
  }

  /**
   * The key under which `StringComparer.OrdinalIgnoreCase` files a string,
   * for the ASCII letters: they are folded to upper case and every other
   * character is kept. .NET also upper-cases letters outside ASCII (é and
   * É, Greek, Cyrillic) by the invariant simple case mapping; that table is
   * not part of this model.
   */
  function FoldCase(s: string): (r: string)
    ensures |r| == |s|
    ensures forall i :: 0 <= i < |s| ==> r[i] == FoldChar(s[i])
  {
    if |s| == 0 then "" else [FoldChar(s[0])] + FoldCase(s[1..])
  }

  function FoldChar(c: char): char {
    if 'a' <= c <= 'z' then (c as int - 32) as char else c
  }

  /** Folding case twice is folding once, so the fold of a key is its own key. */
  lemma FoldCaseIdempotent(s: string)
    ensures FoldCase(FoldCase(s)) == FoldCase(s)
  {
  }

  /** Keys differing only in the case of ASCII letters fold alike. */
  lemma FoldCaseIgnoresCase(s: string, t: string)
    requires |s| == |t|
    requires forall i :: 0 <= i < |s| ==> s[i] == t[i] || FoldChar(s[i]) == t[i] || s[i] == FoldChar(t[i])
    ensures FoldCase(s) == FoldCase(t)
  {
    forall i | 0 <= i < |s| ensures FoldCase(s)[i] == FoldCase(t)[i] {
    }
  }
}
