/**
 String helpers the two ends share: ASCII case folding (names are treated as
 ASCII, section 3 of RFC 4343) and splitting on a separator.
 */
module Text {

  function LowerChar(c: char): char {
    if 'A' <= c <= 'Z' then (c as int + 32) as char else c
  }

  function ToLower(s: string): (r: string)
    ensures |r| == |s|
  {
    seq(|s|, i requires 0 <= i < |s| => LowerChar(s[i]))
  }

  /** One step of the fold comparison: equal, or an upper-case letter and its lower-case form. */
  predicate FoldEqualChar(a: char, b: char) {
    var lo, hi := if a < b then a else b, if a < b then b else a;
    lo == hi || ('A' <= lo <= 'Z' && hi as int == lo as int + 32)
  }

  predicate EqualFold(s: string, t: string) {
    |s| == |t| && forall i :: 0 <= i < |s| ==> FoldEqualChar(s[i], t[i])
  }

  /** Comparing two names case-insensitively is comparing their lower-case forms. */
  lemma EqualFoldIsEqualLower(s: string, t: string)
    ensures EqualFold(s, t) <==> ToLower(s) == ToLower(t)
  {
    if EqualFold(s, t) {
      assert ToLower(s) == ToLower(t);
    }
    if ToLower(s) == ToLower(t) {
      forall i | 0 <= i < |s| ensures FoldEqualChar(s[i], t[i]) {
        assert ToLower(s)[i] == ToLower(t)[i];
      }
    }
  }

  lemma FoldTransitive(s: string, t: string, u: string)
    requires EqualFold(s, t) && EqualFold(t, u)
    ensures EqualFold(s, u)
  {
    EqualFoldIsEqualLower(s, t);
    EqualFoldIsEqualLower(t, u);
    EqualFoldIsEqualLower(s, u);
  }

  lemma LowerIdempotent(s: string)
    ensures ToLower(ToLower(s)) == ToLower(s)
  {
  }

  function TrimSuffixChar(s: string, c: char): string {
    if |s| > 0 && s[|s| - 1] == c then s[..|s| - 1] else s
  }

  function TrimPrefixChar(s: string, c: char): string {
    if |s| > 0 && s[0] == c then s[1..] else s
  }

  function Split(s: string, sep: char): (parts: seq<string>)
    ensures |parts| >= 1
  {
    if s == "" then [""]
    else
      var rest := Split(s[1..], sep);
      if s[0] == sep then [""] + rest else [[s[0]] + rest[0]] + rest[1..]
  }

  /** A separator-free string is its own only part. */
  lemma {:induction false} SplitAtom(a: string, sep: char)
    requires sep !in a
    ensures Split(a, sep) == [a]
  {
    if a != "" {
      SplitAtom(a[1..], sep);
      assert [a[0]] + a[1..] == a;
    }
  }

  /** A separator-free prefix followed by the separator becomes the first part. */
  lemma {:induction false} SplitStep(a: string, sep: char, b: string)
    requires sep !in a
    ensures Split(a + [sep] + b, sep) == [a] + Split(b, sep)
  {
    var s := a + [sep] + b;
    if a == "" {
      assert s[1..] == b;
    } else {
      SplitStep(a[1..], sep, b);
      assert s[1..] == a[1..] + [sep] + b;
      assert [a[0]] + a[1..] == a;
    }
  }

  /** The first part is the text before the first separator; the rest splits on its own. */
  lemma {:induction false} SplitFirst(s: string, sep: char)
    ensures var parts := Split(s, sep);
      var n := |parts[0]|;
      && n <= |s| && parts[0] == s[..n] && sep !in parts[0]
      && (if |parts| == 1 then n == |s|
          else n < |s| && s[n] == sep && parts[1..] == Split(s[n + 1..], sep))
  {
    if s != "" && s[0] != sep {
      SplitFirst(s[1..], sep);
      var rest := Split(s[1..], sep);
      var n := |rest[0]|;
      assert [s[0]] + s[1..][..n] == s[..n + 1];
      if |rest| > 1 {
        assert s[1..][n + 1..] == s[n + 2..];
      }
    }
  }
}
