/**
 * The java.lang.String operations the program relies on. A char here is a
 * Unicode scalar value, so CompareTo orders by scalar value where
 * String.compareTo orders by UTF-16 code unit; the two agree on text inside
 * the Basic Multilingual Plane.
 */
module JavaStrings {

  /** String.lastIndexOf(c): the last position holding c, or -1. */
  function LastIndexOf(s: string, c: char): (i: int)
    ensures -1 <= i < |s|
    ensures i >= 0 ==> s[i] == c
    ensures forall j :: i < j < |s| ==> s[j] != c
  {
    if s == [] then -1
    else if s[|s| - 1] == c then |s| - 1
    else LastIndexOf(s[..|s| - 1], c)
  }

  /** The contract of LastIndexOf determines the index. */
  lemma LastIndexOfUnique(s: string, c: char, i: int)
    requires -1 <= i < |s|
    requires i >= 0 ==> s[i] == c
    requires forall j :: i < j < |s| ==> s[j] != c
    ensures LastIndexOf(s, c) == i
  {
  }

  /** Character.toLowerCase on the ASCII range; other characters are left unchanged. */
  function LowerChar(c: char): char {
    if 'A' <= c <= 'Z' then (c as int + 32) as char else c
  }

  /** String.toLowerCase(Locale.ROOT), restricted to ASCII letters. */
  function ToLower(s: string): (r: string)
    ensures |r| == |s|
    ensures forall i :: 0 <= i < |s| ==> r[i] == LowerChar(s[i])
  {
    seq(|s|, i requires 0 <= i < |s| => LowerChar(s[i]))
  }

  /** Lower-casing keeps every '.' and '/' where it was. */
  lemma ToLowerKeepsSeparator(s: string, c: char)
    requires c == '.' || c == '/'
    ensures LastIndexOf(ToLower(s), c) == LastIndexOf(s, c)
  {
    LastIndexOfUnique(ToLower(s), c, LastIndexOf(s, c));
  }

  lemma ToLowerSlice(s: string, i: int)
    requires 0 <= i <= |s|
    ensures ToLower(s)[i..] == ToLower(s[i..]) && ToLower(s)[..i] == ToLower(s[..i])
  {
  }

  // ---- String.compareTo ------------------------------------------------------

  /**
   * String.compareTo: the difference of the first pair of differing chars,
   * or else the difference of the lengths.
   */
  function CompareTo(a: string, b: string): int
    decreases |a|
  {
    if a == [] || b == [] then |a| - |b|
    else if a[0] != b[0] then a[0] as int - b[0] as int
    else CompareTo(a[1..], b[1..])
  }

  /** compareTo is antisymmetric: swapping the arguments negates the result. */
  lemma {:induction false} CompareToAntisymmetric(a: string, b: string)
    ensures CompareTo(a, b) == -CompareTo(b, a)
    decreases |a|
  {
    if a != [] && b != [] && a[0] == b[0] {
      CompareToAntisymmetric(a[1..], b[1..]);
    }
  }

  /** compareTo returns 0 exactly on equal strings. */
  lemma {:induction false} CompareToZero(a: string, b: string)
    ensures CompareTo(a, b) == 0 <==> a == b
    decreases |a|
  {
    if a != [] && b != [] && a[0] == b[0] {
      CompareToZero(a[1..], b[1..]);
      assert a == [a[0]] + a[1..] && b == [b[0]] + b[1..];
    }
  }

  /** compareTo orders strings transitively. */
  lemma {:induction false} CompareToTransitive(a: string, b: string, c: string)
    requires CompareTo(a, b) < 0 && CompareTo(b, c) < 0
    ensures CompareTo(a, c) < 0
    decreases |a|
  {
    if a != [] && b != [] && c != [] && a[0] == b[0] && b[0] == c[0] {
      CompareToTransitive(a[1..], b[1..], c[1..]);
    }
  }

  /** The non-strict order of compareTo is transitive too. */
  lemma CompareToTransitiveLe(a: string, b: string, c: string)
    requires CompareTo(a, b) <= 0 && CompareTo(b, c) <= 0
    ensures CompareTo(a, c) <= 0
  {
    CompareToZero(a, b);
    CompareToZero(b, c);
    if CompareTo(a, b) < 0 && CompareTo(b, c) < 0 {
      CompareToTransitive(a, b, c);
    }
  }

  // ---- String.split --------------------------------------------------------

  /** Every piece of s between occurrences of sep, empty ones included. */
  function SplitAll(s: string, sep: char): (r: seq<string>)
    ensures |r| >= 1
    ensures forall i :: 0 <= i < |r| ==> sep !in r[i]
  {
    if s == [] then [""]
    else
      var rest := SplitAll(s[1..], sep);
      if s[0] == sep then [""] + rest else [[s[0]] + rest[0]] + rest[1..]
  }

  /** The list without its trailing empty strings. */
  function DropTrailingEmpty(parts: seq<string>): (r: seq<string>)
    ensures |r| <= |parts| && r == parts[..|r|]
    ensures r == [] || r[|r| - 1] != ""
    ensures forall i :: |r| <= i < |parts| ==> parts[i] == ""
  {
    if parts == [] || parts[|parts| - 1] != "" then parts
    else DropTrailingEmpty(parts[..|parts| - 1])
  }

  /**
   * String.split(String.valueOf(sep)) with limit 0: the input itself when sep
   * does not occur, otherwise the pieces with trailing empty strings removed.
   */
  function Split(s: string, sep: char): seq<string> {
    if sep !in s then [s] else DropTrailingEmpty(SplitAll(s, sep))
  }

  lemma {:induction false} SplitAllNoSeparator(a: string, sep: char)
    requires sep !in a
    ensures SplitAll(a, sep) == [a]
  {
    if a != [] {
      SplitAllNoSeparator(a[1..], sep);
      assert a == [a[0]] + a[1..];
    }
  }

  /** A separator-free piece followed by a separator splits off as one part. */
  lemma {:induction false} SplitAllPiece(a: string, sep: char, b: string)
    requires sep !in a
    ensures SplitAll(a + [sep] + b, sep) == [a] + SplitAll(b, sep)
  {
    if a == [] {
      assert a + [sep] + b == [sep] + b;
      assert ([sep] + b)[1..] == b;
    } else {
      SplitAllPiece(a[1..], sep, b);
      assert (a + [sep] + b)[1..] == a[1..] + [sep] + b;
      assert [a[0]] + a[1..] == a;
    }
  }

  /** Dropping trailing empty strings keeps a prefix that ends with a non-empty string. */
  lemma DropTrailingEmptyKeepsPrefix(p: seq<string>, q: seq<string>)
    requires p != [] && p[|p| - 1] != ""
    ensures DropTrailingEmpty(p + q) == p + DropTrailingEmpty(q)
    decreases |q|
  {
    if q != [] && q[|q| - 1] == "" {
      assert (p + q)[..|p + q| - 1] == p + q[..|q| - 1];
      DropTrailingEmptyKeepsPrefix(p, q[..|q| - 1]);
    } else if q == [] {
      assert p + q == p;
    }
  }
}
