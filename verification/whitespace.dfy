/** Python's `str.strip()` with no argument: leading and trailing whitespace removed. */
module Whitespace {

  /**
    The characters `str.isspace` accepts, which `str.strip()` removes:
    U+0009..U+000D, U+001C..U+0020, U+0085, U+00A0, U+1680, U+2000..U+200A,
    U+2028, U+2029, U+202F, U+205F and U+3000.
   */
  predicate IsSpace(c: char) {
    || ('\t' <= c <= '\r')
    || ('\U{1C}' <= c <= ' ')
    || c == '\U{85}' || c == '\U{A0}' || c == '\U{1680}'
    || ('\U{2000}' <= c <= '\U{200A}')
    || c == '\U{2028}' || c == '\U{2029}' || c == '\U{202F}' || c == '\U{205F}' || c == '\U{3000}'
  }

  predicate AllSpace(s: string) {
    forall k :: 0 <= k < |s| ==> IsSpace(s[k])
  }

  /** Neither end of `s` is whitespace. */
  predicate Trimmed(s: string) {
    |s| == 0 || (!IsSpace(s[0]) && !IsSpace(s[|s| - 1]))
  }

  /**
    `r` is `s` with its whitespace ends cut off: a contiguous piece of `s`,
    everything outside it whitespace, and its own ends not whitespace.
   */
  ghost predicate IsStripOf(r: string, s: string) {
    exists i, j :: 0 <= i <= j <= |s| && r == s[i..j] && Trimmed(r)
      && AllSpace(s[..i]) && AllSpace(s[j..])
  }

  /** The number of whitespace characters `s` starts with. */
  function LeadingSpaces(s: string): (n: nat)
    ensures n <= |s|
    ensures AllSpace(s[..n])
    ensures n < |s| ==> !IsSpace(s[n])
  {
    if |s| == 0 || !IsSpace(s[0]) then 0
    else
      var n := 1 + LeadingSpaces(s[1..]);
      assert s[..n] == [s[0]] + s[1..][..n - 1];
      n
  }

  /** Where the whitespace `s` ends with begins. */
  function TrailingSpacesStart(s: string): (n: nat)
    ensures n <= |s|
    ensures AllSpace(s[n..])
    ensures 0 < n ==> !IsSpace(s[n - 1])
  {
    if |s| == 0 || !IsSpace(s[|s| - 1]) then |s|
    else
      var n := TrailingSpacesStart(s[..|s| - 1]);
      assert s[n..] == s[..|s| - 1][n..] + [s[|s| - 1]];
      n
  }

  /** `s.strip()`: strip the left end, then the right end. */
  function Strip(s: string): (r: string)
    ensures IsStripOf(r, s)
  {
    var left := s[LeadingSpaces(s)..];
    StripCut(s);
    left[..TrailingSpacesStart(left)]
  }

  /** Where the two cuts of Strip fall: the stripped text is `s[i..j]`. */
  function CutEnd(s: string): (j: nat)
    ensures LeadingSpaces(s) <= j <= |s|
  {
    LeadingSpaces(s) + TrailingSpacesStart(s[LeadingSpaces(s)..])
  }

  /** The two cuts of Strip leave a trimmed piece of `s` between whitespace ends. */
  lemma StripCut(s: string)
    ensures var i := LeadingSpaces(s);
      var left := s[i..];
      && left[..TrailingSpacesStart(left)] == s[i..CutEnd(s)]
      && Trimmed(s[i..CutEnd(s)])
      && AllSpace(s[..i]) && AllSpace(s[CutEnd(s)..])
  {
    var i := LeadingSpaces(s);
    var left := s[i..];
    var j := TrailingSpacesStart(left);
    var r := left[..j];
    assert r == s[i..i + j];
    assert s[i + j..] == left[j..];
    if j == 0 {
      assert s[..i + j] == s[..i];
      assert r == s[i + j..i + j];
    }
  }

  /** There is only one way to strip a string. */
  lemma StripUnique(r1: string, r2: string, s: string)
    requires IsStripOf(r1, s) && IsStripOf(r2, s)
    ensures r1 == r2
  {
    var i1, j1 :| 0 <= i1 <= j1 <= |s| && r1 == s[i1..j1] && Trimmed(r1) && AllSpace(s[..i1]) && AllSpace(s[j1..]);
    var i2, j2 :| 0 <= i2 <= j2 <= |s| && r2 == s[i2..j2] && Trimmed(r2) && AllSpace(s[..i2]) && AllSpace(s[j2..]);
    SameCut(s, i1, j1, i2, j2);
  }

  /** Two cuts that both leave trimmed text between whitespace ends cut out the same text. */
  lemma SameCut(s: string, i1: nat, j1: nat, i2: nat, j2: nat)
    requires i1 <= j1 <= |s| && i2 <= j2 <= |s|
    requires Trimmed(s[i1..j1]) && Trimmed(s[i2..j2])
    requires AllSpace(s[..i1]) && AllSpace(s[j1..]) && AllSpace(s[..i2]) && AllSpace(s[j2..])
    ensures s[i1..j1] == s[i2..j2]
  {
    SpaceBefore(s, i1);
    SpaceBefore(s, i2);
    SpaceFrom(s, j1);
    SpaceFrom(s, j2);
    assert i1 < j1 ==> s[i1..j1][0] == s[i1] && s[i1..j1][j1 - i1 - 1] == s[j1 - 1];
    assert i2 < j2 ==> s[i2..j2][0] == s[i2] && s[i2..j2][j2 - i2 - 1] == s[j2 - 1];
    assert i1 < j1 <==> i2 < j2;
  }

  lemma SpaceBefore(s: string, i: nat)
    requires i <= |s| && AllSpace(s[..i])
    ensures forall k :: 0 <= k < i ==> IsSpace(s[k])
  {
    assert forall k :: 0 <= k < i ==> s[..i][k] == s[k];
  }

  lemma SpaceFrom(s: string, j: nat)
    requires j <= |s| && AllSpace(s[j..])
    ensures forall k :: j <= k < |s| ==> IsSpace(s[k])
  {
    assert forall k :: j <= k < |s| ==> s[j..][k - j] == s[k];
  }

  /** Whitespace around an already trimmed string is exactly what strip removes. */
  lemma StripOfPadded(pre: string, r: string, post: string)
    requires AllSpace(pre) && AllSpace(post) && Trimmed(r)
    ensures Strip(pre + r + post) == r
  {
    var s := pre + r + post;
    assert r == s[|pre|..|pre| + |r|];
    assert s[..|pre|] == pre;
    assert s[|pre| + |r|..] == post;
    StripUnique(Strip(s), r, s);
  }

  /** The stripped text keeps its interior and loses only whitespace at its ends. */
  lemma StripShape(s: string)
    ensures Trimmed(Strip(s))
    ensures exists pre, post :: AllSpace(pre) && AllSpace(post) && s == pre + Strip(s) + post
  {
    var i, j := LeadingSpaces(s), CutEnd(s);
    StripCut(s);
    var pre, post := s[..i], s[j..];
    assert s == pre + s[i..j] + post;
    assert AllSpace(pre) && AllSpace(post) && s == pre + Strip(s) + post;
  }

  /** Stripping twice is stripping once. */
  lemma StripIdempotent(s: string)
    ensures Strip(Strip(s)) == Strip(s)
  {
    var r := Strip(s);
    StripShape(s);
    StripOfPadded("", r, "");
    assert "" + r + "" == r;
  }

  /** A string of whitespace only strips to the empty string. */
  lemma StripAllSpace(s: string)
    requires AllSpace(s)
    ensures Strip(s) == ""
  {
    StripOfPadded(s, "", "");
    assert s + "" + "" == s;
  }

  lemma ExampleStrip()
    ensures Strip("  hello world  \n") == "hello world"
  {
    StripOfPadded("  ", "hello world", "  \n");
    assert "  " + "hello world" + "  \n" == "  hello world  \n";
  }
}
