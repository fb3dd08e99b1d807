/** C string primitives shared by the models: ASCII case folding and the
    bounded copies of strlcpy() and strlcat(). A C string is a `string`; the
    terminating NUL is the end of the sequence. */
module CStrings {

  /** A string as C can hold it. */
  type CString = s: string | '\0' !in s

  function LowerChar(c: char): char {
    if 'A' <= c <= 'Z' then (c as int + 32) as char else c
  }

  /** ngt_LowerStr() in the C locale. */
  function Lower(s: string): (r: string)
    ensures |r| == |s|
    ensures forall i :: 0 <= i < |s| ==> r[i] == LowerChar(s[i])
  {
    seq(|s|, i requires 0 <= i < |s| => LowerChar(s[i]))
  }

  /** strcasecmp(a, b) == 0 */
  predicate SameNoCase(a: string, b: string) {
    Lower(a) == Lower(b)
  }

  /** What strlcpy() leaves in a buffer of `size` bytes. */
  function Cut(s: string, size: nat): string
    requires size > 0
  {
    if |s| >= size then s[..size - 1] else s
  }

  /** What strlcat() leaves in a buffer of `size` bytes. */
  function CatCut(dst: string, src: string, size: nat): string
    requires |dst| < size
  {
    Cut(dst + src, size)
  }

  /** Cutting and folding commute with equality ignoring case. */
  lemma LowerCut(a: string, b: string, size: nat)
    requires SameNoCase(a, b) && size > 0
    ensures Lower(Cut(a, size)) == Lower(Cut(b, size))
  {
    var x, y := Lower(Cut(a, size)), Lower(Cut(b, size));
    assert |Lower(a)| == |Lower(b)|;
    forall i | 0 <= i < |x| ensures x[i] == y[i] {
      assert Lower(a)[i] == Lower(b)[i];
    }
  }

  /** Two characters are the same ignoring case if they are equal or the small and
      the capital form of one of the 26 letters. */
  lemma LowerMeans(c: char, d: char)
    ensures LowerChar(c) == LowerChar(d) <==>
            || c == d
            || ('A' <= c <= 'Z' && d as int == c as int + 32)
            || ('A' <= d <= 'Z' && c as int == d as int + 32)
  {}

  /** So are two strings, character by character. */
  lemma SameMeans(a: string, b: string)
    ensures SameNoCase(a, b) <==>
            |a| == |b| && forall i :: 0 <= i < |a| ==> LowerChar(a[i]) == LowerChar(b[i])
  {
    if SameNoCase(a, b) {
      assert |Lower(a)| == |Lower(b)|;
      forall i | 0 <= i < |a| ensures LowerChar(a[i]) == LowerChar(b[i]) { assert Lower(a)[i] == Lower(b)[i]; }
    }
  }
}
