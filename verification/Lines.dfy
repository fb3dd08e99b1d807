/** The lines of a byte stream: the reference against which reading is judged. */
module Lines {
  import opened Buffer

  const CR: byte := 13
  const LF: byte := 10

  type Line = seq<byte>

  predicate Eol(b: byte) { b == CR || b == LF }

  /** The part of a buffer the C string functions can see. */
  function Visible(s: seq<byte>): (v: seq<byte>)
    ensures |v| <= |s| && v == s[..|v|] && 0 !in v
    ensures |v| < |s| ==> s[|v|] == 0
  {
    if s == [] || s[0] == 0 then [] else [s[0]] + Visible(s[1..])
  }

  /** Position of the first CR or LF, or the length. */
  function FirstEol(s: seq<byte>): (e: nat)
    ensures e <= |s| && (e < |s| ==> Eol(s[e])) && forall i :: 0 <= i < e ==> !Eol(s[i])
  {
    if s == [] || Eol(s[0]) then 0 else 1 + FirstEol(s[1..])
  }

  /** The non-empty lines of a stream: what stands between CRs and LFs, without
      what is not terminated yet. */
  function Of(s: seq<byte>): seq<Line> {
    var e := FirstEol(s);
    if e == |s| then [] else Kept(s[..e]) + Of(s[e + 1..])
  }

  /** Empty lines do not count. */
  function Kept(l: Line): seq<Line> { if l == [] then [] else [l] }

  /** Nothing is left unterminated. */
  predicate Complete(s: seq<byte>) { s == [] || Eol(s[|s| - 1]) }

  lemma {:induction false} FirstEolAppend(a: seq<byte>, b: seq<byte>)
    requires FirstEol(a) < |a|
    ensures FirstEol(a + b) == FirstEol(a)
  {
    if !Eol(a[0]) {
      assert (a + b)[1..] == a[1..] + b;
      FirstEolAppend(a[1..], b);
    }
  }

  /** The first line of a stream, whatever follows. */
  lemma OfStep(a: seq<byte>, b: seq<byte>)
    requires FirstEol(a) < |a|
    ensures var e := FirstEol(a);
            && Of(a) == Kept(a[..e]) + Of(a[e + 1..])
            && Of(a + b) == Kept(a[..e]) + Of(a[e + 1..] + b)
  {
    var e := FirstEol(a);
    FirstEolAppend(a, b);
    assert (a + b)[e + 1..] == a[e + 1..] + b;
    assert (a + b)[..e] == a[..e];
  }

  lemma Regroup(whole: seq<Line>, part: seq<Line>, x: seq<Line>, y: seq<Line>, z: seq<Line>)
    requires whole == x + (y + z) && part == x + y
    ensures whole == part + z
  {}

  lemma CompleteTail(a: seq<byte>)
    requires a != [] && Complete(a)
    ensures FirstEol(a) < |a| && Complete(a[FirstEol(a) + 1..])
  {}

  lemma OfNothing(b: seq<byte>)
    ensures Of([] + b) == Of([]) + Of(b)
  {
    assert [] + b == b;
    OfNoEol([]);
  }

  lemma OfAppendStep(a: seq<byte>, b: seq<byte>)
    requires FirstEol(a) < |a|
    requires var c := a[FirstEol(a) + 1..]; Of(c + b) == Of(c) + Of(b)
    ensures Of(a + b) == Of(a) + Of(b)
  {
    var e := FirstEol(a);
    OfStep(a, b);
    Regroup(Of(a + b), Of(a), Kept(a[..e]), Of(a[e + 1..]), Of(b));
  }

  /** Lines of complete data do not depend on what follows. */
  lemma {:induction false} OfAppend(a: seq<byte>, b: seq<byte>)
    requires Complete(a)
    ensures Of(a + b) == Of(a) + Of(b)
    decreases |a|
  {
    if a == [] {
      OfNothing(b);
    } else {
      CompleteTail(a);
      OfAppend(a[FirstEol(a) + 1..], b);
      OfAppendStep(a, b);
    }
  }

  /** Lines of a prefix are a prefix of the lines. */
  lemma {:induction false} OfPrefix(a: seq<byte>, b: seq<byte>)
    ensures Of(a) <= Of(a + b)
    decreases |a|
  {
    var e := FirstEol(a);
    if e < |a| {
      OfStep(a, b);
      OfPrefix(a[e + 1..], b);
      var head := Kept(a[..e]);
      var x, y := Of(a[e + 1..]), Of(a[e + 1..] + b);
      assert head + x <= head + y;
    }
  }

  lemma {:induction false} VisibleAppend(a: seq<byte>, b: seq<byte>)
    requires 0 !in a
    ensures Visible(a + b) == a + Visible(b)
  {
    if a == [] {
      assert a + b == b;
    } else {
      assert (a + b)[1..] == a[1..] + b;
      VisibleAppend(a[1..], b);
    }
  }

  /** How many bytes the end of line at `e` takes: two for CR LF. */
  function Delta(v: seq<byte>, e: nat): nat
    requires e < |v|
  {
    if v[e] == CR && e + 1 < |v| && v[e + 1] == LF then 2 else 1
  }

  lemma FirstEolIs(s: seq<byte>, e: nat)
    requires e < |s| && Eol(s[e]) && forall i :: 0 <= i < e ==> !Eol(s[i])
    ensures FirstEol(s) == e
  {}

  /** The LF of a pair ends an empty line. */
  lemma SkipLf(w: seq<byte>)
    requires w != [] && w[0] == LF
    ensures Of(w) == Of(w[1..])
  {
    FirstEolIs(w, 0);
    assert Kept(w[..0]) + Of(w[1..]) == Of(w[1..]);
  }

  /** The first line of `v` with its end of line, and what follows. */
  function FirstLine(v: seq<byte>): (l: seq<byte>)
    requires FirstEol(v) < |v|
    ensures |l| == FirstEol(v) + Delta(v, FirstEol(v)) <= |v| && l == v[..|l|] && Complete(l)
  {
    v[..FirstEol(v) + Delta(v, FirstEol(v))]
  }

  lemma OfNoEol(s: seq<byte>)
    requires FirstEol(s) == |s|
    ensures Of(s) == []
  {}

  lemma OfFirstLine(v: seq<byte>)
    requires FirstEol(v) < |v|
    ensures Of(FirstLine(v)) == Kept(v[..FirstEol(v)])
  {
    var e, l := FirstEol(v), FirstLine(v);
    FirstEolIs(l, e);
    assert l[..e] == v[..e];
    OfStep(l, []);
    var w := l[e + 1..];
    if w != [] {
      SkipLf(w);
      assert w[1..] == [];
    }
    OfNoEol([]);
  }

  // ------------------------------------------- strchr and strstr, as used

  /** `strchr`: first position of `b`, or -1. */
  function Find(v: seq<byte>, b: byte): (k: int)
    ensures -1 <= k < |v|
    ensures k >= 0 ==> v[k] == b && forall i :: 0 <= i < k ==> v[i] != b
    ensures k < 0 ==> b !in v
  {
    if v == [] then -1
    else if v[0] == b then 0
    else var k := Find(v[1..], b); if k < 0 then -1 else k + 1
  }

  /** `strstr(..., "\r\n")` */
  function FindCrLf(v: seq<byte>): (k: int)
    ensures -1 <= k < |v| - 1 || k == -1
    ensures k >= 0 ==> v[k] == CR && v[k + 1] == LF && forall i :: 0 <= i < k ==> !(v[i] == CR && v[i + 1] == LF)
    ensures k < 0 ==> forall i :: 0 <= i < |v| - 1 ==> !(v[i] == CR && v[i + 1] == LF)
  {
    if |v| < 2 then -1
    else if v[0] == CR && v[1] == LF then 0
    else var k := FindCrLf(v[1..]); if k < 0 then -1 else k + 1
  }

  /** The three searches of the read loop, combined as it does. */
  function EndOfLine(v: seq<byte>): (r: (int, nat)) {
    var ptr, ptr1, ptr2 := FindCrLf(v), Find(v, CR), Find(v, LF);
    if ptr >= 0 then
      var first := if ptr1 < ptr2 then ptr1 else ptr2;
      if first < ptr then (first, 1) else (ptr, 2)
    else if ptr1 >= 0 && ptr2 >= 0 then (if ptr1 < ptr2 then ptr1 else ptr2, 1)
    else (if ptr1 >= 0 then ptr1 else ptr2, 1)
  }

  /** They find the first end of line and its length. */
  lemma EndOfLineIsFirst(v: seq<byte>)
    ensures var (k, d) := EndOfLine(v); var e := FirstEol(v);
            if e == |v| then k < 0 else k == e && d == Delta(v, e)
  {
    var e := FirstEol(v);
    var ptr, ptr1, ptr2 := FindCrLf(v), Find(v, CR), Find(v, LF);
    if ptr1 >= 0 { assert Eol(v[ptr1]); }
    if ptr2 >= 0 { assert Eol(v[ptr2]); }
    if ptr >= 0 { assert v[ptr] in v && v[ptr + 1] in v; }
    if e < |v| { assert v[e] in v; }
  }
}
