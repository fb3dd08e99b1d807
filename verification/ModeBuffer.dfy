/** The mode strings of channels, members and clients as they are kept: a
    NUL-terminated buffer that is appended to and shifted in place. */
module ModeBuffer {
  import opened Defines
  import opened ChannelMode

  /** The C string in a buffer: everything before the first NUL. */
  function CStr(s: seq<char>): (r: string)
    ensures |r| <= |s| && r == s[..|r|] && '\0' !in r
    ensures |r| < |s| ==> s[|r|] == '\0'
  {
    if s == [] || s[0] == '\0' then [] else [s[0]] + CStr(s[1..])
  }

  ghost predicate Terminated(s: seq<char>) { |CStr(s)| < |s| }

  /** A buffer holds the string `m` if `m` is followed by a NUL. */
  lemma {:induction false} CStrIs(s: seq<char>, m: string)
    requires |m| < |s| && s[..|m|] == m && s[|m|] == '\0' && '\0' !in m
    ensures CStr(s) == m
  {
    if m != [] {
      assert s[0] == m[0] && m[0] in m;
      assert s[1..][..|m| - 1] == m[1..];
      CStrIs(s[1..], m[1..]);
    }
  }

  lemma {:induction false} WithoutAt(m: string, c: char, k: nat)
    requires k < |m| && m[k] == c && c !in m[..k]
    ensures WithoutMode(m, c) == m[..k] + m[k + 1..]
  {
    if k > 0 {
      assert m[0] in m[..k];
      assert m[1..][..k - 1] == m[..k][1..];
      WithoutAt(m[1..], c, k - 1);
      assert m[..k] + m[k + 1..] == [m[0]] + (m[1..][..k - 1] + m[1..][k..]);
    } else {
      assert m[..0] + m[1..] == m[1..];
    }
  }

  /** `strchr`: first position of `c` in the string, or its length. */
  method Find(buf: array<char>, c: char) returns (k: nat)
    requires Terminated(buf[..]) && c != '\0'
    ensures var m := CStr(buf[..]); k <= |m| && c !in m[..k] && (k < |m| ==> m[k] == c)
    ensures (k < |CStr(buf[..])|) == (c in CStr(buf[..]))
  {
    ghost var m := CStr(buf[..]);
    k := 0;
    while buf[k] != '\0' && buf[k] != c
      invariant k <= |m| && c !in m[..k]
      decreases |m| - k
    {
      assert m[k] == buf[k];
      assert m[..k + 1] == m[..k] + [m[k]];
      k := k + 1;
    }
    if k < |m| { assert m[k] == buf[k]; } else { assert m[..k] == m; }
  }

  /** Appending a mode that is not set yet; the last byte stays NUL. */
  method ModeAdd(buf: array<char>, c: char) returns (added: bool)
    requires buf.Length == CHANNEL_MODE_LEN && Terminated(buf[..]) && c != '\0'
    modifies buf
    ensures Terminated(buf[..]) && CStr(buf[..]) == WithMode(old(CStr(buf[..])), c)
    ensures added == (c !in old(CStr(buf[..])))
  {
    ghost var m := CStr(buf[..]);
    var k := Find(buf, c);
    if buf[k] == c {
      assert m[k] == c;
      return false;
    }
    assert k == |m|;
    if k < buf.Length - 1 {
      buf[k], buf[k + 1] := c, '\0';
      assert buf[..][..k + 1] == m + [c];
      CStrIs(buf[..], m + [c]);
    }
    return true;
  }

  /** The string after everything behind k has moved down by one. */
  lemma ShiftedDown(now: seq<char>, m: string, k: nat)
    requires k < |m| < |now| && '\0' !in m
    requires forall i :: 0 <= i < k ==> now[i] == m[i]
    requires forall i :: k <= i < |m| - 1 ==> now[i] == m[i + 1]
    ensures var r := m[..k] + m[k + 1..]; now[..|r|] == r && '\0' !in r
  {
    var r := m[..k] + m[k + 1..];
    forall i | 0 <= i < |r| ensures now[..|r|][i] == r[i] {
      assert r[i] == if i < k then m[i] else m[i + 1];
    }
    assert forall c :: c in r ==> c in m;
  }

  /** The loop that moves the string behind k, with its NUL, one byte down. */
  method ShiftDown(buf: array<char>, k: nat)
    requires Terminated(buf[..]) && k < |CStr(buf[..])|
    modifies buf
    ensures var m := old(CStr(buf[..])); var r := m[..k] + m[k + 1..];
            |m| < buf.Length && buf[..][..|r|] == r && '\0' !in r && buf[|r|] == '\0'
  {
    ghost var was, m := buf[..], CStr(buf[..]);
    var p := k;
    while buf[p] != '\0'
      invariant k <= p <= |m|
      invariant forall i :: 0 <= i < k ==> buf[i] == was[i]
      invariant forall i :: k <= i < p ==> buf[i] == was[i + 1]
      invariant forall i :: p <= i < buf.Length ==> buf[i] == was[i]
      decreases |m| - p
    {
      buf[p] := buf[p + 1];
      p := p + 1;
    }
    assert forall i :: 0 <= i < |m| ==> was[i] == m[i];
    ShiftedDown(buf[..], m, k);
  }

  /** Removing a mode by moving the rest of the string one byte down. */
  method ModeDel(buf: array<char>, c: char) returns (removed: bool)
    requires Terminated(buf[..]) && c != '\0'
    modifies buf
    ensures Terminated(buf[..]) && CStr(buf[..]) == WithoutMode(old(CStr(buf[..])), c)
    ensures removed == (c in old(CStr(buf[..])))
  {
    ghost var m := CStr(buf[..]);
    var k := Find(buf, c);
    if buf[k] != c {
      WithoutAbsent(m, c);
      return false;
    }
    WithoutAt(m, c, k);
    ShiftDown(buf, k);
    CStrIs(buf[..], m[..k] + m[k + 1..]);
    return true;
  }
}
