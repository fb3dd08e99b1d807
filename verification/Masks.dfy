/** Masks of the ban, exception and invite lists. */
module Masks {
  import opened Defines
  import opened CStrings

  function IndexOf(s: string, c: char): (k: int)
    ensures -1 <= k < |s|
    ensures k >= 0 ==> s[k] == c && c !in s[..k]
    ensures k < 0 ==> c !in s
  {
    if s == [] then -1
    else if s[0] == c then 0
    else var k := IndexOf(s[1..], c); if k < 0 then -1 else k + 1
  }

  /** `Lists_MakeMask` for a buffer of MASK_LEN bytes. */
  function MakeMask(p: string): (m: string)
    ensures |m| < MASK_LEN
  {
    var at := IndexOf(p, '@');
    var e := IndexOf(p, '!');
    var excl := if 0 <= at < e then -1 else e;
    if at < 0 && excl < 0 then CatCut(Cut(p, MASK_LEN - 5), "!*@*", MASK_LEN)
    else if at < 0 then CatCut(Cut(p, MASK_LEN - 3), "@*", MASK_LEN)
    else if excl < 0 then
      CatCut(CatCut(Cut(p[..at], MASK_LEN - 5), "!*@", MASK_LEN), p[at + 1..], MASK_LEN)
    else Cut(p, MASK_LEN)
  }

  /** `Lists_CheckDupeMask` on the masks of a list. */
  predicate Listed(l: seq<string>, mask: string) {
    exists i :: 0 <= i < |l| && SameNoCase(l[i], mask)
  }

  /** What `Lists_Del` leaves. */
  function Unlisted(l: seq<string>, mask: string): seq<string> {
    if l == [] then []
    else if SameNoCase(l[0], mask) then Unlisted(l[1..], mask)
    else [l[0]] + Unlisted(l[1..], mask)
  }

  lemma {:induction false} IndexOfIs(s: string, c: char, k: nat)
    requires k < |s| && s[k] == c && c !in s[..k]
    ensures IndexOf(s, c) == k
  {
    if k > 0 {
      assert s[..k][0] == s[0] && s[..k][1..] == s[1..][..k - 1];
      IndexOfIs(s[1..], c, k - 1);
    }
  }

  /** A mask with '!' before '@' has all its parts and is only cut. */
  lemma AllParts(m: string, e: nat, a: nat)
    requires e < a < |m| < MASK_LEN && m[e] == '!' && m[a] == '@' && '!' !in m[..e] && '@' !in m[..a]
    ensures MakeMask(m) == m
  {
    IndexOfIs(m, '!', e);
    IndexOfIs(m, '@', a);
  }

  /** The cut takes away the '@' behind a '!', or a '!' without an '@'. */
  predicate LosesPart(p: string) {
    var e, at := IndexOf(p, '!'), IndexOf(p, '@');
    (0 <= e < at && at >= MASK_LEN - 1) || (at < 0 && e >= MASK_LEN - 4)
  }

  /** Making a mask of a mask changes nothing, exactly unless the cut took away
      one of the separators that were given. */
  lemma MakeMaskAgain(p: string)
    ensures MakeMask(MakeMask(p)) == MakeMask(p) <==> !LosesPart(p)
  {
    var at, e := IndexOf(p, '@'), IndexOf(p, '!');
    if 0 <= e < at {
      Complete(p);
    } else if at < 0 && e < 0 {
      BothAdded(p);
    } else if at < 0 {
      HostAdded(p);
    } else {
      UserAdded(p);
    }
  }

  /** Such a mask: 126 characters between its separators. */
  lemma MaskLosesHost()
    ensures var p := "!" + seq(126, _ => 'a') + "@"; MakeMask(MakeMask(p)) != MakeMask(p)
  {
    var user := seq(126, _ => 'a');
    var p := "!" + user + "@";
    assert p[..127] == "!" + user && '@' !in p[..127] && p[127] == '@';
    IndexOfIs(p, '!', 0);
    IndexOfIs(p, '@', 127);
    MakeMaskAgain(p);
  }

  lemma Complete(p: string)
    requires 0 <= IndexOf(p, '!') < IndexOf(p, '@')
    ensures MakeMask(MakeMask(p)) == MakeMask(p) <==> IndexOf(p, '@') < MASK_LEN - 1
  {
    var at, e, m := IndexOf(p, '@'), IndexOf(p, '!'), MakeMask(p);
    if at >= MASK_LEN - 1 {
      Hostless(p);
    } else {
      assert m[..e] == p[..e] && m[..at] == p[..at];
      AllParts(m, e, at);
    }
  }

  lemma BothAdded(p: string)
    requires IndexOf(p, '@') < 0 && IndexOf(p, '!') < 0
    ensures MakeMask(MakeMask(p)) == MakeMask(p)
  {
    var nick := Cut(p, MASK_LEN - 5);
    assert forall c :: c in nick ==> c in p;
    assert MakeMask(p) == Cut(nick + "!*@" + "*", MASK_LEN);
    UserForm(nick, "*");
  }

  /** A nick with a user added and some host. */
  lemma UserForm(nick: string, host: string)
    requires |nick| < MASK_LEN - 5 && '!' !in nick && '@' !in nick
    ensures var m := Cut(nick + "!*@" + host, MASK_LEN); MakeMask(m) == m
  {
    var n, m := |nick|, Cut(nick + "!*@" + host, MASK_LEN);
    assert m[..n] == nick && m[..n + 2] == nick + "!*" && m[n] == '!' && m[n + 2] == '@';
    AllParts(m, n, n + 2);
  }

  lemma Hostless(p: string)
    requires 0 <= IndexOf(p, '!') < IndexOf(p, '@') && IndexOf(p, '@') >= MASK_LEN - 1
    ensures MakeMask(MakeMask(p)) != MakeMask(p)
  {
    var m, at := MakeMask(p), IndexOf(p, '@');
    assert m == p[..MASK_LEN - 1];
    assert '@' !in m by { assert forall i :: 0 <= i < |m| ==> m[i] == p[..at][i]; }
    assert IndexOf(m, '@') < 0;
    var r := MakeMask(m);
    assert '@' in r;
  }

  lemma HostAdded(p: string)
    requires IndexOf(p, '@') < 0 <= IndexOf(p, '!')
    ensures MakeMask(MakeMask(p)) == MakeMask(p) <==> IndexOf(p, '!') < MASK_LEN - 4
  {
    var e, m := IndexOf(p, '!'), MakeMask(p);
    var n := |Cut(p, MASK_LEN - 3)|;
    assert m == p[..n] + "@*" && m[..n] == p[..n];
    if e < MASK_LEN - 4 {
      assert m[..e] == p[..e];
      AllParts(m, e, n);
    } else {
      assert forall c :: c in p[..n] ==> c in p[..e];
      Bangless(m, n);
    }
  }

  lemma Bangless(m: string, at: nat)
    requires at < |m| && m[at] == '@' && '@' !in m[..at] && '!' !in m
    ensures MakeMask(m) != m
  {
    IndexOfIs(m, '@', at);
    var nick := Cut(m[..at], MASK_LEN - 5);
    var r := CatCut(nick, "!*@", MASK_LEN);
    assert r[|nick|] == '!';
    assert MakeMask(m)[|nick|] == '!';
  }

  lemma UserAdded(p: string)
    requires 0 <= IndexOf(p, '@') && !(0 <= IndexOf(p, '!') < IndexOf(p, '@'))
    ensures MakeMask(MakeMask(p)) == MakeMask(p)
  {
    var at := IndexOf(p, '@');
    var nick := Cut(p[..at], MASK_LEN - 5);
    NoBangBefore(p, at);
    assert forall c :: c in nick ==> c in p[..at];
    UserMask(p);
    UserForm(nick, p[at + 1..]);
  }

  lemma UserMask(p: string)
    requires 0 <= IndexOf(p, '@') && !(0 <= IndexOf(p, '!') < IndexOf(p, '@'))
    ensures var at := IndexOf(p, '@');
            MakeMask(p) == Cut(Cut(p[..at], MASK_LEN - 5) + "!*@" + p[at + 1..], MASK_LEN)
  {
    var nick := Cut(p[..IndexOf(p, '@')], MASK_LEN - 5);
    assert CatCut(nick, "!*@", MASK_LEN) == nick + "!*@";
  }

  lemma NoBangBefore(p: string, at: nat)
    requires at <= |p| && !(0 <= IndexOf(p, '!') < at)
    ensures '!' !in p[..at]
  {
    if '!' in p[..at] { FirstBang(p, at); }
  }

  lemma {:induction false} FirstBang(p: string, at: nat)
    requires at <= |p| && '!' in p[..at]
    ensures 0 <= IndexOf(p, '!') < at
  {
    if p[0] != '!' {
      assert p[..at][1..] == p[1..][..at - 1] && p[..at] == [p[0]] + p[..at][1..];
      FirstBang(p[1..], at - 1);
    }
  }

  /** What is made of a mask, by the separators it has. */
  lemma MaskForms(p: string, a: string, b: string)
    requires '@' !in p && '!' !in a && '@' !in a
    ensures '!' !in p ==> MakeMask(p) == (if |p| > 122 then p[..122] else p) + "!*@*"
    ensures '!' in p ==> MakeMask(p) == (if |p| > 124 then p[..124] else p) + "@*"
    ensures |a| <= 122 && |a| + |b| <= 124 ==> MakeMask(a + "@" + b) == a + "!*@" + b
    ensures |a| + |p| + |b| <= 125 ==> MakeMask(a + "!" + p + "@" + b) == a + "!" + p + "@" + b
  {
    assert IndexOf(p, '@') == -1;
    if |a| <= 122 && |a| + |b| <= 124 { AtForm(a, b); }
    if |a| + |p| + |b| <= 125 { WholeForm(a, p, b); }
  }

  lemma AtForm(a: string, b: string)
    requires '!' !in a && '@' !in a && |a| <= 122 && |a| + |b| <= 124
    ensures MakeMask(a + "@" + b) == a + "!*@" + b
  {
    var m := a + "@" + b;
    assert m[..|a|] == a && m[|a|] == '@' && m[|a| + 1..] == b;
    IndexOfIs(m, '@', |a|);
    assert '!' !in m[..|a|];
  }

  lemma WholeForm(a: string, p: string, b: string)
    requires '!' !in a && '@' !in a && '@' !in p && |a| + |p| + |b| <= 125
    ensures MakeMask(a + "!" + p + "@" + b) == a + "!" + p + "@" + b
  {
    var m := a + "!" + p + "@" + b;
    var at := |a| + 1 + |p|;
    assert m[..|a|] == a && m[|a|] == '!';
    assert m[..at] == a + "!" + p && m[at] == '@';
    AllParts(m, |a|, at);
  }
}
