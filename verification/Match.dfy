/** Wildcard matching: the mutually recursive matcher of match.c against a
    declarative glob relation. */
module Match {
  import opened Defines
  import opened CStrings

  datatype Verdict = Undecided | Valid | End | Abort | Literal | BadPattern

  // ---------------------------------------------------------------- glob

  /** The textbook meaning of a mask: '?' is any one character, '*' is any
      string, everything else (the backslash too) is itself. */
  ghost predicate Glob(p: string, t: string) {
    if p == [] then t == []
    else if p[0] == '*' then exists k :: 0 <= k <= |t| && Glob(p[1..], t[k..])
    else t != [] && (p[0] == '?' || p[0] == t[0]) && Glob(p[1..], t[1..])
  }

  predicate Wild(c: char) { c == '?' || c == '*' }

  predicate AllStars(p: string) { p == [] || (p[0] == '*' && AllStars(p[1..])) }

  predicate AllWild(p: string) { p == [] || (Wild(p[0]) && AllWild(p[1..])) }

  predicate HasStar(p: string) { p != [] && (p[0] == '*' || HasStar(p[1..])) }

  /** Length of the leading run of '?' and '*'. */
  function Run(p: string): (n: nat)
    ensures n <= |p|
    ensures n < |p| ==> !Wild(p[n])
  {
    if p != [] && Wild(p[0]) then 1 + Run(p[1..]) else 0
  }

  /** A backslash right behind a run of wildcards which the matcher skips as
      an escape although the comparison takes it literally. */
  predicate EscapeTrap(q: string) {
    q != [] && q[0] == '\\' && (|q| == 1 || (q[1] != '\\' && q[1] != '['))
  }

  /** Some '*' run of the pattern is followed by such a backslash. */
  predicate Trapped(p: string) {
    p != [] && ((p[0] == '*' && EscapeTrap(p[Run(p)..])) || Trapped(p[1..]))
  }

  /** The mask the matcher really implements: two or more closing stars
      demand at least one character. */
  function Effective(p: string): string {
    if p == [] then []
    else if |p| >= 2 && AllStars(p) then "?*"
    else if p[0] == '*' && AllWild(p) then p
    else [p[0]] + Effective(p[1..])
  }

  /** The exact set of texts accepted for a pattern. */
  ghost predicate Accepts(p: string, t: string) {
    !Trapped(p) && Glob(Effective(p), t)
  }

  /** Fewest characters a text of this mask has. */
  function MinLen(p: string): nat {
    if p == [] then 0 else (if p[0] == '*' then 0 else 1) + MinLen(p[1..])
  }

  lemma {:induction false} GlobMinLen(p: string, t: string)
    requires Glob(p, t)
    ensures MinLen(p) <= |t|
  {
    if p != [] {
      if p[0] == '*' {
        var k :| 0 <= k <= |t| && Glob(p[1..], t[k..]);
        GlobMinLen(p[1..], t[k..]);
      } else {
        GlobMinLen(p[1..], t[1..]);
      }
    }
  }

  /** Some suffix of the text, at least n characters in, is of the pattern. */
  ghost predicate Later(e: string, t: string, n: nat) {
    exists k :: n <= k <= |t| && Glob(e, t[k..])
  }

  lemma LaterIn(e: string, t: string, d: nat, n: nat)
    requires d <= |t|
    ensures Later(e, t[d..], n) <==> Later(e, t, d + n)
  {
    if Later(e, t[d..], n) {
      var k :| n <= k <= |t[d..]| && Glob(e, t[d..][k..]);
      assert t[d..][k..] == t[d + k..];
    }
    if Later(e, t, d + n) {
      var k :| d + n <= k <= |t| && Glob(e, t[k..]);
      assert t[d..][k - d..] == t[k..];
    }
  }

  /** What a run of wildcards matches leaves a later suffix to the rest. */
  lemma {:induction false} GlobRunLater(run: string, e: string, t: string)
    requires AllWild(run) && Glob(run + e, t)
    ensures Later(e, t, MinLen(run))
  {
    if run == [] {
      assert run + e == e && t[0..] == t;
    } else {
      assert (run + e)[1..] == run[1..] + e;
      if run[0] == '*' {
        var k :| 0 <= k <= |t| && Glob(run[1..] + e, t[k..]);
        GlobRunLater(run[1..], e, t[k..]);
        LaterIn(e, t, k, MinLen(run[1..]));
      } else {
        GlobRunLater(run[1..], e, t[1..]);
        LaterIn(e, t, 1, MinLen(run[1..]));
      }
    }
  }

  /** Wildcards can take exactly their least number of characters. */
  lemma {:induction false} GlobRunExact(run: string, e: string, t: string)
    requires AllWild(run) && MinLen(run) <= |t| && Glob(e, t[MinLen(run)..])
    ensures Glob(run + e, t)
  {
    if run == [] {
      assert run + e == e && t[0..] == t;
    } else {
      var n := MinLen(run[1..]);
      assert (run + e)[1..] == run[1..] + e;
      if run[0] == '*' {
        assert t[0..] == t;
        GlobRunExact(run[1..], e, t);
      } else {
        assert t[1..][n..] == t[n + 1..];
        GlobRunExact(run[1..], e, t[1..]);
      }
    }
  }

  /** A run of wildcards holding a star matches every prefix that is long
      enough. */
  lemma {:induction false} GlobRun(run: string, e: string, t: string)
    requires AllWild(run) && HasStar(run) && Later(e, t, MinLen(run))
    ensures Glob(run + e, t)
  {
    var k :| MinLen(run) <= k <= |t| && Glob(e, t[k..]);
    var n := MinLen(run[1..]);
    assert (run + e)[1..] == run[1..] + e;
    if run[0] == '*' {
      assert t[k - n..][n..] == t[k..];
      GlobRunExact(run[1..], e, t[k - n..]);
    } else {
      LaterIn(e, t, 1, n);
      GlobRun(run[1..], e, t[1..]);
    }
  }

  /** Splitting a pattern behind its leading wildcards. */
  lemma {:induction false} SplitWild(p: string)
    ensures AllWild(p[..Run(p)])
    ensures AllWild(p) <==> Run(p) == |p|
  {
    if p != [] && Wild(p[0]) {
      SplitWild(p[1..]);
      assert p[..Run(p)][1..] == p[1..][..Run(p) - 1];
    }
  }

  lemma {:induction false} SplitTrapped(p: string)
    ensures Trapped(p) <==> (HasStar(p[..Run(p)]) && EscapeTrap(p[Run(p)..])) || Trapped(p[Run(p)..])
  {
    var n := Run(p);
    if p != [] && Wild(p[0]) {
      SplitTrapped(p[1..]);
      assert p[..n][1..] == p[1..][..n - 1];
      assert p[1..][n - 1..] == p[n..];
    } else {
      assert p[..0] == [] && p[0..] == p;
    }
  }

  lemma EffectiveCons(p: string)
    requires p != [] && !AllWild(p)
    ensures Effective(p) == [p[0]] + Effective(p[1..])
  {
    StarsAreWild(p);
  }

  lemma {:induction false} SplitEffective(p: string)
    requires Run(p) < |p|
    ensures Effective(p) == p[..Run(p)] + Effective(p[Run(p)..])
  {
    var n := Run(p);
    if n == 0 {
      assert p[..0] == [] && p[0..] == p;
    } else {
      var e, q := Effective(p[n..]), p[1..];
      assert q[n - 1..] == p[n..];
      SplitEffective(q);
      SplitWild(p);
      EffectiveCons(p);
      assert [p[0]] + q[..n - 1] == p[..n];
      assert [p[0]] + (q[..n - 1] + e) == [p[0]] + q[..n - 1] + e;
    }
  }

  lemma {:induction false} StarsAreWild(p: string)
    ensures AllStars(p) ==> AllWild(p) && MinLen(p) == 0
    ensures MinLen(p) == 0 ==> AllStars(p)
  {
    if p != [] { StarsAreWild(p[1..]); }
  }

  lemma {:induction false} EffectiveMinLen(p: string)
    ensures p != [] && p != "*" ==> MinLen(Effective(p)) >= 1
  {
    if p != [] {
      StarsAreWild(p);
      EffectiveMinLen(p[1..]);
      assert p[0] == '*' && p[1..] == [] ==> p == "*";
      assert p[0] == '*' && p[1..] == "*" ==> |p| == 2 && AllStars(p[1..]);
      assert "?*"[0] == '?';
    }
  }

  /** A leading star, reduced to a search for the rest of the pattern. */
  lemma AcceptsStar(p: string, t: string)
    requires p != [] && p[0] == '*'
    ensures Run(p) == |p| && t != [] ==> (Accepts(p, t) <==> MinLen(p) <= |t|)
    ensures Run(p) < |p| ==>
              (Accepts(p, t) <==>
                 && !EscapeTrap(p[Run(p)..])
                 && exists k :: MinLen(p[..Run(p)]) <= k <= |t| && Accepts(p[Run(p)..], t[k..]))
  {
    SplitWild(p);
    SplitTrapped(p);
    if Run(p) == |p| {
      AllWildAccepts(p, t);
    } else {
      SplitEffective(p);
      var q, run := p[Run(p)..], p[..Run(p)];
      assert HasStar(run);
      if Glob(run + Effective(q), t) { GlobRunLater(run, Effective(q), t); }
      if Later(Effective(q), t, MinLen(run)) { GlobRun(run, Effective(q), t); }
      forall k | 0 <= k <= |t|
        ensures Accepts(q, t[k..]) <==> !Trapped(q) && Glob(Effective(q), t[k..])
      {}
    }
  }

  lemma AllWildAccepts(p: string, t: string)
    requires p != [] && p[0] == '*' && AllWild(p)
    ensures t != [] ==> (Accepts(p, t) <==> MinLen(p) <= |t|)
  {
    SplitWild(p);
    SplitTrapped(p);
    assert p[Run(p)..] == [];
    if |p| >= 2 && AllStars(p) {
      StarsAreWild(p);
      if t != [] { QuestionStar(t); }
    } else {
      if Glob(p + [], t) { GlobRunLater(p, [], t); }
      if Later([], t, MinLen(p)) { GlobRun(p, [], t); }
      assert p + [] == p;
      assert t[|t|..] == [];
      assert Glob([], t[|t|..]);
    }
  }

  lemma QuestionStar(t: string)
    requires t != []
    ensures Glob("?*", t)
  {
    assert t[1..][|t| - 1..] == [];
    assert "?*"[1..] == "*" && "*"[1..] == [];
    assert Glob("*"[1..], t[1..][|t| - 1..]);
    assert Glob("*", t[1..]);
  }

  lemma StarTakesNothing()
    ensures Accepts("*", [])
  {
    var s, e: string := "*", [];
    assert s[1..] == [] && e[0..] == e && Run(s) == 1;
    assert Glob(s[1..], e[0..]);
  }

  lemma AtTextEnd(p: string)
    requires p != []
    ensures Accepts(p, []) <==> p == "*"
  {
    if p == "*" {
      StarTakesNothing();
    } else {
      EffectiveMinLen(p);
      AcceptsMinLen(p, []);
    }
  }

  lemma AcceptsMinLen(p: string, t: string)
    ensures Accepts(p, t) ==> MinLen(Effective(p)) <= |t|
  {
    if Accepts(p, t) { GlobMinLen(Effective(p), t); }
  }

  /** A star-free front takes one character of text per position. */
  lemma {:induction false} LiteralPrefix(p: string, t: string, i: nat)
    requires i <= |p| && forall k :: 0 <= k < i ==> p[k] != '*'
    ensures Accepts(p, t) ==> i <= |t| && Accepts(p[i..], t[i..])
    ensures MinLen(Effective(p)) == i + MinLen(Effective(p[i..]))
  {
    if i == 0 {
      assert p[0..] == p && t[0..] == t;
    } else {
      StarsAreWild(p);
      assert Effective(p) == [p[0]] + Effective(p[1..]);
      assert p[1..][i - 1..] == p[i..];
      LiteralPrefix(p[1..], if t == [] then t else t[1..], i - 1);
      if i <= |t| { assert t[1..][i - 1..] == t[i..]; }
    }
  }

  /** The text ended inside the pattern: no later start can help. */
  lemma AbortAtEnd(p: string, t: string)
    requires |t| < |p| && forall k :: 0 <= k < |t| ==> p[k] != '*'
    requires p[|t|..] != "*"
    ensures forall k :: 0 <= k <= |t| ==> !Accepts(p, t[k..])
  {
    forall k | 0 <= k <= |t|
      ensures !Accepts(p, t[k..])
    {
      LiteralPrefix(p, t, |t|);
      EffectiveMinLen(p[|t|..]);
      AcceptsMinLen(p, t[k..]);
    }
  }

  /** The promise of an abort carries over a star-free front. */
  lemma AbortBehind(p: string, t: string, i: nat)
    requires i <= |p| && i <= |t| && forall k :: 0 <= k < i ==> p[k] != '*'
    requires forall k :: 0 <= k <= |t| - i ==> !Accepts(p[i..], t[i..][k..])
    ensures forall k :: 0 <= k <= |t| ==> !Accepts(p, t[k..])
  {
    forall k | 0 <= k <= |t|
      ensures !Accepts(p, t[k..])
    {
      LiteralPrefix(p, t[k..], i);
      if i <= |t[k..]| { assert t[k..][i..] == t[i..][k..]; }
    }
  }

  /** A star whose run or rest cannot be placed anywhere. */
  lemma AbortStar(p: string, t: string)
    requires p != [] && p[0] == '*'
    requires var q := p[Run(p)..]; var n := MinLen(p[..Run(p)]);
             n > |t| || (q != [] && (EscapeTrap(q) || forall k :: n <= k <= |t| ==> !Accepts(q, t[k..])))
    ensures forall k :: 0 <= k <= |t| ==> !Accepts(p, t[k..])
  {
    var n := MinLen(p[..Run(p)]);
    forall k | 0 <= k <= |t|
      ensures !Accepts(p, t[k..])
    {
      AcceptsStar(p, t[k..]);
      if Run(p) < |p| {
        forall m | n <= m <= |t[k..]|
          ensures t[k..][m..] == t[k + m..]
        {}
      } else {
        assert p[..Run(p)] == p;
        if k == |t| { AtTextEnd(p); }
      }
    }
  }

  lemma FirstChar(q: string, t: string)
    requires q != [] && !Wild(q[0])
    ensures Accepts(q, t) ==> t != [] && t[0] == q[0]
  {}

  // ------------------------------------------------------------- matcher

  /** `Match`, with the answer described independently of the search. */
  method Match(pattern: string, text: string) returns (r: bool)
    ensures r <==> Accepts(pattern, text)
  {
    var v := Matche(pattern, text);
    return v == Valid;
  }

  /** An abort is a promise about every later start as well. */
  method Matche(p: string, t: string) returns (r: Verdict)
    ensures r != Undecided
    ensures r == Valid <==> Accepts(p, t)
    ensures r == Abort ==> forall k :: 0 <= k <= |t| ==> !Accepts(p, t[k..])
    ensures r == BadPattern ==> Trapped(p)
    decreases |p|, 1
  {
    var i, j := 0, 0;
    while i < |p|
      invariant i == j && 0 <= i <= |p| && j <= |t|
      invariant forall k :: 0 <= k < i ==> p[k] != '*'
      invariant Accepts(p, t) <==> Accepts(p[i..], t[j..])
      invariant Trapped(p[i..]) <==> Trapped(p)
    {
      assert p[i..][1..] == p[i + 1..];
      if j == |t| {
        AtTextEnd(p[i..]);
        assert t[j..] == [];
        if p[i] == '*' && i + 1 == |p| {
          return Valid;
        }
        AbortAtEnd(p, t);
        return Abort;
      }
      assert t[j..][1..] == t[j + 1..];
      if p[i] == '*' {
        r := MatcheAfterStar(p[i..], t[j..]);
        if r == Abort { AbortBehind(p, t, i); }
        return;
      } else if p[i] != '?' && p[i] != t[j] {
        return Literal;
      }
      i, j := i + 1, j + 1;
    }
    assert p[i..] == [];
    r := if j < |t| then End else Valid;
  }

  method MatcheAfterStar(p: string, t: string) returns (r: Verdict)
    requires p != [] && p[0] == '*' && t != []
    ensures r != Undecided
    ensures r == Valid <==> Accepts(p, t)
    ensures r == Abort ==> forall k :: 0 <= k <= |t| ==> !Accepts(p, t[k..])
    ensures r == BadPattern ==> Trapped(p)
    decreases |p|, 0
  {
    ghost var n := Run(p);
    AcceptsStar(p, t);
    var i, j := 0, 0;
    while i < |p| && Wild(p[i])
      invariant 0 <= i <= n && j <= |t|
      invariant i + Run(p[i..]) == n
      invariant j == MinLen(p[..i])
    {
      assert p[i..][1..] == p[i + 1..];
      MinLenSnoc(p[..i], p[i]);
      assert p[..i + 1] == p[..i] + [p[i]];
      if p[i] == '?' {
        if j == |t| {
          MinLenPrefix(p, i + 1, n);
          AbortStar(p, t);
          assert t[0..] == t;
          return Abort;
        }
        j := j + 1;
      }
      i := i + 1;
    }
    assert i == n;
    if i == |p| {
      assert p[..i] == p;
      return Valid;
    }
    r := TrySuffixes(p[i..], t[j..]);
    ShiftSuffixes(p[i..], t, j);
    if r == BadPattern {
      SplitTrapped(p);
      assert p[..i][0] == '*';
    } else if r == Abort {
      AbortStar(p, t);
    }
  }

  lemma ShiftSuffixes(q: string, t: string, j: nat)
    requires j <= |t|
    ensures (exists k :: 0 <= k <= |t[j..]| && Accepts(q, t[j..][k..])) <==>
            (exists k :: j <= k <= |t| && Accepts(q, t[k..]))
  {
    forall k | j <= k <= |t| ensures t[k..] == t[j..][k - j..] {}
    if k :| 0 <= k <= |t[j..]| && Accepts(q, t[j..][k..]) {
      assert t[j..][k..] == t[j + k..];
    }
  }

  /** The search loop behind a run of wildcards. */
  method TrySuffixes(q: string, t: string) returns (r: Verdict)
    requires q != [] && !Wild(q[0])
    ensures r != Undecided
    ensures r == Valid <==> !EscapeTrap(q) && exists k :: 0 <= k <= |t| && Accepts(q, t[k..])
    ensures r == Abort ==> EscapeTrap(q) || forall k :: 0 <= k <= |t| ==> !Accepts(q, t[k..])
    ensures r == BadPattern ==> EscapeTrap(q) || Trapped(q)
    decreases |q|, 2
  {
    var nextp := q[0];
    if nextp == '\\' {
      if |q| == 1 {
        return BadPattern;
      }
      nextp := q[1];
    }
    r := Undecided;
    var j := 0;
    while r != Valid && r != Abort && r != BadPattern
      invariant 0 <= j <= |t| + 1
      invariant j == |t| + 1 ==> r == Abort
      invariant r == BadPattern ==> Trapped(q)
      invariant r == Valid ==> !EscapeTrap(q) && exists k :: 0 <= k <= |t| && Accepts(q, t[k..])
      invariant r != Valid && r != Abort && !EscapeTrap(q) ==>
                  forall k :: 0 <= k < j ==> !Accepts(q, t[k..])
      invariant r == Abort && !EscapeTrap(q) ==>
                  forall k :: 0 <= k <= |t| ==> !Accepts(q, t[k..])
      decreases |t| + 1 - j
    {
      FirstChar(q, t[j..]);
      if (j < |t| && nextp == t[j]) || nextp == '[' {
        r := Matche(q, t[j..]);
        if r == Abort {
          forall k | j <= k <= |t| ensures t[k..] == t[j..][k - j..] {}
        }
      }
      if j == |t| {
        AtTextEnd(q);
        assert t[j..] == [];
        r := Abort;
      }
      j := j + 1;
    }
  }

  lemma {:induction false} MinLenSnoc(p: string, c: char)
    ensures MinLen(p + [c]) == MinLen(p) + if c == '*' then 0 else 1
  {
    if p != [] {
      assert (p + [c])[1..] == p[1..] + [c];
      MinLenSnoc(p[1..], c);
    } else {
      assert (p + [c])[1..] == [];
    }
  }

  lemma {:induction false} MinLenPrefix(p: string, i: nat, j: nat)
    requires i <= j <= |p|
    ensures MinLen(p[..i]) <= MinLen(p[..j])
  {
    if i < j {
      MinLenPrefix(p, i, j - 1);
      assert p[..j] == p[..j - 1] + [p[j - 1]];
      MinLenSnoc(p[..j - 1], p[j - 1]);
    }
  }

  // ---------------------------------------------------------- exactness

  /** The pattern closes with two or more stars that are not part of an
      earlier star's run. */
  predicate ClosingStars(p: string) {
    && p != []
    && ((|p| >= 2 && AllStars(p)) || (!(p[0] == '*' && AllWild(p)) && ClosingStars(p[1..])))
  }

  lemma {:induction false} EffectiveLength(p: string)
    ensures ClosingStars(p) ==> MinLen(Effective(p)) == MinLen(p) + 1
    ensures !ClosingStars(p) ==> Effective(p) == p
  {
    if p != [] {
      StarsAreWild(p);
      if |p| >= 2 && AllStars(p) {
        assert "?*"[1..] == "*" && "*"[1..] == [];
      } else if !(p[0] == '*' && AllWild(p)) {
        EffectiveLength(p[1..]);
        assert p == [p[0]] + p[1..];
      }
    }
  }

  lemma {:induction false} StarsTakeAll(p: string, t: string)
    requires p != [] && AllStars(p)
    ensures Glob(p, t)
  {
    if |p| == 1 {
      assert t[|t|..] == [];
      assert Glob(p[1..], t[|t|..]);
    } else {
      StarsTakeAll(p[1..], t);
      assert t[0..] == t;
    }
  }

  lemma {:induction false} EffectiveSound(p: string, t: string)
    requires Glob(Effective(p), t)
    ensures Glob(p, t)
  {
    if p != [] {
      if |p| >= 2 && AllStars(p) {
        StarsTakeAll(p, t);
      } else if !(p[0] == '*' && AllWild(p)) {
        assert Effective(p)[1..] == Effective(p[1..]);
        if p[0] == '*' {
          var k :| 0 <= k <= |t| && Glob(Effective(p[1..]), t[k..]);
          EffectiveSound(p[1..], t[k..]);
        } else {
          EffectiveSound(p[1..], t[1..]);
        }
      }
    }
  }

  /** No mask ever accepts a text outside its textbook meaning. */
  lemma MatchSound(p: string, t: string)
    requires Accepts(p, t)
    ensures Glob(p, t)
  {
    EffectiveSound(p, t);
  }

  /** A shortest text of a mask. */
  function Sample(p: string): (t: string)
    ensures |t| == MinLen(p)
  {
    if p == [] then []
    else if p[0] == '*' then Sample(p[1..])
    else [if p[0] == '?' then 'x' else p[0]] + Sample(p[1..])
  }

  lemma {:induction false} SampleMatches(p: string)
    ensures Glob(p, Sample(p))
  {
    if p != [] {
      SampleMatches(p[1..]);
      var t := Sample(p);
      if p[0] == '*' {
        assert t[0..] == t;
      } else {
        assert t[1..] == Sample(p[1..]);
      }
    }
  }

  /** Exactly the masks without a closing double star and without a backslash
      trap mean to the matcher what they mean in the textbook. */
  lemma MatchExact(p: string)
    ensures (forall t :: Accepts(p, t) <==> Glob(p, t)) <==> !Trapped(p) && !ClosingStars(p)
  {
    EffectiveLength(p);
    var t := Sample(p);
    SampleMatches(p);
    AcceptsMinLen(p, t);
    if Trapped(p) || ClosingStars(p) {
      assert Glob(p, t) && !Accepts(p, t);
    } else {
      forall t ensures Accepts(p, t) <==> Glob(p, t) {}
    }
  }

  /** Two masks on which the matcher and the textbook disagree. */
  lemma MatchGapWitness()
    ensures Glob("a**", "a") && !Accepts("a**", "a")
    ensures Glob("*\\a", "\\a") && !Accepts("*\\a", "\\a")
  {
    var p, q := "a**", "*\\a";
    assert p[1..] == "**" && p[1..][1..] == "*" && p[1..][1..][1..] == [];
    SampleMatches(p);
    assert Sample(p) == "a";
    assert ClosingStars(p);
    EffectiveLength(p);
    AcceptsMinLen(p, "a");
    assert q[1..] == "\\a" && q[1..][1..] == "a" && q[1..][1..][1..] == [];
    SampleMatches(q);
    assert Sample(q) == "\\a";
    assert Run(q) == 1;
    assert EscapeTrap(q[1..]);
  }

  /** Masks without a backslash and without adjacent stars are matched
      soundly and completely. */
  lemma PlainMask(p: string, t: string)
    requires '\\' !in p
    requires forall i :: 0 <= i < |p| - 1 ==> !(p[i] == '*' && p[i + 1] == '*')
    ensures Accepts(p, t) <==> Glob(p, t)
  {
    NotTrapped(p);
    NoClosingStars(p);
    MatchExact(p);
  }

  lemma {:induction false} NotTrapped(p: string)
    requires '\\' !in p
    ensures !Trapped(p)
  {
    if p != [] {
      NotTrapped(p[1..]);
      if Run(p) < |p| { assert p[Run(p)..][0] in p; }
    }
  }

  lemma {:induction false} NoClosingStars(p: string)
    requires forall i :: 0 <= i < |p| - 1 ==> !(p[i] == '*' && p[i + 1] == '*')
    ensures !ClosingStars(p)
  {
    if p != [] {
      NoClosingStars(p[1..]);
      TwoStars(p);
    }
  }

  lemma TwoStars(p: string)
    ensures |p| >= 2 && AllStars(p) ==> p[0] == '*' && p[0 + 1] == '*'
  {
    if |p| >= 2 && AllStars(p) {
      assert AllStars(p[1..]);
      assert p[1..][0] == '*';
    }
  }

  // ------------------------------------------------------ ignoring case

  /** The relation behind `MatchCaseInsensitive`: both strings are cut to the
      line buffer and folded to lower case first. */
  ghost predicate AcceptsNoCase(pattern: string, text: string) {
    Accepts(Lower(Cut(pattern, COMMAND_LEN)), Lower(Cut(text, COMMAND_LEN)))
  }

  method MatchCaseInsensitive(pattern: string, text: string) returns (r: bool)
    ensures r <==> AcceptsNoCase(pattern, text)
  {
    r := Match(Lower(Cut(pattern, COMMAND_LEN)), Lower(Cut(text, COMMAND_LEN)));
  }

  /** Masks that differ in case only list the same clients. */
  lemma NoCaseInvariant(p: string, q: string, t: string, u: string)
    requires SameNoCase(p, q) && SameNoCase(t, u)
    ensures AcceptsNoCase(p, t) <==> AcceptsNoCase(q, u)
  {
    LowerCut(p, q, COMMAND_LEN);
    LowerCut(t, u, COMMAND_LEN);
  }

  /** The textbook meaning of a mask when case does not matter, on the strings
      as they were given. */
  ghost predicate GlobNoCase(p: string, t: string) {
    if p == [] then t == []
    else if p[0] == '*' then exists k :: 0 <= k <= |t| && GlobNoCase(p[1..], t[k..])
    else t != [] && (p[0] == '?' || LowerChar(p[0]) == LowerChar(t[0])) && GlobNoCase(p[1..], t[1..])
  }

  lemma LowerTail(s: string, k: nat)
    requires k <= |s|
    ensures Lower(s)[k..] == Lower(s[k..])
  {}

  /** Folding both strings first and comparing as one goes is the same. */
  lemma {:induction false} GlobFolded(p: string, t: string)
    ensures Glob(Lower(p), Lower(t)) <==> GlobNoCase(p, t)
  {
    if p != [] {
      LowerTail(p, 1);
      if p[0] == '*' {
        forall k | 0 <= k <= |t| ensures Glob(Lower(p[1..]), Lower(t)[k..]) <==> GlobNoCase(p[1..], t[k..]) {
          LowerTail(t, k);
          GlobFolded(p[1..], t[k..]);
        }
      } else if t != [] {
        LowerTail(t, 1);
        GlobFolded(p[1..], t[1..]);
      }
    }
  }

  lemma {:induction false} RunFolded(p: string)
    ensures Run(Lower(p)) == Run(p)
  {
    if p != [] {
      LowerTail(p, 1);
      RunFolded(p[1..]);
    }
  }

  lemma {:induction false} TrappedFolded(p: string)
    ensures Trapped(Lower(p)) <==> Trapped(p)
  {
    if p != [] {
      RunFolded(p);
      LowerTail(p, Run(p));
      LowerTail(p, 1);
      TrappedFolded(p[1..]);
    }
  }

  lemma {:induction false} WildFolded(p: string)
    ensures AllStars(Lower(p)) <==> AllStars(p)
    ensures AllWild(Lower(p)) <==> AllWild(p)
  {
    if p != [] {
      LowerTail(p, 1);
      WildFolded(p[1..]);
    }
  }

  lemma {:induction false} ClosingFolded(p: string)
    ensures ClosingStars(Lower(p)) <==> ClosingStars(p)
  {
    if p != [] {
      WildFolded(p);
      LowerTail(p, 1);
      ClosingFolded(p[1..]);
    }
  }

  /** What fits the line buffer. */
  function Fitting(s: string): string { if |s| > 512 then s[..512] else s }

  /** No mask lists a client outside its textbook meaning; and one without the
      two traps lists every client of that meaning. */
  lemma NoCaseSound(p: string, t: string)
    ensures AcceptsNoCase(p, t) ==> GlobNoCase(Fitting(p), Fitting(t))
    ensures !Trapped(Fitting(p)) && !ClosingStars(Fitting(p)) ==>
              (AcceptsNoCase(p, t) <==> GlobNoCase(Fitting(p), Fitting(t)))
  {
    var q, u := Fitting(p), Fitting(t);
    GlobFolded(q, u);
    TrappedFolded(q);
    ClosingFolded(q);
    EffectiveLength(Lower(q));
    if AcceptsNoCase(p, t) { MatchSound(Lower(q), Lower(u)); }
  }

  lemma {:induction false} MinLenBound(p: string)
    ensures MinLen(p) <= |p|
  {
    if p != [] { MinLenBound(p[1..]); }
  }

  /** Exactly the masks without a trap are matched as the textbook says, whatever
      the case of the letters. */
  lemma NoCaseExact(p: string)
    ensures (forall t :: AcceptsNoCase(p, t) <==> GlobNoCase(Fitting(p), Fitting(t)))
            <==> !Trapped(Fitting(p)) && !ClosingStars(Fitting(p))
  {
    var q := Fitting(p);
    if Trapped(q) || ClosingStars(q) {
      var t := Sample(Lower(q));
      MinLenBound(Lower(q));
      SampleMatches(Lower(q));
      LowerSample(q);
      GlobFolded(q, t);
      TrappedFolded(q);
      ClosingFolded(q);
      EffectiveLength(Lower(q));
      AcceptsMinLen(Lower(q), t);
      assert !AcceptsNoCase(p, t) && GlobNoCase(q, Fitting(t));
    } else {
      forall t ensures AcceptsNoCase(p, t) <==> GlobNoCase(q, Fitting(t)) { NoCaseSound(p, t); }
    }
  }

  /** A shortest text of a folded mask is folded. */
  lemma {:induction false} LowerSample(p: string)
    ensures Lower(Sample(Lower(p))) == Sample(Lower(p))
  {
    if p != [] {
      LowerTail(p, 1);
      LowerSample(p[1..]);
      var t := Sample(Lower(p));
      if p[0] != '*' {
        assert t == [t[0]] + Sample(Lower(p[1..]));
        LowerTail(t, 1);
      }
    }
  }
}
