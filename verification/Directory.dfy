/** The plain reading of a lookup by name: the first entry, in list order,
    whose name is equal ignoring case. */
module Directory {
  import opened Defines
  import opened CStrings

  /** Index of the first name equal to `key` ignoring case, or -1. */
  function FirstNoCase(names: seq<string>, key: string): (k: int)
    ensures -1 <= k < |names|
    ensures k >= 0 ==> SameNoCase(names[k], key) && forall i :: 0 <= i < k ==> !SameNoCase(names[i], key)
    ensures k < 0 ==> forall i :: 0 <= i < |names| ==> !SameNoCase(names[i], key)
  {
    if names == [] then -1
    else if SameNoCase(names[0], key) then 0
    else var k := FirstNoCase(names[1..], key); if k < 0 then -1 else k + 1
  }

  function UpToBang(s: string): (r: string)
    ensures |r| <= |s| && r == s[..|r|] && '!' !in r
    ensures '!' !in s ==> r == s
  {
    if s == [] || s[0] == '!' then [] else [s[0]] + UpToBang(s[1..])
  }

  /** The id a nickname or hostmask is looked up by. */
  function SearchId(nick: string): (id: string)
    ensures |id| < CLIENT_ID_LEN && '!' !in id
  {
    UpToBang(Cut(nick, CLIENT_ID_LEN))
  }

  /** Position of the client meant by `nick`, or -1; a client that has no id
      yet is never meant. */
  function FindClient(ids: seq<string>, nick: string): (k: int)
    ensures -1 <= k < |ids|
    ensures k >= 0 ==> ids[k] != [] && SameNoCase(ids[k], SearchId(nick))
  {
    if SearchId(nick) == [] then -1 else FirstNoCase(ids, SearchId(nick))
  }

  /** Looking up the id of a client that was found finds it again. */
  lemma FindAgain(ids: seq<string>, nick: string)
    requires FindClient(ids, nick) >= 0
    ensures FindClient(ids, ids[FindClient(ids, nick)]) == FindClient(ids, nick)
  {
    var k := FindClient(ids, nick);
    var id := ids[k];
    SameLength(id, SearchId(nick));
    assert SearchId(id) == id by { NoBang(id); }
    var j := FirstNoCase(ids, id);
    assert SameNoCase(ids[k], id);
    if j < k { assert SameNoCase(ids[j], SearchId(nick)); }
  }

  lemma SameLength(a: string, b: string)
    requires SameNoCase(a, b)
    ensures |a| == |b|
    ensures '!' !in b ==> '!' !in a
  {
    if c :| 0 <= c < |a| && a[c] == '!' {
      assert Lower(a)[c] == Lower(b)[c];
    }
  }

  lemma NoBang(id: string)
    requires |id| < CLIENT_ID_LEN && '!' !in id
    ensures SearchId(id) == id
  {}

  /** A nick of 1 to 63 characters means the first client with that id, and so does
      a hostmask that starts with the nick. */
  lemma FindNamed(ids: seq<string>, nick: string, rest: string)
    requires 1 <= |nick| <= 63 && '!' !in nick
    ensures FindClient(ids, nick) == FirstNoCase(ids, nick)
    ensures FindClient(ids, nick + "!" + rest) == FirstNoCase(ids, nick)
  {
    NoBang(nick);
    var s := Cut(nick + "!" + rest, CLIENT_ID_LEN);
    assert s[..|nick|] == nick;
    BangAt(s, |nick|);
  }

  lemma {:induction false} BangAt(s: string, k: nat)
    requires k <= |s| && '!' !in s[..k] && (k < |s| ==> s[k] == '!')
    ensures UpToBang(s) == s[..k]
  {
    if k > 0 {
      assert s[..k] == [s[0]] + s[1..][..k - 1];
      BangAt(s[1..], k - 1);
    }
  }
}
