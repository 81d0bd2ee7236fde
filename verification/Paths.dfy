/** Slash-separated paths relative to a package root, "." being the root itself. */
module Paths {
  predicate HasPrefix(s: string, prefix: string) {
    |prefix| <= |s| && s[..|prefix|] == prefix
  }

  predicate HasSuffix(s: string, suffix: string) {
    |suffix| <= |s| && s[|s| - |suffix|..] == suffix
  }

  function TrimPrefix(s: string, prefix: string): string {
    if HasPrefix(s, prefix) then s[|prefix|..] else s
  }

  function TrimSuffix(s: string, suffix: string): string {
    if HasSuffix(s, suffix) then s[..|s| - |suffix|] else s
  }

  function LowerChar(c: char): char {
    if 'A' <= c <= 'Z' then (c as int + 32) as char else c
  }

  function Lower(s: string): (r: string)
    ensures |r| == |s| && forall i :: 0 <= i < |s| ==> r[i] == LowerChar(s[i])
  {
    seq(|s|, i requires 0 <= i < |s| => LowerChar(s[i]))
  }

  /** The offset of the first slash, or the length when there is none. */
  function FirstSlash(s: string): (i: nat)
    ensures i <= |s| && (i < |s| ==> s[i] == '/')
    ensures forall k :: 0 <= k < i ==> s[k] != '/'
  {
    if s == "" || s[0] == '/' then 0
    else
      var i := 1 + FirstSlash(s[1..]);
      assert forall k :: 0 < k < i ==> s[k] == s[1..][k - 1];
      i
  }

  /** The offset of the last slash, or -1. */
  function LastSlash(s: string): (i: int)
    ensures -1 <= i < |s| && (i >= 0 ==> s[i] == '/')
    ensures forall k :: i < k < |s| ==> s[k] != '/'
  {
    if s == "" then -1
    else if s[|s| - 1] == '/' then |s| - 1
    else LastSlash(s[..|s| - 1])
  }

  /** The segments between slashes; never none. */
  function Split(s: string): (segments: seq<string>)
    ensures segments != []
    decreases |s|
  {
    var i := FirstSlash(s);
    if i == |s| then [s] else [s[..i]] + Split(s[i + 1..])
  }

  function LastSegment(s: string): string {
    s[LastSlash(s) + 1..]
  }

  /** The directory a path sits in. */
  function Dir(p: string): string {
    if LastSlash(p) < 0 then "." else p[..LastSlash(p)]
  }

  function Base(p: string): string {
    LastSegment(p)
  }

  function Slashes(s: string): nat {
    if s == "" then 0 else (if s[0] == '/' then 1 else 0) + Slashes(s[1..])
  }

  /** How many names lead from the root to a path. */
  function Depth(p: string): nat {
    if p == "." then 0 else 1 + Slashes(p)
  }

  lemma {:induction false} SlashesSplit(a: string, b: string)
    ensures Slashes(a + b) == Slashes(a) + Slashes(b)
  {
    if a == "" {
      assert a + b == b;
    } else {
      assert (a + b)[1..] == a[1..] + b;
      SlashesSplit(a[1..], b);
    }
  }

  lemma {:induction false} NoSlashes(s: string)
    ensures Slashes(s) == 0 <==> '/' !in s
  {
    if s != "" {
      NoSlashes(s[1..]);
      assert s == [s[0]] + s[1..];
    }
  }

  /** A directory is one step nearer the root than what it holds. */
  lemma DirIsShallower(p: string)
    requires p != "."
    ensures Depth(Dir(p)) < Depth(p)
  {
    var i := LastSlash(p);
    if i >= 0 {
      assert p == p[..i] + p[i..];
      assert p[i..] == "/" + p[i + 1..];
      SlashesSplit(p[..i], p[i..]);
    }
  }

  /** p is dir or lies beneath it. */
  predicate Under(p: string, dir: string) {
    p == dir || HasPrefix(p, dir + "/")
  }

  lemma FirstSlashAt(s: string, i: nat)
    requires i < |s| && s[i] == '/' && forall k :: 0 <= k < i ==> s[k] != '/'
    ensures FirstSlash(s) == i && Split(s) == [s[..i]] + Split(s[i + 1..])
  {
    hide Split;
    assert FirstSlash(s) == i;
    SplitStep(s);
  }

  lemma SplitStep(s: string)
    requires FirstSlash(s) < |s|
    ensures Split(s) == [s[..FirstSlash(s)]] + Split(s[FirstSlash(s) + 1..])
  {
    hide FirstSlash;
  }

  lemma SplitWhole(s: string)
    requires FirstSlash(s) == |s|
    ensures Split(s) == [s]
  {
    hide FirstSlash;
  }

  lemma {:induction false} SplitJoin(a: string, b: string)
    ensures Split(a + "/" + b) == Split(a) + Split(b)
    decreases |a|
  {
    hide FirstSlash, Split;
    var s, i := a + "/" + b, FirstSlash(a);
    assert forall k :: 0 <= k < |a| ==> s[k] == a[k];
    assert s[|a|] == '/';
    FirstSlashAt(s, i);
    if i == |a| {
      SplitWhole(a);
      assert s[..i] == a && s[i + 1..] == b;
    } else {
      SplitStep(a);
      SplitJoin(a[i + 1..], b);
      assert s[..i] == a[..i] && s[i + 1..] == a[i + 1..] + "/" + b;
    }
  }

  lemma SplitUnder(p: string, dir: string)
    requires Under(p, dir)
    ensures Split(dir) <= Split(p)
  {
    if p != dir {
      var rest := p[|dir| + 1..];
      assert p == dir + "/" + rest;
      SplitJoin(dir, rest);
    }
  }

  lemma UnderTrans(p: string, q: string, dir: string)
    requires Under(p, q) && Under(q, dir)
    ensures Under(p, dir)
  {
    if p != q && q != dir {
      assert p[..|dir| + 1] == p[..|q| + 1][..|dir| + 1] == q[..|dir| + 1];
    }
  }

  lemma UnderDir(p: string)
    requires LastSlash(p) >= 0
    ensures Under(p, Dir(p))
  {
    assert p[..LastSlash(p) + 1] == Dir(p) + "/";
  }

  /** A name as a directory holds it. */
  predicate IsName(name: string) {
    name != "" && name != "." && name != ".." && '/' !in name
  }

  function Child(dir: string, name: string): string {
    if dir == "." then name else dir + "/" + name
  }

  lemma DirOfChild(dir: string, name: string)
    requires IsName(name)
    ensures Dir(Child(dir, name)) == dir && Child(dir, name) != "."
    ensures dir != "." ==> Under(Child(dir, name), dir) && '/' in Child(dir, name)
  {
    var p := Child(dir, name);
    if dir != "." {
      assert p[|dir|] == '/';
      assert forall k :: |dir| < k < |p| ==> p[k] == name[k - |dir| - 1];
      assert LastSlash(p) == |dir|;
    }
  }

  lemma BaseOfChild(dir: string, name: string)
    requires IsName(name)
    ensures Base(Child(dir, name)) == name
  {
    var p := Child(dir, name);
    if dir != "." {
      assert forall k :: |dir| < k < |p| ==> p[k] == name[k - |dir| - 1];
      assert p[|dir|] == '/' && LastSlash(p) == |dir|;
    }
  }
}
