/** The glob language a pattern is read in. The library that answers for it is a parameter
    of everything that selects files; what is asked of it here is that plain patterns mean
    what they say. A library may also match segment by segment as far as it can be read. */
module Glob {
  import opened Paths

  /** A library's answer: Undecidable stands for a pattern it cannot parse. */
  datatype Verdict = Yes | No | Undecidable

  type Library = (string, string) -> Verdict

  predicate IsSpecial(c: char) {
    c == '[' || c == ']' || c == '{' || c == '}' || c == '\\'
  }

  /** Made of literals, "*", "?" and "**" segments only. */
  predicate IsPlain(pattern: string) {
    forall i :: 0 <= i < |pattern| ==> !IsSpecial(pattern[i])
  }

  /** One segment of a plain pattern against one name. */
  predicate SegmentMatch(pattern: string, name: string)
    decreases |pattern| + |name|
  {
    if pattern == "" then name == ""
    else if pattern[0] == '*' then
      SegmentMatch(pattern[1..], name) || (name != "" && SegmentMatch(pattern, name[1..]))
    else name != "" && (pattern[0] == '?' || pattern[0] == name[0]) && SegmentMatch(pattern[1..], name[1..])
  }

  /** A plain pattern's segments against a path's; "**" stands for any number of them. */
  predicate SegmentsMatch(ps: seq<string>, xs: seq<string>)
    decreases |ps| + |xs|
  {
    if ps == [] then xs == []
    else if ps[0] == "**" then SegmentsMatch(ps[1..], xs) || (xs != [] && SegmentsMatch(ps, xs[1..]))
    else xs != [] && SegmentMatch(ps[0], xs[0]) && SegmentsMatch(ps[1..], xs[1..])
  }

  ghost predicate MatchesTail(p: string, name: string) {
    exists i :: 0 <= i <= |name| && SegmentMatch(p, name[i..])
  }

  lemma TailStep(p: string, name: string)
    ensures MatchesTail(p, name) <==> SegmentMatch(p, name) || (name != "" && MatchesTail(p, name[1..]))
  {
    hide SegmentMatch;
    assert name[0..] == name;
    if name != "" && MatchesTail(p, name[1..]) {
      var i :| 0 <= i <= |name[1..]| && SegmentMatch(p, name[1..][i..]);
      assert name[1..][i..] == name[i + 1..];
    }
    if i :| 0 < i <= |name| && SegmentMatch(p, name[i..]) { assert name[1..][i - 1..] == name[i..]; }
  }

  /** A star stands for any stretch of a name, none included. */
  lemma {:induction false} Stars(p: string, name: string)
    ensures SegmentMatch("*" + p, name) <==> MatchesTail(p, name)
    decreases |name|
  {
    hide MatchesTail;
    var star := "*" + p;
    assert star[0] == '*' && star[1..] == p;
    TailStep(p, name);
    if name != "" { Stars(p, name[1..]); }
  }

  ghost predicate MatchesRest(ps: seq<string>, xs: seq<string>) {
    exists i :: 0 <= i <= |xs| && SegmentsMatch(ps, xs[i..])
  }

  lemma RestStep(ps: seq<string>, xs: seq<string>)
    ensures MatchesRest(ps, xs) <==> SegmentsMatch(ps, xs) || (xs != [] && MatchesRest(ps, xs[1..]))
  {
    hide SegmentsMatch;
    assert xs[0..] == xs;
    if xs != [] && MatchesRest(ps, xs[1..]) {
      var i :| 0 <= i <= |xs[1..]| && SegmentsMatch(ps, xs[1..][i..]);
      assert xs[1..][i..] == xs[i + 1..];
    }
    if i :| 0 < i <= |xs| && SegmentsMatch(ps, xs[i..]) { assert xs[1..][i - 1..] == xs[i..]; }
  }

  /** A double star stands for any number of segments, none included. */
  lemma {:induction false} DoubleStars(ps: seq<string>, xs: seq<string>)
    ensures SegmentsMatch(["**"] + ps, xs) <==> MatchesRest(ps, xs)
    decreases |xs|
  {
    hide MatchesRest, SegmentMatch;
    var all := ["**"] + ps;
    assert all[0] == "**" && all[1..] == ps;
    RestStep(ps, xs);
    if xs != [] { DoubleStars(ps, xs[1..]); }
  }

  /** Whether reading a pattern's segments from the left, as far as the library can decide
      them, leaves it possible that they match a path's. */
  predicate SegmentsMay(g: Library, ps: seq<string>, xs: seq<string>) {
    if ps == [] then xs == []
    else if ps[0] == "**" then true
    else if xs == [] then false
    else if ps[0] == xs[0] then SegmentsMay(g, ps[1..], xs[1..])
    else
      match g(ps[0], xs[0])
      case Undecidable => true
      case No => false
      case Yes => SegmentsMay(g, ps[1..], xs[1..])
  }

  ghost predicate ReadsPlain(g: Library) {
    forall pattern, path :: IsPlain(pattern) ==>
      g(pattern, path) == if SegmentsMatch(Split(pattern), Split(path)) then Yes else No
  }

  ghost predicate ReadsSegments(g: Library) {
    forall pattern, path :: g(pattern, path) == Yes ==> SegmentsMay(g, Split(pattern), Split(path))
  }

  /** The library that parses plain patterns only. */
  function PlainLibrary(pattern: string, path: string): Verdict {
    if !IsPlain(pattern) then Undecidable
    else if SegmentsMatch(Split(pattern), Split(path)) then Yes
    else No
  }

  lemma {:induction false} SplitSingle(s: string)
    requires '/' !in s
    ensures Split(s) == [s]
  {
  }

  lemma {:induction false} SegmentsHaveNoSlash(s: string)
    ensures forall x :: x in Split(s) ==> '/' !in x
    ensures IsPlain(s) ==> forall x :: x in Split(s) ==> IsPlain(x)
    decreases |s|
  {
    var i := FirstSlash(s);
    if i < |s| {
      SegmentsHaveNoSlash(s[i + 1..]);
      assert IsPlain(s) ==> IsPlain(s[..i]) && IsPlain(s[i + 1..]);
      assert forall k :: 0 <= k < i ==> s[..i][k] == s[k];
    }
  }

  lemma SingleSegment(pattern: string, name: string)
    requires '/' !in pattern && '/' !in name && pattern != "**"
    ensures SegmentsMatch(Split(pattern), Split(name)) <==> SegmentMatch(pattern, name)
  {
    SplitSingle(pattern);
    SplitSingle(name);
    assert [pattern][1..] == [] && [name][1..] == [];
  }

  lemma {:induction false} MatchMeansMay(g: Library, ps: seq<string>, xs: seq<string>)
    requires forall p :: p in ps ==> '/' !in p && IsPlain(p)
    requires forall x :: x in xs ==> '/' !in x
    requires ReadsPlain(g) && SegmentsMatch(ps, xs)
    ensures SegmentsMay(g, ps, xs)
    decreases |ps| + |xs|
  {
    if ps != [] && ps[0] != "**" {
      SingleSegment(ps[0], xs[0]);
      assert g(ps[0], xs[0]) == Yes;
      MatchMeansMay(g, ps[1..], xs[1..]);
    }
  }

  lemma PlainLibraryReads()
    ensures ReadsPlain(PlainLibrary) && ReadsSegments(PlainLibrary)
  {
    forall pattern, path | PlainLibrary(pattern, path) == Yes
      ensures SegmentsMay(PlainLibrary, Split(pattern), Split(path))
    {
      SegmentsHaveNoSlash(pattern);
      SegmentsHaveNoSlash(path);
      MatchMeansMay(PlainLibrary, Split(pattern), Split(path));
    }
  }
}
