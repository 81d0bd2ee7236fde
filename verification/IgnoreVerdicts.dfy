/** What the chain of ignore files makes of a path when some of them say something else. */
module IgnoreVerdicts {
  import opened Wrappers
  import opened Paths
  import opened Glob
  import opened Ignore
  import opened PackRules
  import opened PackWalk

  // ---------------------------------------------------------------- verdicts, scope by scope

  /** A path with no empty name on the way to it. */
  predicate IsRooted(path: string)
    decreases Depth(path)
  {
    path == "." || (path != "" && (DirIsShallower(path); IsRooted(Dir(path))))
  }

  /** The verdict on a path once every ignore file down to a directory has spoken. */
  predicate Governed(g: Library, read: Reader, path: string, dir: string)
    decreases Depth(dir)
  {
    var sofar := if dir == "." then IsDefaultExcluded(g, path)
        else (DirIsShallower(dir); Governed(g, read, path, Dir(dir)));
    match read(dir)
    case None => sofar
    case Some(lines) => LastWord(g, RelativeTo(path, dir), lines, sofar)
  }

  lemma {:induction false} ChainSnoc(g: Library, read: Reader, path: string, scopes: seq<Scope>, last: Scope,
                                     sofar: bool)
    requires forall s :: s in scopes + [last] ==> s.dir == "." || Depth(s.dir) < Depth(path)
    requires forall s :: s in scopes ==> s.dir == "." || !Excludes(g, read, s.dir)
    ensures forall s :: s in scopes ==> s in scopes + [last]
    ensures ChainExcludes(g, read, path, scopes + [last], sofar) ==
            ((last.dir != "." && Excludes(g, read, last.dir))
             || LastWord(g, RelativeTo(path, last.dir), last.lines, ChainExcludes(g, read, path, scopes, sofar)))
    decreases |scopes|
  {
    hide LastWord, Excludes, RelativeTo, Depth;
    var all := scopes + [last];
    assert last in all;
    if scopes == [] {
      assert all == [last] && all[1..] == [];
      assert last.dir == "." || !Excludes(g, read, last.dir) ==>
               ChainExcludes(g, read, path, all, sofar)
               == ChainExcludes(g, read, path, [], LastWord(g, RelativeTo(path, last.dir), last.lines, sofar));
    } else {
      assert all[0] == scopes[0] && all[1..] == scopes[1..] + [last];
      ChainSnoc(g, read, path, scopes[1..], last, LastWord(g, RelativeTo(path, scopes[0].dir), scopes[0].lines, sofar));
    }
  }

  lemma {:induction false} ScopeDirs(read: Reader, dir: string)
    requires IsRooted(dir)
    ensures forall s :: s in ScopesOf(read, dir) ==> s.dir == "." || s.dir in SelfAndAbove(dir)
    decreases Depth(dir)
  {
    hide Depth, Dir;
    if dir != "." {
      DirIsShallower(dir);
      SelfThenAbove(dir);
      ScopeDirs(read, Dir(dir));
    }
  }

  /** Where no directory on the way is excluded, the chain is the verdict scope by scope. */
  lemma {:induction false} ChainGoverned(g: Library, read: Reader, path: string, dir: string)
    requires IsRooted(dir) && forall a :: a in SelfAndAbove(dir) ==> !Excludes(g, read, a)
    requires forall s :: s in ScopesOf(read, dir) ==> s.dir == "." || Depth(s.dir) < Depth(path)
    ensures ChainExcludes(g, read, path, ScopesOf(read, dir), IsDefaultExcluded(g, path)) ==
              Governed(g, read, path, dir)
    decreases Depth(dir)
  {
    hide Depth, Dir, LastWord, IsDefaultExcluded, Excludes, RelativeTo;
    var above := if dir == "." then [] else (DirIsShallower(dir); ScopesOf(read, Dir(dir)));
    if dir != "." {
      DirIsShallower(dir);
      SelfThenAbove(dir);
      ScopeDirs(read, Dir(dir));
      assert forall s :: s in above ==> s in ScopesOf(read, dir);
      ChainGoverned(g, read, path, Dir(dir));
    }
    if read(dir).Some? {
      ChainSnoc(g, read, path, above, Scope(dir, read(dir).value), IsDefaultExcluded(g, path));
    }
  }

  lemma OpenIsGoverned(g: Library, read: Reader, path: string)
    requires IsRooted(path) && path != "." && forall a :: a in SelfAndAbove(Dir(path)) ==> !Excludes(g, read, a)
    ensures Excludes(g, read, path) == Governed(g, read, path, Dir(path))
  {
    hide Depth, Dir, LastWord, IsDefaultExcluded, ChainExcludes, ScopesOf, Governed;
    DirIsShallower(path);
    ScopesAreAbove(read, path);
    ChainGoverned(g, read, path, Dir(path));
  }

  // ---------------------------------------------------------------- two readers

  /** Two readers give the same lines at a directory and at each one above it. */
  ghost predicate SameAbove(read: Reader, read': Reader, dir: string) {
    read'(".") == read(".") && forall a :: a in SelfAndAbove(dir) ==> read'(a) == read(a)
  }

  lemma {:induction false} ScopesAgree(read: Reader, read': Reader, dir: string)
    requires IsRooted(dir) && SameAbove(read, read', dir)
    ensures ScopesOf(read', dir) == ScopesOf(read, dir)
    decreases Depth(dir)
  {
    hide Depth, Dir;
    if dir != "." {
      DirIsShallower(dir);
      SelfThenAbove(dir);
      ScopesAgree(read, read', Dir(dir));
    }
  }

  lemma {:induction false} ExcludesAgree(g: Library, read: Reader, read': Reader, path: string)
    requires path != "." && IsRooted(Dir(path)) && SameAbove(read, read', Dir(path))
    ensures Excludes(g, read', path) == Excludes(g, read, path)
    decreases Depth(path), 1, 0
  {
    hide Depth, Dir, SelfAndAbove, IsDefaultExcluded, ChainExcludes;
    DirIsShallower(path);
    ScopesAgree(read, read', Dir(path));
    ScopesAreAbove(read, path);
    ScopesAreAbove(read', path);
    ScopeDirs(read, Dir(path));
    ChainAgrees(g, read, read', path, ScopesOf(read, Dir(path)), IsDefaultExcluded(g, path));
  }

  lemma {:induction false} ChainAgrees(g: Library, read: Reader, read': Reader, path: string, scopes: seq<Scope>,
                                       sofar: bool)
    requires path != "." && IsRooted(Dir(path)) && SameAbove(read, read', Dir(path))
    requires forall s :: s in scopes ==> s.dir == "." || Depth(s.dir) < Depth(path)
    requires forall s :: s in scopes ==> s.dir == "." || s.dir in SelfAndAbove(Dir(path))
    ensures ChainExcludes(g, read', path, scopes, sofar) == ChainExcludes(g, read, path, scopes, sofar)
    decreases Depth(path), 0, |scopes|
  {
    hide Depth, Dir, SelfAndAbove, LastWord, Excludes, RelativeTo, IsRooted, SameAbove;
    if scopes != [] {
      var d := scopes[0].dir;
      if d != "." {
        AboveAgrees(read, read', Dir(path), d);
        ExcludesAgree(g, read, read', d);
      }
      ChainAgrees(g, read, read', path, scopes[1..], LastWord(g, RelativeTo(path, d), scopes[0].lines, sofar));
    }
  }

  lemma {:induction false} AboveAgrees(read: Reader, read': Reader, dir: string, a: string)
    requires IsRooted(dir) && SameAbove(read, read', dir) && a in SelfAndAbove(dir)
    ensures a != "." && a != "" && IsRooted(a) && IsRooted(Dir(a)) && SameAbove(read, read', a)
    ensures SameAbove(read, read', Dir(a))
    decreases Depth(dir)
  {
    hide Depth, Dir;
    DirIsShallower(dir);
    SelfThenAbove(dir);
    if a != dir { AboveAgrees(read, read', Dir(dir), a); }
  }

  // ---------------------------------------------------------------- lines that let everything in or out

  const LET_IN := ["!*"]
  const KEEP_OUT := ["*"]

  lemma {:induction false} StarMatches(name: string)
    ensures SegmentMatch("*", name)
  {
    if name != "" {
      StarMatches(name[1..]);
    }
  }

  lemma StarsSay(g: Library, path: string, sofar: bool)
    requires ReadsPlain(g)
    ensures !LastWord(g, path, LET_IN, sofar) && LastWord(g, path, KEEP_OUT, sofar)
  {
    var base := Base(path);
    StarMatches(base);
    SplitSingle("*");
    SplitSingle(base);
    SingleSegment("*", base);
    assert IsPlain("*");
    assert g("*", base) == Yes;
    LineOfOne(g, path, "*", sofar);
    LineOfOne(g, path, "!*", sofar);
    StarLines(g, path);
  }

  lemma LineOfOne(g: Library, path: string, line: string, sofar: bool)
    ensures LastWord(g, path, [line], sofar) == if LineSays(g, path, line).Some? then LineSays(g, path, line).value
              else sofar
  {
    hide LineSays;
    assert [line][..0] == [];
  }

  lemma StarLines(g: Library, path: string)
    requires g("*", Base(path)) == Yes
    ensures LineSays(g, path, "*") == Some(true) && LineSays(g, path, "!*") == Some(false)
  {
    assert "!*"[1..] == "*" && "!*"[..1] == "!" && "*"[..1] == "*" != "!" && "*"[..1] != "/";
    assert "*"[0..] == "*" && '/' !in "*";
    assert TrimPrefix("!*", "!") == "*" && TrimPrefix("*", "!") == "*" && TrimPrefix("*", "/") == "*";
    assert !HasSuffix("*", "/") && !HasSuffix("*", "/**");
  }

  lemma {:induction false} LastWordIsMonotone(g: Library, path: string, lines: seq<string>, sofar: bool, more: bool)
    requires sofar ==> more
    ensures LastWord(g, path, lines, sofar) ==> LastWord(g, path, lines, more)
  {
    hide LineSays;
    if lines != [] { LastWordIsMonotone(g, path, lines[..|lines| - 1], sofar, more); }
  }

  /** The second reader differs from the first, down to a directory, only by letting
      everything in. */
  ghost predicate IsLooser(read: Reader, loose: Reader, dir: string) {
    forall d :: d == "." || d in SelfAndAbove(dir) ==> loose(d) == read(d) || loose(d) == Some(LET_IN)
  }

  lemma {:induction false} GovernedLoosens(g: Library, read: Reader, loose: Reader, path: string, dir: string)
    requires ReadsPlain(g) && IsRooted(dir) && IsLooser(read, loose, dir)
    ensures Governed(g, loose, path, dir) ==> Governed(g, read, path, dir)
    decreases Depth(dir)
  {
    hide Depth, Dir, LastWord, IsDefaultExcluded, RelativeTo, ReadsPlain;
    var over, under := IsDefaultExcluded(g, path), IsDefaultExcluded(g, path);
    if dir != "." {
      DirIsShallower(dir);
      SelfThenAbove(dir);
      GovernedLoosens(g, read, loose, path, Dir(dir));
      over, under := Governed(g, read, path, Dir(dir)), Governed(g, loose, path, Dir(dir));
    }
    StarsSay(g, RelativeTo(path, dir), under);
    if read(dir).Some? { LastWordIsMonotone(g, RelativeTo(path, dir), read(dir).value, under, over); }
  }

  /** Letting more in never shuts out a path nothing on the way excludes. */
  lemma {:induction false} LooserKeepsIn(g: Library, read: Reader, loose: Reader, path: string)
    requires ReadsPlain(g) && IsRooted(path) && path != "." && IsLooser(read, loose, Dir(path))
    requires forall a :: a in SelfAndAbove(path) ==> !Excludes(g, read, a)
    ensures forall a :: a in SelfAndAbove(path) ==> !Excludes(g, loose, a)
    decreases Depth(path)
  {
    hide Depth, Dir, Excludes, Governed, ReadsPlain;
    DirIsShallower(path);
    SelfThenAbove(path);
    if Dir(path) != "." {
      SelfThenAbove(Dir(path));
      LooserKeepsIn(g, read, loose, Dir(path));
    }
    OpenIsGoverned(g, read, path);
    OpenIsGoverned(g, loose, path);
    GovernedLoosens(g, read, loose, path, Dir(path));
  }

  lemma {:induction false} LastScopeShuts(g: Library, read: Reader, path: string, scopes: seq<Scope>, last: Scope,
                                          sofar: bool)
    requires ReadsPlain(g) && last.lines == KEEP_OUT
    requires forall s :: s in scopes + [last] ==> s.dir == "." || Depth(s.dir) < Depth(path)
    ensures ChainExcludes(g, read, path, scopes + [last], sofar)
    decreases |scopes|
  {
    hide LastWord, Excludes, RelativeTo, Depth, ReadsPlain;
    var all := scopes + [last];
    assert last in all;
    if scopes == [] {
      assert all == [last] && all[1..] == [];
      StarsSay(g, RelativeTo(path, last.dir), sofar);
      assert ChainExcludes(g, read, path, [], true);
    } else {
      assert all[0] == scopes[0] && all[1..] == scopes[1..] + [last];
      LastScopeShuts(g, read, path, scopes[1..], last,
                     LastWord(g, RelativeTo(path, scopes[0].dir), scopes[0].lines, sofar));
    }
  }

  lemma ShutExcludes(g: Library, read: Reader, path: string)
    requires ReadsPlain(g) && read(Dir(path)) == Some(KEEP_OUT)
    ensures Excludes(g, read, path)
  {
    hide Depth, IsDefaultExcluded, ReadsPlain;
    ScopesAreAbove(read, path);
    var dir := Dir(path);
    var above := if dir == "." then [] else (DirIsShallower(dir); ScopesOf(read, Dir(dir)));
    assert ScopesOf(read, dir) == above + [Scope(dir, KEEP_OUT)];
    LastScopeShuts(g, read, path, above, Scope(dir, KEEP_OUT), IsDefaultExcluded(g, path));
  }
}
