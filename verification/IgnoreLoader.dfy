/** The loader that answers for ignore files with memo tables, and the one that answers for
    the default set: whatever was asked before, each answer is the plain definition's. */
module IgnoreLoader {
  import opened Wrappers
  import opened Paths
  import opened Glob
  import opened Ignore

  predicate Distinct(names: seq<string>) {
    forall i, j :: 0 <= i < j < |names| ==> names[i] != names[j]
  }

  /** Remembered scopes are the definition's, and theirs are the files read, each once. */
  ghost predicate Remembers(read: Reader, cache: map<string, seq<Scope>>, filesRead: seq<string>) {
    && (forall d :: d in cache ==> cache[d] == ScopesOf(read, d))
    && Distinct(filesRead) && forall d :: d in filesRead <==> d in cache
  }

  lemma RemembersTruly(read: Reader, cache: map<string, seq<Scope>>, filesRead: seq<string>, dir: string)
    requires Remembers(read, cache, filesRead)
    ensures dir in cache ==> cache[dir] == ScopesOf(read, dir)
  {
    hide ScopesOf;
  }

  lemma RemembersOneMore(read: Reader, cache: map<string, seq<Scope>>, filesRead: seq<string>, dir: string)
    requires Remembers(read, cache, filesRead) && dir !in cache
    ensures Remembers(read, cache[dir := ScopesOf(read, dir)], filesRead + [dir])
  {
    hide ScopesOf;
  }

  class Loader {
    const g: Library
    const read: Reader
    var cache: map<string, seq<Scope>>
    var dirVerdicts: map<string, bool>
    ghost var filesRead: seq<string>

    /** Every remembered answer is the definition's, and each directory's ignore file was
        read once if its scopes are remembered and not at all otherwise. */
    ghost predicate Valid()
      reads this
    {
      && Remembers(read, cache, filesRead)
      && forall d :: d in dirVerdicts ==> dirVerdicts[d] == Excludes(g, read, d)
    }

    constructor (g: Library, read: Reader)
      ensures Valid() && this.g == g && this.read == read && filesRead == []
    {
      this.g, this.read, cache, dirVerdicts, filesRead := g, read, map[], map[], [];
    }

    method Scopes(dir: string) returns (scopes: seq<Scope>)
      requires Valid()
      modifies this`cache, this`filesRead
      ensures Valid() && scopes == ScopesOf(read, dir)
      ensures old(filesRead) <= filesRead
      ensures forall d :: d in cache && d !in old(cache) ==> Depth(d) <= Depth(dir)
      decreases Depth(dir)
    {
      hide Excludes, Remembers, Slashes, LastSlash;
      RemembersTruly(read, cache, filesRead, dir);
      if dir in cache {
        return cache[dir];
      }
      scopes := [];
      if dir != "." {
        DirIsShallower(dir);
        scopes := Scopes(Dir(dir));
      }
      var lines := read(dir);
      if lines.Some? {
        scopes := scopes + [Scope(dir, lines.value)];
      }
      RemembersOneMore(read, cache, filesRead, dir);
      cache, filesRead := cache[dir := scopes], filesRead + [dir];
    }

    method Excluded(path: string) returns (excluded: bool)
      requires Valid()
      modifies this
      ensures Valid() && excluded == Excludes(g, read, path) && old(filesRead) <= filesRead
      decreases Depth(path), 1
    {
      hide IsDefaultExcluded, LastWord;
      excluded := IsDefaultExcluded(g, path);
      var scopes := Scopes(Dir(path));
      ScopesAreAbove(read, path);
      for i := 0 to |scopes|
        invariant Valid() && old(filesRead) <= filesRead
        invariant Excludes(g, read, path) == ChainExcludes(g, read, path, scopes[i..], excluded)
      {
        var scope := scopes[i];
        assert scopes[i..][0] == scope && scopes[i..][1..] == scopes[i + 1..];
        if scope.dir != "." {
          var gone := DirExcluded(scope.dir);
          if gone {
            return true;
          }
        }
        excluded := ApplyIgnorePatterns(g, RelativeTo(path, scope.dir), scope.lines, excluded);
      }
    }

    method DirExcluded(dir: string) returns (verdict: bool)
      requires Valid()
      modifies this
      ensures Valid() && verdict == Excludes(g, read, dir) && old(filesRead) <= filesRead
      decreases Depth(dir), 2
    {
      hide Excludes, Remembers, Slashes;
      if dir in dirVerdicts {
        return dirVerdicts[dir];
      }
      verdict := Excluded(dir);
      dirVerdicts := dirVerdicts[dir := verdict];
    }

    /** Any run of questions, in any order and with repeats: every answer is the
        definition's, and no directory's ignore file is read twice. */
    method AnswerAll(paths: seq<string>) returns (answers: seq<bool>)
      requires Valid()
      modifies this
      ensures Valid() && Distinct(filesRead)
      ensures |answers| == |paths| && forall i :: 0 <= i < |paths| ==> answers[i] == Excludes(g, read, paths[i])
    {
      hide Excludes, ScopesOf;
      answers := [];
      for i := 0 to |paths|
        invariant Valid() && |answers| == i
        invariant forall k :: 0 <= k < i ==> answers[k] == Excludes(g, read, paths[k])
      {
        var answer := Excluded(paths[i]);
        answers := answers + [answer];
      }
    }
  }

  class DefaultExcludedTree {
    const g: Library
    var dirVerdicts: map<string, bool>

    ghost predicate Valid()
      reads this
    {
      forall d :: d in dirVerdicts ==> dirVerdicts[d] == IsCovered(g, d)
    }

    constructor (g: Library)
      ensures Valid() && this.g == g
    {
      this.g, dirVerdicts := g, map[];
    }

    method Covers(path: string) returns (covered: bool)
      requires Valid() && path != "." && path != ""
      modifies this
      ensures Valid() && covered == IsCovered(g, path)
    {
      hide IsDefaultExcluded;
      CoveredStep(g, path);
      covered := IsDefaultExcluded(g, path);
      if !covered {
        covered := DirCovers(Dir(path));
      }
    }

    method DirCovers(dir: string) returns (verdict: bool)
      requires Valid()
      modifies this
      ensures Valid() && verdict == IsCovered(g, dir)
      decreases Depth(dir)
    {
      hide IsDefaultExcluded;
      if dir == "." || dir == "" {
        return false;
      }
      if dir in dirVerdicts {
        return dirVerdicts[dir];
      }
      DirIsShallower(dir);
      CoveredStep(g, dir);
      verdict := IsDefaultExcluded(g, dir);
      if !verdict {
        verdict := DirCovers(Dir(dir));
      }
      dirVerdicts := dirVerdicts[dir := verdict];
    }
  }
}
