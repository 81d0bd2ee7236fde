/** What an ignore line says of a path, and what the built-in lists hold, said of names alone:
    lines that name a file or a directory, in every spelling, and the names never published. */
module IgnoreLaws {
  import opened Wrappers
  import opened Paths
  import opened Glob
  import opened Ignore
  import opened FilesFieldLaws
  import opened PackRules
  import opened PackWalk
  import opened PackManifest

  // ---------------------------------------------------------------- lines

  /** A name or a path a line may give as it is. */
  predicate IsIgnorable(x: string) {
    IsLiteral(x) && x[0] != '!'
  }

  /** A line without a slash speaks of every path of that name, others of the one path. */
  predicate IsNamedBy(x: string, path: string) {
    path == x || ('/' !in x && Base(path) == x)
  }

  function Saying(speaks: bool, excluded: bool): Option<bool> {
    if speaks then Some(excluded) else None
  }

  lemma IgnorableParts(x: string)
    requires IsIgnorable(x)
    ensures IsPlain(x) && '*' !in x && '?' !in x
    ensures x != "" && x[0] != '/' && x[0] != '!' && x[|x| - 1] != '/'
    ensures !HasPrefix(x, "!") && !HasPrefix(x, "/") && !HasSuffix(x, "/") && !HasSuffix(x, "/**")
    ensures TrimPrefix(x, "!") == x && TrimPrefix(x, "/") == x
  {
    hide IsPlain;
    NoBareSegment(x);
  }

  /** How a line that names a path is matched, negated or not, anchored or not. */
  lemma LiteralPattern(g: Library, path: string, x: string, anchored: bool, negated: bool)
    requires ReadsPlain(g) && IsIgnorable(x)
    ensures MatchesIgnorePattern(g, path, Base(path), x, anchored, negated) <==>
              (if anchored then path == x else IsNamedBy(x, path)) || (!negated && Under(path, x))
  {
    hide ReadsPlain, IsPlain, IsIgnorable, Base, HasSuffix;
    IgnorableParts(x);
    LiteralMatches(g, x, path);
    LiteralMatches(g, x, Base(path));
  }

  /** A line giving a name excludes whatever has that name, wherever it is, and what lies beneath
      the path it gives; a leading slash anchors it; with a bang it takes the path back alone. */
  lemma NameLines(g: Library, path: string, x: string)
    requires ReadsPlain(g) && IsIgnorable(x)
    ensures LineSays(g, path, x) == Saying(IsNamedBy(x, path) || Under(path, x), true)
    ensures LineSays(g, path, "/" + x) == Saying(Under(path, x), true)
    ensures LineSays(g, path, "!" + x) == Saying(IsNamedBy(x, path), false)
    ensures LineSays(g, path, "!/" + x) == Saying(path == x, false)
  {
    hide ReadsPlain, IsIgnorable, MatchesIgnorePattern, IsNamedBy, Base;
    IgnorableParts(x);
    LiteralPattern(g, path, x, false, false);
    LiteralPattern(g, path, x, true, false);
    LiteralPattern(g, path, x, false, true);
    LiteralPattern(g, path, x, true, true);
    assert ("/" + x)[1..] == x && ("!" + x)[1..] == x && ("!/" + x)[1..] == "/" + x;
    assert ("/" + x)[..1] == "/" && ("!" + x)[..1] == "!" && ("!/" + x)[..1] == "!";
  }

  /** A trailing slash makes it a directory: the path and all beneath it, and with a bang the
      path alone. */
  lemma DirectoryLines(g: Library, path: string, x: string)
    requires IsIgnorable(x)
    ensures LineSays(g, path, x + "/") == Saying(Under(path, x), true)
    ensures LineSays(g, path, "/" + x + "/") == Saying(Under(path, x), true)
    ensures LineSays(g, path, "!" + x + "/") == Saying(path == x, false)
  {
    hide IsIgnorable, LineSays;
    IgnorableParts(x);
    var d := x + "/";
    assert d[0] == x[0] && d[..1] == x[..1];
    assert ("/" + x + "/")[1..] == d && ("!" + x + "/")[1..] == d;
    assert ("/" + x + "/")[..1] == "/" && ("!" + x + "/")[..1] == "!";
    DirectoryLine(g, path, d, x);
    DirectoryLine(g, path, "/" + x + "/", x);
    DirectoryLine(g, path, "!" + x + "/", x);
  }

  lemma DirectoryLine(g: Library, path: string, line: string, x: string)
    requires x != "" && TrimPrefix(TrimPrefix(line, "!"), "/") == x + "/"
    ensures LineSays(g, path, line) == if HasPrefix(line, "!") then Saying(path == x, false)
              else Saying(Under(path, x), true)
  {
    hide MatchesIgnorePattern, HasPrefix;
    var d := x + "/";
    assert d[..|x|] == x && d[|x|..] == "/" && HasSuffix(d, "/") && TrimSuffix(d, "/") == x;
  }

  /** So does a final double star. */
  lemma SubtreeLines(g: Library, path: string, x: string)
    requires IsIgnorable(x)
    ensures LineSays(g, path, x + "/**") == Saying(Under(path, x), true)
    ensures LineSays(g, path, "!" + x + "/**") == Saying(path == x, false)
  {
    hide IsIgnorable, LineSays;
    IgnorableParts(x);
    var s := x + "/**";
    assert s[0] == x[0] && s[..1] == x[..1];
    assert ("!" + x + "/**")[1..] == s && ("!" + x + "/**")[..1] == "!";
    SubtreeLine(g, path, s, x);
    SubtreeLine(g, path, "!" + x + "/**", x);
  }

  lemma SubtreeLine(g: Library, path: string, line: string, x: string)
    requires TrimPrefix(TrimPrefix(line, "!"), "/") == x + "/**"
    ensures LineSays(g, path, line) == if HasPrefix(line, "!") then Saying(path == x, false)
              else Saying(Under(path, x), true)
  {
    hide HasPrefix;
    var s := x + "/**";
    assert s[..|x|] == x && s[|x|..] == "/**" && HasSuffix(s, "/**") && TrimSuffix(s, "/**") == x;
    assert s[|s| - 1] == '*' && !HasSuffix(s, "/");
  }

  lemma {:induction false} StarThenSuffix(suffix: string, name: string)
    requires '*' !in suffix && '?' !in suffix
    ensures SegmentMatch("*" + suffix, name) <==> HasSuffix(name, suffix)
    decreases |name|
  {
    var p := "*" + suffix;
    assert p[0] == '*' && p[1..] == suffix;
    LiteralSegment(suffix, name);
    if name != "" {
      StarThenSuffix(suffix, name[1..]);
      if |suffix| < |name| { assert name[|name| - |suffix|..] == name[1..][|name| - 1 - |suffix|..]; }
    }
  }

  lemma EndingMatches(g: Library, name: string, suffix: string)
    requires ReadsPlain(g) && IsPlain(suffix) && '*' !in suffix && '?' !in suffix && '/' !in suffix && suffix != ""
    requires '/' !in name
    ensures g("*" + suffix, name) == Yes <==> HasSuffix(name, suffix)
  {
    hide ReadsPlain, SegmentsMatch, Split, SegmentMatch, HasSuffix;
    var p := "*" + suffix;
    assert IsPlain(p) && p[1] == suffix[0] && suffix[0] in suffix && '*' in "**" && "**"[1] == '*';
    SingleSegment(p, name);
    StarThenSuffix(suffix, name);
    PlainIsRead(g, p, name);
  }

  lemma PlainIsRead(g: Library, p: string, name: string)
    requires ReadsPlain(g) && IsPlain(p)
    ensures g(p, name) == Yes <==> SegmentsMatch(Split(p), Split(name))
  {
    hide SegmentsMatch, Split, IsPlain;
  }

  /** A star and an ending exclude every name with that ending. */
  lemma EndingLines(g: Library, path: string, suffix: string)
    requires ReadsPlain(g) && IsPlain(suffix) && '*' !in suffix && '?' !in suffix && '/' !in suffix && suffix != ""
    ensures LineSays(g, path, "*" + suffix) == Saying(HasSuffix(Base(path), suffix) || Under(path, "*" + suffix), true)
  {
    hide ReadsPlain, Base, IsPlain;
    var p := "*" + suffix;
    BaseIsOneName(path);
    EndingMatches(g, Base(path), suffix);
    EndingIsNoSubtree(suffix);
    if path == p {
      BaseOfName(p);
      assert p[|p| - |suffix|..] == suffix;
    }
  }

  lemma EndingIsNoSubtree(suffix: string)
    requires '*' !in suffix && '/' !in suffix && suffix != ""
    ensures var p := "*" + suffix;
            && '/' !in p && !HasSuffix(p, "/") && !HasSuffix(p, "/**") && !HasPrefix(p, "!") && !HasPrefix(p, "/")
  {
    var p := "*" + suffix;
    assert p[..1] == "*" && p[|p| - 1] == suffix[|suffix| - 1] && suffix[|suffix| - 1] in suffix;
    assert "/**"[2] == '*' && (|p| >= 3 ==> p[|p| - 3..][2] == p[|p| - 1]);
  }

  lemma BaseIsOneName(path: string)
    ensures '/' !in Base(path)
  {
    var i := LastSlash(path);
    assert forall k :: 0 <= k < |Base(path)| ==> Base(path)[k] == path[i + 1 + k];
  }

  lemma BaseOfName(name: string)
    requires '/' !in name
    ensures Base(name) == name
  {
    assert LastSlash(name) == -1;
  }

  /** The last line that says anything of a path decides, whatever was decided before. */
  lemma {:induction false} LastLineDecides(g: Library, path: string, lines: seq<string>, sofar: bool, i: nat,
                                           excluded: bool)
    requires i < |lines| && LineSays(g, path, lines[i]) == Some(excluded)
    requires forall j :: i < j < |lines| ==> LineSays(g, path, lines[j]).None?
    ensures LastWord(g, path, lines, sofar) == excluded
  {
    hide LineSays;
    if i + 1 < |lines| { LastLineDecides(g, path, lines[..|lines| - 1], sofar, i, excluded); }
  }

  // ---------------------------------------------------------------- an ignore file's own directory

  /** The only ignore file is that of one directory. */
  function OnlyIn(dir: string, lines: seq<string>): Reader {
    d => if d == dir then Some(lines) else None
  }

  lemma {:induction false} OneScope(dir: string, lines: seq<string>, below: string)
    requires IsName(dir) && Under(below, dir)
    ensures ScopesOf(OnlyIn(dir, lines), below) == [Scope(dir, lines)]
    decreases Depth(below)
  {
    hide Depth;
    var read := OnlyIn(dir, lines);
    assert ScopesOf(read, ".") == [];
    if below == dir {
      NameIsAtTheRoot(dir);
      assert [] + [Scope(dir, lines)] == [Scope(dir, lines)];
    } else {
      DirStaysUnder(below, dir);
      DirIsShallower(below);
      OneScope(dir, lines, Dir(below));
    }
  }

  lemma NameIsAtTheRoot(name: string)
    requires IsName(name)
    ensures Dir(name) == "." && name != "."
  {
    assert LastSlash(name) == -1;
  }

  lemma DirStaysUnder(path: string, dir: string)
    requires path != dir && Under(path, dir) && dir != "." && '/' !in dir
    ensures Under(Dir(path), dir) && path != "."
  {
    assert path[|dir|] == '/' && LastSlash(path) >= |dir|;
    if LastSlash(path) > |dir| { assert Dir(path)[..|dir| + 1] == path[..|dir| + 1]; }
  }

  /** An ignore file's lines are read against its own directory: what they say of a path in it
      is what they say of the path from there on. */
  lemma LinesAreRelative(g: Library, dir: string, lines: seq<string>, rest: string)
    requires IsName(dir)
    ensures Excludes(g, OnlyIn(dir, lines), dir + "/" + rest) <==>
              IsDefaultExcluded(g, dir) || LastWord(g, rest, lines, IsDefaultExcluded(g, dir + "/" + rest))
  {
    hide IsDefaultExcluded, LastWord, Depth, LastSlash;
    var read, path := OnlyIn(dir, lines), dir + "/" + rest;
    assert path[..|dir| + 1] == dir + "/" && path[|dir| + 1..] == rest;
    NameIsAtTheRoot(dir);
    DirStaysUnder(path, dir);
    OneScope(dir, lines, Dir(path));
    ScopesAreAbove(read, path);
    ScopesAreAbove(read, dir);
    assert ScopesOf(read, ".") == [];
    assert Excludes(g, read, dir) == IsDefaultExcluded(g, dir);
    var scopes := [Scope(dir, lines)];
    assert scopes[1..] == [] && scopes[0].dir != "." && RelativeTo(path, dir) == rest;
    var sofar := IsDefaultExcluded(g, path);
    assert Excludes(g, read, path) == ChainExcludes(g, read, path, scopes, sofar);
    var said := LastWord(g, rest, lines, sofar);
    assert ChainExcludes(g, read, path, [], said) == said;
    assert !Excludes(g, read, dir) ==>
        ChainExcludes(g, read, path, scopes, sofar) == ChainExcludes(g, read, path, [], said);
  }

  // ---------------------------------------------------------------- the built-in lists

  /** The names no package publishes, wherever they stand. */
  const NEVER_PUBLISHED: seq<string> := [
    ".git", ".gitignore", ".gitattributes", ".gitmodules", ".hg", ".svn", "CVS", ".DS_Store", ".npmrc", "node_modules",
    "package-lock.json", "yarn.lock", "pnpm-lock.yaml", "bun.lockb", ".lnpm", "lnpm.lock", "lnpm.lock.retreat",
    ".yalc", "yalc.lock"]

  /** The names a package publishes only if asked to. */
  const PUBLISHED_IF_ASKED: seq<string> := [".npmignore", "Thumbs.db", ".env"]

  const ENDINGS_IF_ASKED: seq<string> := [".log", ".swp", ".swo", "~", ".tgz"]

  lemma NoBangNoReturn(g: Library, path: string, line: string)
    requires !HasPrefix(line, "!")
    ensures LineSays(g, path, line) != Some(false)
  {
    hide MatchesIgnorePattern, HasSuffix, Base;
  }

  lemma {:induction false} ExcludedByOne(g: Library, path: string, lines: seq<string>, i: nat, sofar: bool)
    requires i < |lines| && LineSays(g, path, lines[i]) == Some(true)
    requires forall j :: 0 <= j < |lines| ==> !HasPrefix(lines[j], "!")
    ensures LastWord(g, path, lines, sofar)
  {
    hide LineSays;
    var n := |lines| - 1;
    NoBangNoReturn(g, path, lines[n]);
    if i < n { ExcludedByOne(g, path, lines[..n], i, sofar); }
  }

  lemma NoBangs()
    ensures forall i :: 0 <= i < |LowerAll(HARD_RESERVED)| ==> !HasPrefix(LowerAll(HARD_RESERVED)[i], "!")
    ensures forall i :: 0 <= i < |LowerAll(DEFAULT_EXCLUDES)| ==> !HasPrefix(LowerAll(DEFAULT_EXCLUDES)[i], "!")
  {
    hide MissesManifest;
    ListsMissManifest();
    forall i | 0 <= i < |HARD_RESERVED| ensures !HasPrefix(Lower(HARD_RESERVED[i]), "!") {
      MissesHaveNoBang(Lower(HARD_RESERVED[i]));
    }
    forall i | 0 <= i < |DEFAULT_EXCLUDES| ensures !HasPrefix(Lower(DEFAULT_EXCLUDES[i]), "!") {
      MissesHaveNoBang(Lower(DEFAULT_EXCLUDES[i]));
    }
  }

  lemma MissesHaveNoBang(line: string)
    requires MissesManifest(line)
    ensures !HasPrefix(line, "!") && line != "" && IsPlain(line)
  {
    hide IsPlain;
    assert line[..1] == [line[0]];
  }

  lemma {:induction false} MatchesItself(name: string)
    ensures SegmentMatch(name, name)
    decreases |name|
  {
    if name != "" { MatchesItself(name[1..]); }
  }

  lemma {:induction false} LastSlashLowered(s: string)
    ensures LastSlash(Lower(s)) == LastSlash(s)
    decreases |s|
  {
    assert forall c: char :: LowerChar(c) == '/' <==> c == '/';
    if s != "" {
      LastSlashLowered(s[..|s| - 1]);
      assert Lower(s)[..|s| - 1] == Lower(s[..|s| - 1]);
    }
  }

  lemma BaseLowered(s: string)
    ensures Base(Lower(s)) == Lower(Base(s)) && ('/' in Lower(s) <==> '/' in s)
  {
    hide LastSlash;
    LastSlashLowered(s);
    SlashLowered(s);
    LowerDrop(s, LastSlash(s) + 1);
  }

  lemma LowerDrop(s: string, n: nat)
    requires n <= |s|
    ensures Lower(s)[n..] == Lower(s[n..])
  {
    var a, b := Lower(s)[n..], Lower(s[n..]);
    forall k | 0 <= k < |a| ensures a[k] == b[k] { assert s[n..][k] == s[n + k]; }
  }

  lemma SlashLowered(s: string)
    ensures '/' in Lower(s) <==> '/' in s
  {
    var l := Lower(s);
    if i :| 0 <= i < |s| && s[i] == '/' { assert l[i] == '/'; }
    if i :| 0 <= i < |l| && l[i] == '/' { assert LowerChar(s[i]) == '/' && s[i] == '/'; }
  }

  /** A line that is a name speaks of the paths of that name. */
  lemma NameSpeaks(g: Library, path: string, line: string)
    requires ReadsPlain(g) && MissesManifest(line) && '/' !in line && line != "**" && Base(path) == line
    ensures LineSays(g, path, line) == Some(true)
  {
    hide ReadsPlain, IsPlain, SegmentsMatch, Split, LastSlash, MissesManifest;
    MissesHaveNoBang(line);
    MatchesItself(line);
    SingleSegment(line, line);
    PlainIsRead(g, line, line);
    SlashlessEnds(line);
  }

  lemma SlashlessEnds(line: string)
    requires '/' !in line && line != ""
    ensures !HasSuffix(line, "/") && !HasSuffix(line, "/**") && !HasPrefix(line, "/")
  {
    assert line[|line| - 1] in line && line[0] in line;
    if |line| >= 3 { assert line[|line| - 3] in line && line[|line| - 3..][0] == line[|line| - 3]; }
  }

  lemma ReservedAt(k: nat) returns (i: nat)
    requires k < |NEVER_PUBLISHED|
    ensures i < |HARD_RESERVED| && HARD_RESERVED[i] == NEVER_PUBLISHED[k]
    ensures '/' !in HARD_RESERVED[i] && HARD_RESERVED[i] != "**"
  {
    var at := [0, 2, 3, 4, 5, 7, 9, 11, 12, 13, 16, 17, 18, 19, 20, 22, 23, 24, 26];
    i := at[k];
  }

  /** A path one of whose names is never published, in any casing, is packed by no pack. */
  lemma ReservedNamesNeverShip(rules: Rules, root: Tree, path: string, a: string, k: nat)
    requires ReadsPlain(rules.g) && (root.Folder? ==> IsNamedWell(root.entries))
    requires a in SelfAndAbove(path) && k < |NEVER_PUBLISHED| && Lower(Base(a)) == Lower(NEVER_PUBLISHED[k])
    ensures Collected(rules, root).Some? ==> path !in Collected(rules, root).value
  {
    hide ReadsPlain, Collected, SelfAndAbove, IsHardReserved, Base, Lower, IsNamedWell;
    NameIsReserved(rules.g, a, k);
    if Collected(rules, root).Some? && path in Collected(rules, root).value {
      HardReservedNeverShips(rules, root, path);
    }
  }

  lemma NameIsReserved(g: Library, a: string, k: nat)
    requires ReadsPlain(g) && k < |NEVER_PUBLISHED| && Lower(Base(a)) == Lower(NEVER_PUBLISHED[k])
    ensures IsHardReserved(g, a)
  {
    hide ReadsPlain, Base, LineSays, LastWord, MissesManifest;
    var i := ReservedAt(k);
    BaseLowered(a);
    BaseLowered(HARD_RESERVED[i]);
    ListsMissManifest();
    NoBangs();
    LoweredStars(HARD_RESERVED[i]);
    NameSpeaks(g, Lower(a), Lower(HARD_RESERVED[i]));
    ExcludedByOne(g, Lower(a), LowerAll(HARD_RESERVED), i, false);
  }

  lemma LoweredStars(s: string)
    ensures Lower(s) == "**" ==> s == "**"
  {
    assert forall c: char :: LowerChar(c) == '*' <==> c == '*';
    if Lower(s) == "**" { assert Lower(s)[0] == '*' && Lower(s)[1] == '*'; }
  }

  lemma DefaultNameAt(k: nat) returns (i: nat)
    requires k < |PUBLISHED_IF_ASKED|
    ensures i < |DEFAULT_EXCLUDES| && DEFAULT_EXCLUDES[i] == PUBLISHED_IF_ASKED[k]
    ensures '/' !in DEFAULT_EXCLUDES[i] && DEFAULT_EXCLUDES[i] != "**"
  {
    var at := [0, 1, 6];
    i := at[k];
  }

  lemma DefaultEndingAt(k: nat) returns (i: nat)
    requires k < |ENDINGS_IF_ASKED|
    ensures i < |DEFAULT_EXCLUDES| && Lower(DEFAULT_EXCLUDES[i]) == "*" + Lower(ENDINGS_IF_ASKED[k])
    ensures var s := Lower(ENDINGS_IF_ASKED[k]);
            IsPlain(s) && '*' !in s && '?' !in s && '/' !in s && s != ""
  {
    var at := [2, 3, 4, 5, 8];
    i := at[k];
  }

  /** Those names and endings, in any casing, are default-excluded. */
  lemma NamesAreDefaultExcluded(g: Library, a: string, k: nat)
    requires ReadsPlain(g)
    ensures k < |PUBLISHED_IF_ASKED| && Lower(Base(a)) == Lower(PUBLISHED_IF_ASKED[k]) ==> IsDefaultExcluded(g, a)
    ensures k < |ENDINGS_IF_ASKED| && HasSuffix(Lower(Base(a)), Lower(ENDINGS_IF_ASKED[k])) ==> IsDefaultExcluded(g, a)
  {
    hide ReadsPlain, Base, LineSays, LastWord, MissesManifest;
    BaseLowered(a);
    ListsMissManifest();
    NoBangs();
    if k < |PUBLISHED_IF_ASKED| && Lower(Base(a)) == Lower(PUBLISHED_IF_ASKED[k]) {
      var i := DefaultNameAt(k);
      BaseLowered(DEFAULT_EXCLUDES[i]);
      LoweredStars(DEFAULT_EXCLUDES[i]);
      NameSpeaks(g, Lower(a), Lower(DEFAULT_EXCLUDES[i]));
      ExcludedByOne(g, Lower(a), LowerAll(DEFAULT_EXCLUDES), i, false);
    }
    if k < |ENDINGS_IF_ASKED| && HasSuffix(Lower(Base(a)), Lower(ENDINGS_IF_ASKED[k])) {
      var i := DefaultEndingAt(k);
      EndingLines(g, Lower(a), Lower(ENDINGS_IF_ASKED[k]));
      ExcludedByOne(g, Lower(a), LowerAll(DEFAULT_EXCLUDES), i, false);
    }
  }
}
