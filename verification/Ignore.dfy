/** Exclusion rules: gitignore-style patterns where the last match decides, the built-in
    lists, and what the ignore files above a path say of it. */
module Ignore {
  import opened Wrappers
  import opened Paths
  import opened Glob

  // ---------------------------------------------------------------- one pattern list

  predicate MatchesIgnorePattern(g: Library, path: string, baseName: string, pattern: string, anchored: bool,
                                 negated: bool) {
    if HasSuffix(pattern, "/**") then
      var prefix := TrimSuffix(pattern, "/**");
      path == prefix || (!negated && HasPrefix(path, prefix + "/"))
    else
      || pattern == path
      || (if !anchored && '/' !in pattern then g(pattern, baseName) == Yes else g(pattern, path) == Yes)
      || (!negated && HasPrefix(path, pattern + "/"))
  }

  /** What one line of an ignore file says of a path: excluded, re-included, or nothing. */
  function LineSays(g: Library, path: string, line: string): Option<bool> {
    var negated := HasPrefix(line, "!");
    var unnegated := TrimPrefix(line, "!");
    var anchored := HasPrefix(unnegated, "/");
    var pattern := TrimPrefix(unnegated, "/");
    if HasSuffix(pattern, "/") then
      var dir := TrimSuffix(pattern, "/");
      if dir != "" && (path == dir || (!negated && HasPrefix(path, dir + "/"))) then Some(!negated) else None
    else if pattern != "" && MatchesIgnorePattern(g, path, Base(path), pattern, anchored, negated) then Some(!negated)
    else None
  }

  /** The last line that says anything decides; none leaves the verdict so far. */
  function LastWord(g: Library, path: string, lines: seq<string>, sofar: bool): bool {
    if lines == [] then sofar
    else
      match LineSays(g, path, lines[|lines| - 1])
      case Some(excluded) => excluded
      case None => LastWord(g, path, lines[..|lines| - 1], sofar)
  }

  /** The loop that carries a verdict from line to line. */
  method ApplyIgnorePatterns(g: Library, path: string, lines: seq<string>, sofar: bool) returns (excluded: bool)
    ensures excluded == LastWord(g, path, lines, sofar)
  {
    excluded := sofar;
    for i := 0 to |lines|
      invariant excluded == LastWord(g, path, lines[..i], sofar)
    {
      assert lines[..i + 1][..i] == lines[..i];
      var said := LineSays(g, path, lines[i]);
      if said.Some? {
        excluded := said.value;
      }
    }
    assert lines[..|lines|] == lines;
  }

  predicate IsExcluded(g: Library, path: string, lines: seq<string>) {
    LastWord(g, path, lines, false)
  }

  // ---------------------------------------------------------------- built-in lists

  const HARD_RESERVED: seq<string> := [
    ".git", ".git/**", ".gitignore", ".gitattributes", ".gitmodules", ".hg", ".hg/**", ".svn", ".svn/**", "CVS",
    "CVS/**",
    ".DS_Store", ".npmrc", "node_modules", "node_modules/**", "*.orig", "package-lock.json", "yarn.lock",
    "pnpm-lock.yaml",
    "bun.lockb", ".lnpm", ".lnpm/**", "lnpm.lock", "lnpm.lock.retreat", ".yalc", ".yalc/**", "yalc.lock"]

  const DEFAULT_EXCLUDES: seq<string> := [
    ".npmignore", "Thumbs.db", "*.log", "*.swp", "*.swo", "*~", ".env", ".env.*", "*.tgz"]

  function LowerAll(patterns: seq<string>): seq<string> {
    seq(|patterns|, i requires 0 <= i < |patterns| => Lower(patterns[i]))
  }

  /** The set nothing overrides, matched without regard to case. */
  predicate IsHardReserved(g: Library, path: string) {
    IsExcluded(g, Lower(path), LowerAll(HARD_RESERVED))
  }

  /** The set a "files" entry naming the path or a negated ignore line overrides. */
  predicate IsDefaultExcluded(g: Library, path: string) {
    IsExcluded(g, Lower(path), LowerAll(DEFAULT_EXCLUDES))
  }

  /** A path and the directories above it, below the package root. */
  function SelfAndAbove(path: string): seq<string>
    decreases Depth(path)
  {
    if path == "." || path == "" then []
    else
      DirIsShallower(path);
      [path] + SelfAndAbove(Dir(path))
  }

  /** Whether a path or a directory above it is default-excluded. */
  predicate IsCovered(g: Library, path: string) {
    exists a :: a in SelfAndAbove(path) && IsDefaultExcluded(g, a)
  }

  lemma CoveredStep(g: Library, path: string)
    requires path != "." && path != ""
    ensures IsCovered(g, path) <==> IsDefaultExcluded(g, path) || IsCovered(g, Dir(path))
  {
    hide IsDefaultExcluded;
    DirIsShallower(path);
    assert path in SelfAndAbove(path);
    assert forall a :: a in SelfAndAbove(path) <==> a == path || a in SelfAndAbove(Dir(path));
  }

  // ---------------------------------------------------------------- the chain of ignore files

  /** One ignore file's lines and the directory they are read against. */
  datatype Scope = Scope(dir: string, lines: seq<string>)

  /** The lines of each directory's ignore file, None where it has none. */
  type Reader = string -> Option<seq<string>>

  /** The ignore files governing a directory's contents, shallowest first. */
  function ScopesOf(read: Reader, dir: string): (scopes: seq<Scope>)
    ensures forall s :: s in scopes ==> s.dir == "." || Depth(s.dir) <= Depth(dir)
    decreases Depth(dir)
  {
    var above := if dir == "." then [] else (DirIsShallower(dir); ScopesOf(read, Dir(dir)));
    match read(dir)
    case None => above
    case Some(lines) => above + [Scope(dir, lines)]
  }

  function RelativeTo(path: string, dir: string): string {
    if dir == "." then path else TrimPrefix(path, dir + "/")
  }

  /** Whether the ignore files above a path exclude it, the default set speaking first. */
  predicate Excludes(g: Library, read: Reader, path: string)
    decreases Depth(path), 1, 0
  {
    ScopesAreAbove(read, path);
    ChainExcludes(g, read, path, ScopesOf(read, Dir(path)), IsDefaultExcluded(g, path))
  }

  /** The verdict carried down a chain of scopes; one whose own directory is excluded ends it. */
  predicate ChainExcludes(g: Library, read: Reader, path: string, scopes: seq<Scope>, sofar: bool)
    requires forall s :: s in scopes ==> s.dir == "." || Depth(s.dir) < Depth(path)
    decreases Depth(path), 0, |scopes|
  {
    if scopes == [] then sofar
    else if scopes[0].dir != "." && Excludes(g, read, scopes[0].dir) then true
    else ChainExcludes(g, read, path, scopes[1..], LastWord(g, RelativeTo(path, scopes[0].dir), scopes[0].lines, sofar))
  }

  lemma DepthZero(p: string)
    ensures Depth(p) == 0 <==> p == "."
  {
  }

  lemma ScopesAreAbove(read: Reader, path: string)
    ensures forall s :: s in ScopesOf(read, Dir(path)) ==> s.dir == "." || Depth(s.dir) < Depth(path)
  {
    if path == "." {
      forall s | s in ScopesOf(read, Dir(path)) ensures s.dir == "." { DepthZero(s.dir); }
    } else {
      DirIsShallower(path);
    }
  }
}
