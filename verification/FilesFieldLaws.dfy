/** What the "files" field of a manifest ships, said of paths alone: entries that name a file or
    a directory, or sweep one, whatever the glob library makes of other patterns. */
module FilesFieldLaws {
  import opened Wrappers
  import opened Paths
  import opened Glob
  import opened Ignore
  import opened FilesField
  import opened PackRules
  import opened PackWalk

  // ---------------------------------------------------------------- plain names

  /** A path written without wildcards, and without the slashes and dots an entry may add. */
  predicate IsLiteral(d: string) {
    && IsPlain(d) && '*' !in d && '?' !in d
    && d != "" && d != "." && d[0] != '/' && d[|d| - 1] != '/' && !HasPrefix(d, "./")
  }

  /** The ways an entry may name a path, be it a file or a directory. */
  predicate Spells(entry: string, d: string) {
    IsLiteral(d) && (entry == d || entry == "./" + d || entry == "/" + d || entry == d + "/" || entry == "./" + d + "/")
  }

  /** An entry for everything in a directory. */
  predicate Sweeps(entry: string, d: string) {
    IsLiteral(d) && (entry == d + "/**" || entry == "./" + d + "/**")
  }

  /** An entry for whatever stands directly in a directory, and what that holds. */
  predicate SweepsEntries(entry: string, d: string) {
    IsLiteral(d) && (entry == d + "/*" || entry == "./" + d + "/*")
  }

  /** An entry selects a path: it names it or a directory above it, or sweeps such a directory. */
  predicate Selects(entry: string, d: string, path: string) {
    || ((Spells(entry, d) || Sweeps(entry, d)) && Under(path, d))
    || (SweepsEntries(entry, d) && HasPrefix(path, d + "/"))
  }

  predicate IsSimple(entry: string, d: string) {
    Spells(entry, d) || Sweeps(entry, d) || SweepsEntries(entry, d)
  }

  lemma TrimsNothing(s: string)
    requires s != "" && s[0] != '/' && s[|s| - 1] != '/'
    ensures TrimLeftSlashes(s) == s && TrimLeftSlashes("/" + s) == s
    ensures TrimRightSlashes(s) == s && TrimRightSlashes(s + "/") == s
  {
    assert ("/" + s)[1..] == s && (s + "/")[..|s|] == s;
  }

  lemma SpelledIs(entry: string, d: string)
    requires Spells(entry, d)
    ensures NormalizeFilesEntry(entry) == d
  {
    hide IsPlain;
    TrimsNothing(d);
    assert ("./" + d)[2..] == d && ("./" + d + "/")[2..] == d + "/";
    assert (d + "/")[0] == d[0] && TrimLeftSlashes(d + "/") == d + "/";
    assert |d| >= 2 ==> (d + "/")[..2] == d[..2];
    assert !HasPrefix(d + "/", "./") by { if |d| == 1 { assert (d + "/")[..2] == d + "/"; } }
    assert ("/" + d)[..1] == "/";
    assert '*' !in d + "/" && '*' !in d;
  }

  /** A sweep of a directory keeps its stars. */
  lemma SweptIs(entry: string, d: string, stars: string)
    requires IsLiteral(d) && (stars == "/**" || stars == "/*")
    requires entry == d + stars || entry == "./" + d + stars
    ensures NormalizeFilesEntry(entry) == d + stars
  {
    hide IsPlain;
    var n := d + stars;
    assert ("./" + d + stars)[2..] == n && n[0] == d[0] && stars[1] == '*' && n[|d| + 1] == '*';
    assert TrimLeftSlashes(n) == n;
    assert |d| >= 2 ==> n[..2] == d[..2];
    if |d| == 1 { assert n[..2] == d + stars[..1] && stars[..1] == "/"; }
  }

  // ---------------------------------------------------------------- what the library says of them

  lemma {:induction false} LiteralSegment(p: string, name: string)
    requires '*' !in p && '?' !in p
    ensures SegmentMatch(p, name) <==> p == name
  {
    if p != "" && name != "" {
      assert p == [p[0]] + p[1..] && name == [name[0]] + name[1..];
      LiteralSegment(p[1..], name[1..]);
    }
  }

  lemma {:induction false} LiteralSegments(ps: seq<string>, xs: seq<string>)
    requires forall p :: p in ps ==> '*' !in p && '?' !in p
    ensures SegmentsMatch(ps, xs) <==> ps == xs
  {
    assert '*' in "**" && (ps != [] ==> ps[0] in ps);
    if ps != [] && xs != [] {
      assert ps == [ps[0]] + ps[1..] && xs == [xs[0]] + xs[1..];
      LiteralSegment(ps[0], xs[0]);
      LiteralSegments(ps[1..], xs[1..]);
    }
  }

  lemma {:induction false} SplitParts(s: string)
    ensures forall x :: x in Split(s) ==> (forall c :: c in x ==> c in s)
    decreases |s|
  {
    var i := FirstSlash(s);
    if i < |s| {
      SplitParts(s[i + 1..]);
      assert s == s[..i] + s[i..i + 1] + s[i + 1..];
    }
  }

  lemma {:induction false} SplitIsInjective(a: string, b: string)
    requires Split(a) == Split(b)
    ensures a == b
    decreases |a|
  {
    hide FirstSlash, Split;
    var i, j := FirstSlash(a), FirstSlash(b);
    SplitHead(a);
    SplitHead(b);
    if i < |a| {
      SplitIsInjective(a[i + 1..], b[j + 1..]);
      AtSlash(a, i);
      AtSlash(b, j);
    }
  }

  lemma AtSlash(s: string, i: nat)
    requires i < |s| && s[i] == '/'
    ensures s == s[..i] + "/" + s[i + 1..]
  {
  }

  lemma SplitHead(s: string)
    ensures var i := FirstSlash(s);
            && Split(s)[0] == s[..i] && (i == |s| ==> |Split(s)| == 1)
            && (i < |s| ==> |Split(s)| > 1 && Split(s)[1..] == Split(s[i + 1..]))
  {
  }

  /** A library reads a literal pattern as the one path it spells. */
  lemma LiteralMatches(g: Library, d: string, path: string)
    requires ReadsPlain(g) && IsPlain(d) && '*' !in d && '?' !in d
    ensures g(d, path) == Yes <==> path == d
  {
    hide SegmentsMatch, Split, IsPlain;
    SplitParts(d);
    LiteralSegments(Split(d), Split(path));
    if Split(d) == Split(path) { SplitIsInjective(d, path); }
  }

  // ---------------------------------------------------------------- entries

  /** An entry that spells a path names it and holds what lies beneath it, and nothing else. */
  lemma SpellingSelects(g: Library, entry: string, d: string, path: string)
    requires ReadsPlain(g) && Spells(entry, d)
    ensures EntryMatch(g, entry, path) == if path == d then Direct else if Under(path, d) then Contains else Unmatched
  {
    hide IsPlain, NormalizeFilesEntry, ReadsPlain, EntryMatch, Under, LastSegment, HasSuffix;
    SpelledIs(entry, d);
    LiteralMatches(g, d, path);
    NoBareSegment(d);
    LiteralEntry(g, entry, d, path);
  }

  lemma LiteralEntry(g: Library, entry: string, d: string, path: string)
    requires NormalizeFilesEntry(entry) == d != "" && !HasSuffix(d, "/**") && !HasSuffix(d, "/")
    requires !IsBareWildcard(LastSegment(d)) && (g(d, path) == Yes <==> path == d)
    ensures EntryMatch(g, entry, path) == if path == d then Direct else if Under(path, d) then Contains else Unmatched
  {
    hide NormalizeFilesEntry, LastSegment, HasSuffix, MatchesAncestorDir;
  }

  lemma NoBareSegment(d: string)
    requires '*' !in d
    ensures !IsBareWildcard(LastSegment(d)) && !HasSuffix(d, "/**")
    ensures d != "" && d[|d| - 1] != '/' ==> !HasSuffix(d, "/")
  {
    var i := LastSlash(d);
    assert forall k :: 0 <= k < |LastSegment(d)| ==> LastSegment(d)[k] == d[i + 1 + k];
    if |d| >= 3 { assert d[|d| - 1] != '*'; }
  }

  lemma SweepSelects(g: Library, entry: string, d: string, path: string)
    requires Sweeps(entry, d)
    ensures EntryMatch(g, entry, path) != Direct || path == d + "/**"
    ensures path != d + "/**" && !HasPrefix(path, d + "/**/") ==>
              EntryMatch(g, entry, path) == if Under(path, d) then Contains else Unmatched
    ensures Under(path, d) ==> EntryMatch(g, entry, path) != Unmatched
    ensures EntryMatch(g, entry, path) != Unmatched ==> Under(path, d)
  {
    hide IsPlain, NormalizeFilesEntry;
    SweptIs(entry, d, "/**");
    var n := d + "/**";
    assert n != "" && HasSuffix(n, "/**") && TrimSuffix(n, "/**") == d by { assert n[..|d|] == d && n[|d|..] == "/**"; }
    assert n + "/" == d + "/**/";
    assert HasPrefix(path, n + "/") ==> path[..|d| + 1] == d + "/";
    assert path == n ==> path[..|d| + 1] == d + "/";
  }

  // ---------------------------------------------------------------- a sweep of entries

  lemma {:induction false} StarMatchesAll(name: string)
    ensures SegmentMatch("*", name)
  {
    if name != "" { StarMatchesAll(name[1..]); }
  }

  lemma {:induction false} LiteralThenStar(ps: seq<string>, xs: seq<string>)
    requires forall p :: p in ps ==> '*' !in p && '?' !in p
    ensures SegmentsMatch(ps + ["*"], xs) <==> |xs| == |ps| + 1 && xs[..|ps|] == ps
  {
    var all := ps + ["*"];
    assert '*' in "**" && "*" != "**" && (ps != [] ==> ps[0] in ps && all[0] == ps[0]);
    if ps == [] {
      assert all == ["*"] && all[1..] == [];
      if xs != [] { StarMatchesAll(xs[0]); }
      assert |xs| == 1 ==> xs[1..] == [];
    } else if xs != [] {
      assert all[0] == ps[0] && all[1..] == ps[1..] + ["*"];
      LiteralSegment(ps[0], xs[0]);
      LiteralThenStar(ps[1..], xs[1..]);
      assert xs == [xs[0]] + xs[1..] && ps == [ps[0]] + ps[1..];
      if |xs| == |ps| + 1 { assert xs[..|ps|] == [xs[0]] + xs[1..][..|ps| - 1]; }
    }
  }

  /** A star below a directory is read as the paths one name below it. */
  lemma StarMatches(g: Library, d: string, path: string)
    requires ReadsPlain(g) && IsPlain(d) && '*' !in d && '?' !in d
    ensures g(d + "/*", path) == Yes <==> Under(path, d) && path != d && Slashes(path[|d| + 1..]) == 0
  {
    hide SegmentsMatch, Split, Slashes;
    assert IsPlain(d + "/*");
    assert d + "/*" == d + "/" + "*";
    SplitJoin(d, "*");
    SplitSingle("*");
    SplitParts(d);
    LiteralThenStar(Split(d), Split(path));
    if Under(path, d) && path != d {
      var rest := path[|d| + 1..];
      assert path == d + "/" + rest;
      SplitJoin(d, rest);
      NoSlashes(rest);
      OneSegment(rest);
      assert Split(path)[..|Split(d)|] == Split(d);
    }
    if |Split(path)| == |Split(d)| + 1 && Split(path)[..|Split(d)|] == Split(d) {
      var last := Split(path)[|Split(d)|];
      assert Split(path) == Split(d) + [last];
      SegmentsHaveNoSlash(path);
      assert last in Split(path);
      SplitSingle(last);
      SplitJoin(d, last);
      SplitIsInjective(path, d + "/" + last);
      assert path[|d| + 1..] == last && path[..|d| + 1] == d + "/";
      NoSlashes(last);
    }
  }

  lemma OneSegment(s: string)
    ensures |Split(s)| == 1 <==> '/' !in s
  {
    SplitHead(s);
    var i := FirstSlash(s);
    if i < |s| { assert s[i] in s; } else { assert forall c :: c in s ==> c != '/'; }
  }

  lemma StarIsBare(d: string)
    ensures LastSegment(d + "/*") == "*" && IsGlobbed(d + "/*")
  {
    var n := d + "/*";
    assert n[|d|] == '/' && n[|d| + 1] == '*';
    assert LastSlash(n) == |d|;
    assert n[|n| - 1] == '*' && n[|n| - 2] == '/';
    if |n| >= 3 { assert n[|n| - 3..][1] == '/' && "/**"[1] == '*'; }
  }

  lemma StarSelects(g: Library, entry: string, d: string, path: string)
    requires ReadsPlain(g) && SweepsEntries(entry, d)
    ensures EntryMatch(g, entry, path) != Unmatched <==> HasPrefix(path, d + "/")
  {
    hide IsPlain, NormalizeFilesEntry, ReadsPlain, EntryMatch, LastSegment, MatchesAncestorDir, Slashes, Depth;
    SweptIs(entry, d, "/*");
    var n := d + "/*";
    StarIsBare(d);
    StarMatches(g, d, path);
    if HasPrefix(path, d + "/") {
      var rest := path[|d| + 1..];
      NoSlashes(rest);
      if Slashes(rest) > 0 { BelowAnEntry(g, d, path); }
      GlobSelects(g, entry, path);
    }
    if EntryMatch(g, entry, path) != Unmatched {
      GlobSelected(g, entry, path);
      if MatchesAncestorDir(g, n, path) {
        var dir := AncestorMatched(g, n, path);
        StarMatches(g, d, dir);
        UnderTrans(path, dir, d);
      }
      assert HasPrefix(path, n) ==> path[..|d| + 1] == n[..|d| + 1] == d + "/";
    }
  }

  lemma GlobSelected(g: Library, entry: string, path: string)
    requires IsGlobbed(NormalizeFilesEntry(entry)) && EntryMatch(g, entry, path) != Unmatched
    ensures var n := NormalizeFilesEntry(entry);
            HasPrefix(path, n) || g(n, path) == Yes || MatchesAncestorDir(g, n, path)
  {
    hide NormalizeFilesEntry, MatchesAncestorDir, LastSegment;
    var n := NormalizeFilesEntry(entry);
    assert HasPrefix(path, n + "/") ==> path[..|n|] == (n + "/")[..|n|] == n;
  }

  /** A path deeper below a directory stands below one of its entries. */
  lemma BelowAnEntry(g: Library, d: string, path: string)
    requires ReadsPlain(g) && IsLiteral(d) && HasPrefix(path, d + "/") && Slashes(path[|d| + 1..]) > 0
    ensures MatchesAncestorDir(g, d + "/*", path)
  {
    hide IsPlain, ReadsPlain, MatchesAncestorDir, Slashes;
    var rest := path[|d| + 1..];
    NoSlashes(rest);
    OneSegment(rest);
    SplitHead(rest);
    var i := FirstSlash(rest);
    var p := path[..|d| + 1 + i];
    assert p[..|d| + 1] == path[..|d| + 1] && p[|d| + 1..] == rest[..i];
    NoSlashes(rest[..i]);
    assert path[|d| + 1 + i] == rest[i] == '/' && path[..|p| + 1] == p + "/";
    StarMatches(g, d, p);
    MatchedAbove(g, d + "/*", p, path);
  }

  // ---------------------------------------------------------------- the field

  /** A simple entry selects exactly what it says. */
  lemma SimpleSelects(g: Library, entry: string, d: string, path: string)
    requires ReadsPlain(g) && IsSimple(entry, d)
    ensures EntryMatch(g, entry, path) != Unmatched <==> Selects(entry, d, path)
    ensures Spells(entry, d) ==> (EntryMatch(g, entry, path) == Direct <==> path == d)
  {
    hide IsLiteral, EntryMatch, ReadsPlain;
    EntryKinds(entry, d);
    if Spells(entry, d) {
      SpellingSelects(g, entry, d, path);
    } else if Sweeps(entry, d) {
      SweepSelects(g, entry, d, path);
    } else {
      StarSelects(g, entry, d, path);
    }
  }

  lemma EntryKinds(entry: string, d: string)
    ensures Spells(entry, d) ==> !Sweeps(entry, d) && !SweepsEntries(entry, d)
    ensures !(Sweeps(entry, d) && SweepsEntries(entry, d))
  {
    assert Spells(entry, d) ==> '*' !in entry;
    assert '*' in d + "/**" && '*' in d + "/*" by { assert (d + "/**")[|d| + 1] == '*' && (d + "/*")[|d| + 1] == '*'; }
    assert Sweeps(entry, d) ==> entry[|entry| - 2] == '*';
    assert SweepsEntries(entry, d) ==> entry[|entry| - 2] == '/';
  }

  /** No name on the way to a path is hard-reserved. */
  ghost predicate IsUnreserved(g: Library, path: string) {
    forall a :: a in SelfAndAbove(path) ==> !IsHardReserved(g, a)
  }

  /** A successful walk packs the regular leaves that ship flatly. */
  lemma CollectedShips(rules: Rules, es: seq<Entry>, path: string)
    requires IsNamedWell(es) && !Stuck(rules, Leaves(".", es))
    ensures Collected(rules, Folder(es)).Some?
    ensures path in Collected(rules, Folder(es)).value <==>
              Leaf(path, Regular) in Leaves(".", es) && ShipsFlatly(rules, path)
  {
    hide Ships, ShipsFlatly, Leaves, Stuck, IsNamedWell, IsBelow, Shipped;
    ShippedMembers(rules, Leaves(".", es), path);
    if Leaf(path, Regular) in Leaves(".", es) {
      LeavesAreBelow(".", es);
      BelowTheRoot(path);
      WalkedIsFlat(rules, path);
    }
  }

  lemma BelowTheRoot(path: string)
    requires IsBelow(path, ".")
    ensures path != "." && path != ""
  {
    hide SelfAndAbove;
  }

  lemma ShipsByField(rules: Rules, path: string)
    requires rules.files != []
    ensures ShipsFlatly(rules, path) <==> IsUnreserved(rules.g, path) && IsSelected(rules, path)
  {
    hide IsHardReserved, IsSelected, SelfAndAbove;
  }

  /** A file that an entry names, or that lies beneath a directory an entry names or sweeps, is
      packed unless a name on the way is hard-reserved or default-excluded; an entry that spells
      the file itself overrides the second. */
  lemma ListedFilesShip(rules: Rules, es: seq<Entry>, entry: string, d: string, path: string)
    requires ReadsPlain(rules.g) && IsNamedWell(es) && !Stuck(rules, Leaves(".", es))
    requires entry in rules.files && Selects(entry, d, path)
    requires Leaf(path, Regular) in Leaves(".", es) && IsUnreserved(rules.g, path)
    requires !IsCovered(rules.g, path) || (Spells(entry, d) && path == d)
    ensures path in Collected(rules, Folder(es)).value
  {
    hide ReadsPlain, Leaves, IsUnreserved, IsCovered, Spells, Sweeps, SweepsEntries, EntryMatch, Strongest, Collected,
         ShipsFlatly, Stuck, IsNamedWell;
    CollectedShips(rules, es, path);
    ShipsByField(rules, path);
    SimpleSelects(rules.g, entry, d, path);
    StrongestIsBound(rules.g, rules.files, path);
  }

  ghost predicate AllSimple(files: seq<string>) {
    forall entry :: entry in files ==> exists d :: IsSimple(entry, d)
  }

  /** With simple entries only, what is packed was listed, or is the manifest, the entry point
      or one of the files every package ships. */
  lemma OnlyListedFilesShip(rules: Rules, es: seq<Entry>, path: string)
    requires ReadsPlain(rules.g) && IsNamedWell(es) && !Stuck(rules, Leaves(".", es))
    requires rules.files != [] && AllSimple(rules.files) && path in Collected(rules, Folder(es)).value
    ensures path == MANIFEST || (path == rules.main != "") || IsDefaultInclude(path)
            || exists entry, d :: entry in rules.files && Selects(entry, d, path)
  {
    hide ReadsPlain, Leaves, IsUnreserved, IsCovered, IsSimple, EntryMatch, Strongest, Selects, Excludes,
         IsDefaultInclude, Collected, ShipsFlatly, Stuck, IsNamedWell;
    CollectedShips(rules, es, path);
    ShipsByField(rules, path);
    StrongestIsBound(rules.g, rules.files, path);
    if entry :| entry in rules.files && EntryMatch(rules.g, entry, path) != Unmatched {
      var d :| IsSimple(entry, d);
      SimpleSelects(rules.g, entry, d, path);
    }
  }

  lemma SelectedFilesShip(rules: Rules, es: seq<Entry>, path: string)
    requires IsNamedWell(es) && !Stuck(rules, Leaves(".", es)) && rules.files != []
    requires Leaf(path, Regular) in Leaves(".", es) && IsUnreserved(rules.g, path)
    ensures path in Collected(rules, Folder(es)).value <==> IsSelected(rules, path)
  {
    hide Leaves, IsUnreserved, IsSelected, Collected, ShipsFlatly, Stuck, IsNamedWell;
    CollectedShips(rules, es, path);
    ShipsByField(rules, path);
  }

  /** The entry point is packed under any "files" field unless reserved or default-excluded. */
  lemma EntryPointShips(rules: Rules, es: seq<Entry>)
    requires IsNamedWell(es) && !Stuck(rules, Leaves(".", es)) && rules.files != [] && rules.main != ""
    requires Leaf(rules.main, Regular) in Leaves(".", es) && IsUnreserved(rules.g, rules.main)
    requires !IsCovered(rules.g, rules.main)
    ensures rules.main in Collected(rules, Folder(es)).value
  {
    hide Leaves, IsUnreserved, IsCovered, Strongest, Excludes, IsDefaultInclude, Stuck, IsNamedWell, Collected;
    SelectedFilesShip(rules, es, rules.main);
  }

  /** So is a file every package ships, unless an ignore file excludes it. */
  lemma DefaultIncludesShip(rules: Rules, es: seq<Entry>, path: string)
    requires IsNamedWell(es) && !Stuck(rules, Leaves(".", es)) && rules.files != []
    requires Leaf(path, Regular) in Leaves(".", es) && IsUnreserved(rules.g, path)
    requires IsDefaultInclude(path) && !Excludes(rules.g, rules.read, path) && !IsCovered(rules.g, path)
    ensures path in Collected(rules, Folder(es)).value
  {
    hide Leaves, IsUnreserved, IsCovered, Strongest, Excludes, IsDefaultInclude, Stuck, IsNamedWell, Collected;
    SelectedFilesShip(rules, es, path);
  }

  /** The names of a change log, and the endings one may have. */
  const LOGS := ["changelog", "changes", "history"]
  const LOG_ENDINGS := ["", ".md", ".markdown", ".txt", ".rst"]

  predicate IsLog(name: string) {
    exists i, j :: 0 <= i < |LOGS| && 0 <= j < |LOG_ENDINGS| && name == LOGS[i] + LOG_ENDINGS[j]
  }

  /** Which files every package ships, in any casing: the manifest, read-mes and licences whatever
      follows, and the change logs, at the root alone. */
  lemma DefaultIncludesByName(path: string)
    ensures var name := Lower(path);
            IsDefaultInclude(path) <==>
              '/' !in path && (name == "package.json" || HasPrefix(name, "readme") || HasPrefix(name, "license")
                               || HasPrefix(name, "licence") || IsLog(name))
  {
    hide SegmentMatch, IsLog;
    var name := Lower(path);
    forall i | 0 <= i < |DEFAULT_INCLUDES| { IncludedAs(i, name); }
    if IsLog(name) { LogIsIncluded(name); }
    if IsDefaultInclude(path) {
      var i :| 0 <= i < |DEFAULT_INCLUDES| && SegmentMatch(Lower(DEFAULT_INCLUDES[i]), name);
      IncludedAs(i, name);
      if i >= 4 { IncludedIsLog(i); }
    } else if '/' !in path {
      assert forall i :: 0 <= i < |DEFAULT_INCLUDES| ==> !SegmentMatch(Lower(DEFAULT_INCLUDES[i]), name);
      IncludedAs(0, name);
      IncludedAs(1, name);
      IncludedAs(2, name);
      IncludedAs(3, name);
    }
  }

  /** The lower-cased pattern at a place of the list. */
  function IncludedName(i: nat): string
    requires i < |DEFAULT_INCLUDES|
  {
    if i == 0 then "package.json"
    else if i == 1 then "readme*"
    else if i == 2 then "license*"
    else if i == 3 then "licence*"
    else LOGS[(i - 4) / 5] + LOG_ENDINGS[(i - 4) % 5]
  }

  lemma StemIsNamed(i: nat)
    requires i < 4
    ensures Lower(DEFAULT_INCLUDES[i]) == IncludedName(i)
    ensures i == 0 ==> '*' !in IncludedName(i) && '?' !in IncludedName(i)
  {
  }

  lemma ChangelogIsNamed(j: nat)
    requires j < 5
    ensures Lower(DEFAULT_INCLUDES[4 + j]) == LOGS[0] + LOG_ENDINGS[j]
  {
  }

  lemma ChangesIsNamed(j: nat)
    requires j < 5
    ensures Lower(DEFAULT_INCLUDES[9 + j]) == LOGS[1] + LOG_ENDINGS[j]
  {
  }

  lemma HistoryIsNamed(j: nat)
    requires j < 5
    ensures Lower(DEFAULT_INCLUDES[14 + j]) == LOGS[2] + LOG_ENDINGS[j]
  {
  }

  lemma LogHasNoWildcard(i: nat, j: nat)
    requires i < |LOGS| && j < |LOG_ENDINGS|
    ensures '*' !in LOGS[i] + LOG_ENDINGS[j] && '?' !in LOGS[i] + LOG_ENDINGS[j]
  {
    assert '*' !in LOGS[i] && '?' !in LOGS[i] && '*' !in LOG_ENDINGS[j] && '?' !in LOG_ENDINGS[j];
  }

  lemma IncludedIsNamed(i: nat)
    requires i < |DEFAULT_INCLUDES|
    ensures Lower(DEFAULT_INCLUDES[i]) == IncludedName(i)
    ensures i == 0 || i >= 4 ==> '*' !in IncludedName(i) && '?' !in IncludedName(i)
  {
    hide Lower;
    if i < 4 {
      StemIsNamed(i);
    } else {
      LogHasNoWildcard((i - 4) / 5, (i - 4) % 5);
      if i < 9 { ChangelogIsNamed(i - 4); } else if i < 14 { ChangesIsNamed(i - 9); } else { HistoryIsNamed(i - 14); }
    }
  }

  lemma IncludedAs(i: nat, name: string)
    requires i < |DEFAULT_INCLUDES|
    ensures SegmentMatch(Lower(DEFAULT_INCLUDES[i]), name) <==>
              if i == 1 then HasPrefix(name, "readme")
              else if i == 2 then HasPrefix(name, "license")
              else if i == 3 then HasPrefix(name, "licence")
              else name == IncludedName(i)
  {
    hide SegmentMatch;
    IncludedIsNamed(i);
    if 1 <= i <= 3 {
      assert "readme" + "*" == "readme*" && "license" + "*" == "license*" && "licence" + "*" == "licence*";
      PrefixThenStar(if i == 1 then "readme" else if i == 2 then "license" else "licence", name);
    } else {
      LiteralSegment(IncludedName(i), name);
    }
  }

  lemma IncludedIsLog(i: nat)
    requires 4 <= i < |DEFAULT_INCLUDES|
    ensures IsLog(IncludedName(i))
  {
    assert 0 <= (i - 4) / 5 < |LOGS| && 0 <= (i - 4) % 5 < |LOG_ENDINGS|;
  }

  lemma LogIsIncluded(name: string)
    requires IsLog(name)
    ensures exists i :: 0 <= i < |DEFAULT_INCLUDES| && SegmentMatch(Lower(DEFAULT_INCLUDES[i]), name)
  {
    hide SegmentMatch;
    var i, j :| 0 <= i < |LOGS| && 0 <= j < |LOG_ENDINGS| && name == LOGS[i] + LOG_ENDINGS[j];
    var k := 4 + 5 * i + j;
    assert (k - 4) / 5 == i && (k - 4) % 5 == j;
    IncludedAs(k, name);
  }

  lemma {:induction false} PrefixThenStar(stem: string, name: string)
    requires '*' !in stem && '?' !in stem
    ensures SegmentMatch(stem + "*", name) <==> HasPrefix(name, stem)
  {
    if stem == "" {
      assert stem + "*" == "*" && name[..0] == "";
      StarMatchesAll(name);
    } else if name != "" {
      assert (stem + "*")[0] == stem[0] && (stem + "*")[1..] == stem[1..] + "*";
      PrefixThenStar(stem[1..], name[1..]);
      assert stem == [stem[0]] + stem[1..] && name == [name[0]] + name[1..];
      if HasPrefix(name[1..], stem[1..]) { assert name[..|stem|] == [name[0]] + name[1..][..|stem| - 1]; }
      if HasPrefix(name, stem) { assert name[1..][..|stem| - 1] == name[..|stem|][1..]; }
    }
  }
}
