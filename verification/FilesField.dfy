/** The package.json "files" field: how an entry reaches a path, whether it could reach
    anything beneath a directory, and that the second never misses what the first selects. */
module FilesField {
  import opened Paths
  import opened Glob

  // ---------------------------------------------------------------- one entry

  function TrimLeftSlashes(s: string): string {
    if s != "" && s[0] == '/' then TrimLeftSlashes(s[1..]) else s
  }

  function TrimRightSlashes(s: string): string {
    if s != "" && s[|s| - 1] == '/' then TrimRightSlashes(s[..|s| - 1]) else s
  }

  /** One leading "./" comes off, then leading slashes, then an entry without "*" loses its
      trailing slashes too. */
  function NormalizeFilesEntry(entry: string): string {
    var pattern := TrimLeftSlashes(TrimPrefix(entry, "./"));
    if '*' in pattern then pattern else TrimRightSlashes(pattern)
  }

  predicate IsBareWildcard(segment: string) {
    segment == "*" || segment == "**"
  }

  /** Whether a pattern matches some directory strictly above a path. */
  predicate MatchesAncestorDir(g: Library, pattern: string, path: string)
    decreases Depth(path)
  {
    path != "." &&
    var dir := Dir(path);
    dir != "." && dir != "" && (DirIsShallower(path); g(pattern, dir) == Yes || MatchesAncestorDir(g, pattern, dir))
  }

  /** How an entry reaches a path: not at all, as part of a directory it names or sweeps,
      or by naming it. */
  datatype FilesMatch = Unmatched | Contains | Direct {
    function Rank(): nat {
      match this
      case Unmatched => 0
      case Contains => 1
      case Direct => 2
    }
  }

  function EntryMatch(g: Library, entry: string, path: string): FilesMatch {
    var pattern := NormalizeFilesEntry(entry);
    if pattern == "" then Contains
    else if pattern == path then Direct
    else if HasPrefix(path, pattern + "/") then Contains
    else if HasSuffix(pattern, "/**") then
      if Under(path, TrimSuffix(pattern, "/**")) then Contains else Unmatched
    else if HasSuffix(pattern, "/") then Unmatched
    else
      var sweepsSubtree := IsBareWildcard(LastSegment(pattern));
      if g(pattern, path) == Yes then (if sweepsSubtree then Contains else Direct)
      else if sweepsSubtree && MatchesAncestorDir(g, pattern, path) then Contains
      else Unmatched
  }

  /** The strongest way any entry reaches a path. */
  function Strongest(g: Library, entries: seq<string>, path: string): FilesMatch {
    if entries == [] then Unmatched
    else
      var first, rest := EntryMatch(g, entries[0], path), Strongest(g, entries[1..], path);
      if first.Rank() >= rest.Rank() then first else rest
  }

  /** The loop over entries, stopping at the first that names the path. */
  method MatchFilesField(g: Library, path: string, entries: seq<string>) returns (best: FilesMatch)
    ensures best == Strongest(g, entries, path)
  {
    hide EntryMatch;
    best := Unmatched;
    for i := 0 to |entries|
      invariant best == Strongest(g, entries[..i], path)
    {
      var found := EntryMatch(g, entries[i], path);
      assert entries[..i + 1] == entries[..i] + [entries[i]];
      StrongestExtends(g, entries[..i], entries[i], path);
      if found.Rank() > best.Rank() {
        best := found;
      }
      if best == Direct {
        assert entries == entries[..i + 1] + entries[i + 1..];
        StrongestIsBound(g, entries[..i + 1], path);
        StrongestIsBound(g, entries, path);
        return;
      }
    }
    assert entries[..|entries|] == entries;
  }

  lemma {:induction false} StrongestExtends(g: Library, entries: seq<string>, entry: string, path: string)
    ensures Strongest(g, entries + [entry], path)
         == if EntryMatch(g, entry, path).Rank() > Strongest(g, entries, path).Rank() then EntryMatch(g, entry, path)
            else Strongest(g, entries, path)
  {
    hide EntryMatch;
    if entries == [] {
      assert [] + [entry] == [entry];
    } else {
      assert (entries + [entry])[1..] == entries[1..] + [entry];
      StrongestExtends(g, entries[1..], entry, path);
    }
  }

  /** The strongest match is one that some entry makes and none exceeds. */
  lemma {:induction false} StrongestIsBound(g: Library, entries: seq<string>, path: string)
    ensures forall e :: e in entries ==> EntryMatch(g, e, path).Rank() <= Strongest(g, entries, path).Rank()
    ensures Strongest(g, entries, path) == Unmatched ||
              exists e :: e in entries && EntryMatch(g, e, path) == Strongest(g, entries, path)
  {
    hide EntryMatch;
    if entries != [] {
      StrongestIsBound(g, entries[1..], path);
      assert entries == [entries[0]] + entries[1..];
    }
  }

  /** Only which entries there are matters, not their order or how often they are written. */
  lemma OrderOfEntriesIsFree(g: Library, entries: seq<string>, others: seq<string>, path: string)
    requires forall e :: e in entries <==> e in others
    ensures Strongest(g, entries, path) == Strongest(g, others, path)
  {
    hide EntryMatch, Strongest;
    StrongestIsBound(g, entries, path);
    StrongestIsBound(g, others, path);
  }

  /** An entry names a path only by spelling it, or by a glob that says something about the
      path's last segment: naming a directory above it or sweeping one is not naming it. */
  lemma NamingTakesASpelling(g: Library, entry: string, path: string)
    requires EntryMatch(g, entry, path) == Direct
    ensures var n := NormalizeFilesEntry(entry);
            n == path || (!IsBareWildcard(LastSegment(n)) && g(n, path) == Yes && !HasPrefix(path, n + "/") && n != "")
  {
  }

  // ---------------------------------------------------------------- reach beneath a directory

  predicate SegmentsReach(g: Library, ps: seq<string>, ds: seq<string>) {
    if ds == [] || ps == [] then true
    else if ps[0] == "**" then true
    else if ps[0] == ds[0] then SegmentsReach(g, ps[1..], ds[1..])
    else
      match g(ps[0], ds[0])
      case Undecidable => true
      case No => false
      case Yes => SegmentsReach(g, ps[1..], ds[1..])
  }

  predicate MayReach(g: Library, dir: string, entries: seq<string>) {
    exists e :: e in entries && (NormalizeFilesEntry(e) == "" ||
        SegmentsReach(g, Split(NormalizeFilesEntry(e)), Split(dir)))
  }

  /** The walk of an entry's segments against a directory's. */
  method SegmentsReachRun(g: Library, ps: seq<string>, ds: seq<string>) returns (r: bool)
    ensures r == SegmentsReach(g, ps, ds)
  {
    for i := 0 to |ds|
      invariant i <= |ps| && SegmentsReach(g, ps, ds) == SegmentsReach(g, ps[i..], ds[i..])
    {
      if i == |ps| {
        return true;
      }
      assert ps[i..][1..] == ps[i + 1..] && ds[i..][1..] == ds[i + 1..];
      if ps[i] == "**" {
        return true;
      }
      if ps[i] != ds[i] {
        var verdict := g(ps[i], ds[i]);
        if verdict == Undecidable {
          return true;
        }
        if verdict == No {
          return false;
        }
      }
    }
    r := true;
  }

  /** The loop over entries, stopping at the first that may reach the directory. */
  method FilesFieldMayReach(g: Library, dir: string, entries: seq<string>) returns (r: bool)
    ensures r == MayReach(g, dir, entries)
  {
    var ds := Split(dir);
    for i := 0 to |entries|
      invariant !MayReach(g, dir, entries[..i])
    {
      var pattern := NormalizeFilesEntry(entries[i]);
      assert entries[..i + 1] == entries[..i] + [entries[i]];
      assert entries[i] in entries;
      if pattern == "" {
        return true;
      }
      var reaches := SegmentsReachRun(g, Split(pattern), ds);
      if reaches {
        return true;
      }
    }
    assert entries[..|entries|] == entries;
    r := false;
  }

  // ---------------------------------------------------------------- soundness of the reach test

  predicate Comparable(xs: seq<string>, ys: seq<string>) {
    xs <= ys || ys <= xs
  }

  lemma PrefixesAreComparable(xs: seq<string>, ys: seq<string>, all: seq<string>)
    requires xs <= all && ys <= all
    ensures Comparable(xs, ys)
  {
    if |xs| <= |ys| { assert xs == all[..|xs|] == ys[..|xs|]; } else { assert ys == all[..|ys|] == xs[..|ys|]; }
  }

  lemma {:induction false} LiteralReaches(g: Library, ps: seq<string>, ds: seq<string>)
    requires Comparable(ps, ds)
    ensures SegmentsReach(g, ps, ds)
  {
    if ps != [] && ds != [] {
      assert ps[0] == ds[0];
      LiteralReaches(g, ps[1..], ds[1..]);
    }
  }

  lemma {:induction false} SubtreeReaches(g: Library, ps: seq<string>, ds: seq<string>)
    requires Comparable(ps, ds)
    ensures SegmentsReach(g, ps + ["**"], ds)
  {
    var all := ps + ["**"];
    if ps != [] && ds != [] {
      assert all[0] == ps[0] == ds[0] && all[1..] == ps[1..] + ["**"];
      SubtreeReaches(g, ps[1..], ds[1..]);
    }
  }

  lemma {:induction false} MayMatchReaches(g: Library, ps: seq<string>, xs: seq<string>, ds: seq<string>)
    requires SegmentsMay(g, ps, xs) && Comparable(xs, ds)
    ensures SegmentsReach(g, ps, ds)
  {
    if ps != [] && ds != [] && ps[0] != "**" {
      assert xs[0] == ds[0];
      if ps[0] == xs[0] || g(ps[0], xs[0]) == Yes { MayMatchReaches(g, ps[1..], xs[1..], ds[1..]); }
    }
  }

  lemma {:induction false} AncestorMatched(g: Library, pattern: string, path: string) returns (dir: string)
    requires MatchesAncestorDir(g, pattern, path)
    ensures Under(path, dir) && g(pattern, dir) == Yes && dir != "." && dir != ""
    decreases Depth(path)
  {
    dir := Dir(path);
    UnderDir(path);
    if g(pattern, dir) != Yes {
      DirIsShallower(path);
      var above := AncestorMatched(g, pattern, dir);
      UnderTrans(path, dir, above);
      dir := above;
    }
  }

  /** The reach test denies a directory only if the field selects nothing at or beneath it. */
  ghost predicate IsReachSound(g: Library) {
    forall entries, dir, path :: Under(path, dir) && Strongest(g, entries, path) != Unmatched ==>
      MayReach(g, dir, entries)
  }

  /** An entry that is read as a glob, none of the plain spellings deciding it. */
  predicate IsGlobbed(n: string) {
    n != "" && !HasSuffix(n, "/**") && !HasSuffix(n, "/")
  }

  /** A glob that matches a path selects something at or beneath a directory: the path, or
      what it sweeps there. */
  predicate SelectsWithin(n: string, p: string, dir: string) {
    Under(p, dir) || (IsBareWildcard(LastSegment(n)) && p != "." && p != "" && Under(dir, p))
  }

  ghost predicate FollowsEntry(g: Library, n: string) {
    forall p, dir :: g(n, p) == Yes && SelectsWithin(n, p, dir) ==> SegmentsReach(g, Split(n), Split(dir))
  }

  /** Wherever the library matches a whole pattern, matching its segments one by one leads on. */
  ghost predicate FollowsMatches(g: Library) {
    forall entry :: IsGlobbed(NormalizeFilesEntry(entry)) ==> FollowsEntry(g, NormalizeFilesEntry(entry))
  }

  /** What is asked of the glob library. */
  ghost predicate IsLibrary(g: Library) {
    ReadsPlain(g) && FollowsMatches(g)
  }

  lemma SegmentsAreFollowed(g: Library)
    requires ReadsSegments(g)
    ensures FollowsMatches(g)
  {
    hide SegmentsMay, SegmentsReach, Split, NormalizeFilesEntry, LastSegment, Under;
    forall n, p, dir | g(n, p) == Yes && SelectsWithin(n, p, dir) ensures SegmentsReach(g, Split(n), Split(dir)) {
      if Under(p, dir) { SplitUnder(p, dir); } else { SplitUnder(dir, p); }
      MayMatchReaches(g, Split(n), Split(p), Split(dir));
    }
  }

  /** What is asked of a library can be met. */
  lemma PlainLibraryIsLibrary()
    ensures IsLibrary(PlainLibrary)
  {
    PlainLibraryReads();
    SegmentsAreFollowed(PlainLibrary);
  }

  lemma AboveOneAnother(path: string, a: string, b: string)
    requires Under(path, a) && Under(path, b)
    ensures Under(a, b) || Under(b, a)
  {
    if |a| < |b| {
      assert a + "/" == path[..|a| + 1] == path[..|b|][..|a| + 1];
    } else if |b| < |a| {
      assert b + "/" == path[..|b| + 1] == path[..|a|][..|b| + 1];
    } else {
      assert a == path[..|a|] == b;
    }
  }

  lemma EntryReaches(g: Library, entry: string, dir: string, path: string)
    requires FollowsMatches(g) && Under(path, dir) && EntryMatch(g, entry, path) != Unmatched
    ensures NormalizeFilesEntry(entry) == "" || SegmentsReach(g, Split(NormalizeFilesEntry(entry)), Split(dir))
  {
    hide NormalizeFilesEntry, Split, LastSegment, Under;
    var n := NormalizeFilesEntry(entry);
    SplitUnder(path, dir);
    if n != "" {
      if n == path || HasPrefix(path, n + "/") {
        NamedIsUnder(path, n);
        SplitUnder(path, n);
        PrefixesAreComparable(Split(n), Split(dir), Split(path));
        LiteralReaches(g, Split(n), Split(dir));
      } else if HasSuffix(n, "/**") {
        var q := TrimSuffix(n, "/**");
        SplitUnder(path, q);
        PrefixesAreComparable(Split(q), Split(dir), Split(path));
        SubtreeReaches(g, Split(q), Split(dir));
        assert n == q + "/" + "**";
        SplitJoin(q, "**");
        SplitSingle("**");
      } else if g(n, path) == Yes {
        assert FollowsEntry(g, n) && SelectsWithin(n, path, dir);
      } else {
        var above := AncestorMatched(g, n, path);
        AboveOneAnother(path, above, dir);
        assert FollowsEntry(g, n) && SelectsWithin(n, above, dir);
      }
    }
  }

  lemma NamedIsUnder(path: string, n: string)
    requires n == path || HasPrefix(path, n + "/")
    ensures Under(path, n)
  {
  }

  /** Given a library that follows its matches, if the "files" field reaches any path at or
      beneath a directory, the reach test says so. */
  lemma FieldReaches(g: Library, dir: string, path: string, entries: seq<string>)
    requires FollowsMatches(g) && Under(path, dir) && Strongest(g, entries, path) != Unmatched
    ensures MayReach(g, dir, entries)
  {
    hide EntryMatch, SegmentsReach, Split, NormalizeFilesEntry, Strongest, FollowsMatches;
    StrongestIsBound(g, entries, path);
    var e :| e in entries && EntryMatch(g, e, path) == Strongest(g, entries, path);
    EntryReaches(g, e, dir, path);
  }

  /** A pattern that matches a directory matches one above anything in it. */
  lemma {:induction false} MatchedAbove(g: Library, n: string, p: string, path: string)
    requires g(n, p) == Yes && p != "." && p != "" && path != p && Under(path, p)
    ensures MatchesAncestorDir(g, n, path)
    decreases Depth(path)
  {
    hide Depth;
    assert path[|p|] == '/';
    assert LastSlash(path) >= |p|;
    var dir := Dir(path);
    assert dir == path[..LastSlash(path)];
    if LastSlash(path) == |p| {
      assert dir == p;
    } else {
      assert dir[..|p| + 1] == path[..|p| + 1];
      DirIsShallower(path);
      MatchedAbove(g, n, p, dir);
    }
  }

  lemma GlobSelects(g: Library, entry: string, path: string)
    requires IsGlobbed(NormalizeFilesEntry(entry))
    requires g(NormalizeFilesEntry(entry), path) == Yes ||
             (IsBareWildcard(LastSegment(NormalizeFilesEntry(entry))) &&
                 MatchesAncestorDir(g, NormalizeFilesEntry(entry), path))
    ensures EntryMatch(g, entry, path) != Unmatched
  {
    hide NormalizeFilesEntry, LastSegment, MatchesAncestorDir;
  }

  lemma SoundFollowsEntry(g: Library, entry: string, p: string, dir: string)
    requires IsReachSound(g) && IsGlobbed(NormalizeFilesEntry(entry))
    requires g(NormalizeFilesEntry(entry), p) == Yes && SelectsWithin(NormalizeFilesEntry(entry), p, dir)
    ensures SegmentsReach(g, Split(NormalizeFilesEntry(entry)), Split(dir))
  {
    hide NormalizeFilesEntry, LastSegment, SegmentsReach, Split, EntryMatch, MatchesAncestorDir;
    var n, entries := NormalizeFilesEntry(entry), [entry];
    var path := p;
    if !Under(p, dir) {
      path := dir + "/x";
      UnderTrans(path, dir, p);
      MatchedAbove(g, n, p, path);
    }
    GlobSelects(g, entry, path);
    StrongestIsBound(g, entries, path);
    assert entry in entries && Under(path, dir) && MayReach(g, dir, entries);
  }

  /** The reach test is sound exactly for the libraries that follow their matches. */
  lemma ReachTestIsSound(g: Library)
    ensures IsReachSound(g) <==> FollowsMatches(g)
    ensures ReadsSegments(g) ==> FollowsMatches(g)
  {
    hide Strongest, MayReach, FollowsMatches, NormalizeFilesEntry, SegmentsReach, Split, SelectsWithin, IsGlobbed;
    if FollowsMatches(g) {
      forall entries, dir, path | Under(path, dir) && Strongest(g, entries, path) != Unmatched
        ensures MayReach(g, dir, entries)
      {
        FieldReaches(g, dir, path, entries);
      }
    }
    if IsReachSound(g) { SoundFollows(g); }
    if ReadsSegments(g) { SegmentsAreFollowed(g); }
  }

  lemma SoundFollows(g: Library)
    requires IsReachSound(g)
    ensures FollowsMatches(g)
  {
    hide Strongest, MayReach, NormalizeFilesEntry, SegmentsReach, Split, SelectsWithin, IsGlobbed, IsReachSound;
    forall entry, p, dir | IsGlobbed(NormalizeFilesEntry(entry)) && g(NormalizeFilesEntry(entry), p) == Yes
                           && SelectsWithin(NormalizeFilesEntry(entry), p, dir)
      ensures SegmentsReach(g, Split(NormalizeFilesEntry(entry)), Split(dir))
    {
      SoundFollowsEntry(g, entry, p, dir);
    }
  }

  const SWEEPING_BRACE := "{**,x}"

  lemma BraceIsNormal(file: string)
    ensures NormalizeFilesEntry(SWEEPING_BRACE + "/" + file) == SWEEPING_BRACE + "/" + file
  {
    var n := SWEEPING_BRACE + "/" + file;
    assert n[0] == '{' && n[1] == '*';
  }

  lemma BraceIsGlobbed(file: string)
    requires IsName(file) && !IsBareWildcard(file)
    ensures IsGlobbed(SWEEPING_BRACE + "/" + file)
  {
    var n := SWEEPING_BRACE + "/" + file;
    assert n[|n| - 1] == file[|file| - 1];
    if |file| > 2 { assert n[|n| - 3] == file[|file| - 3]; }
    assert n[|n| - 3..][0] == n[|n| - 3] && n[|n| - 3..][1] == n[|n| - 2];
    assert |file| == 2 ==> n[|n| - 3..] == "/" + file;
  }

  /** A library that expands braces before it looks for "**" does not: the entry matches a file
      two directories down, and the test denies the lower one. */
  lemma BraceIsMissed(g: Library, a: string, b: string, file: string)
    requires IsName(a) && IsName(b) && IsName(file) && !IsBareWildcard(file) && b != file
    requires g(SWEEPING_BRACE + "/" + file, a + "/" + b + "/" + file) == Yes
    requires g(SWEEPING_BRACE, a) == Yes && g(file, b) == No
    ensures var entries, path := [SWEEPING_BRACE + "/" + file], a + "/" + b + "/" + file;
            Strongest(g, entries, path) != Unmatched && Under(path, a + "/" + b) && !MayReach(g, a + "/" + b, entries)
  {
    hide NormalizeFilesEntry, Split, EntryMatch, MatchesAncestorDir;
    var n, dir := SWEEPING_BRACE + "/" + file, a + "/" + b;
    BraceIsNormal(file);
    BraceIsGlobbed(file);
    GlobSelects(g, n, dir + "/" + file);
    SplitJoin(SWEEPING_BRACE, file);
    SplitSingle(SWEEPING_BRACE);
    SplitSingle(file);
    SplitJoin(a, b);
    SplitSingle(a);
    SplitSingle(b);
    assert Split(dir) == [a, b] && [a, b][1..] == [b] && [SWEEPING_BRACE, file][1..] == [file];
    assert !SegmentsReach(g, [file], [b]);
    assert !SegmentsReach(g, Split(n), Split(dir));
  }
}
