/** What a pack may rely on: skipping what cannot be read loses nothing, the default set is
    overridden only by naming a path, and the manifest always ships. */
module PackLaws {
  import opened Wrappers
  import opened Paths
  import opened Glob
  import opened Ignore
  import opened FilesField
  import opened PackRules
  import opened PackWalk

  // ---------------------------------------------------------------- skipping loses nothing

  /** The rules that let an unreadable path be skipped let nothing at or beneath it ship. */
  lemma NothingShipsBeneath(rules: Rules, p: string, q: string)
    requires IsLibrary(rules.g) && UnreadableIsExcluded(rules, p)
    requires Under(q, p) && '/' in q && p in SelfAndAbove(q) && p != MANIFEST
    ensures !Ships(rules, q)
  {
    hide IsHardReserved, Excludes, Strongest, MayReach, IsCovered, IsDefaultInclude, SelfAndAbove, Depth, Dir;
    assert q != "." && q != "" && q != MANIFEST;
    WalkedIsFlat(rules, q);
    SelfIsFirst(q);
    DefaultIncludesAreAtTheRoot(q);
    if !IsHardReserved(rules.g, p) && rules.files != [] {
      if Strongest(rules.g, rules.files, q) != Unmatched { FieldReaches(rules.g, p, q, rules.files); }
    }
  }

  lemma DefaultIncludesAreAtTheRoot(path: string)
    ensures IsDefaultInclude(path) ==> '/' !in path
  {
  }

  lemma SelfIsFirst(q: string)
    requires q != "." && q != ""
    ensures q in SelfAndAbove(q)
  {
    SelfThenAbove(q);
  }

  /** t' is what t may turn out to be once everything in it can be read. */
  predicate Reveals(t: Tree, t': Tree)
    decreases t, 1
  {
    match t
    case Folder(es) => t'.Folder? && RevealsAll(es, t'.entries)
    case UnreadFolder => t'.Folder?
    case Unstatted => true
    case _ => t' == t
  }

  predicate RevealsAll(es: seq<Entry>, es': seq<Entry>)
    decreases es, 0
  {
    |es| == |es'| &&
    (es == [] || (es[0].name == es'[0].name && Reveals(es[0].tree, es'[0].tree) && RevealsAll(es[1..], es'[1..])))
  }

  /** The package's manifest was read, so it is not a directory. */
  predicate ManifestIsNoFolder(es: seq<Entry>) {
    forall e :: e in es && e.name == MANIFEST ==> !e.tree.Folder?
  }

  /** Nothing at a path, or at it or beneath it when even its kind is unknown, ships. */
  ghost predicate ShipsNothing(rules: Rules, leaf: Leaf) {
    (leaf.kind == Unknown ==> !Ships(rules, leaf.path)) && forall q :: IsBelow(q, leaf.path) ==> !Ships(rules, q)
  }

  /** What the walk may skip is already outside the pack, whatever it turns out to hold. */
  lemma SkippedShipsNothing(rules: Rules, leaf: Leaf)
    requires IsLibrary(rules.g) && leaf.path != "" && leaf.path != "." && leaf.path != MANIFEST
    requires leaf.kind != Regular && !Stops(rules, leaf)
    ensures ShipsNothing(rules, leaf)
  {
    hide IsHardReserved, Excludes, IsWanted, UnreadableIsExcluded, SelfAndAbove, Depth, Dir, IsBelow;
    var path := leaf.path;
    SelfThenAbove(path);
    forall q | IsBelow(q, path) ensures !Ships(rules, q) {
      if IsOpen(rules, Dir(path)) {
        BelowMeans(q, path);
        NothingShipsBeneath(rules, path, q);
      } else {
        ClosedBelow(rules, q, path);
      }
    }
    if leaf.kind == Unknown && IsOpen(rules, Dir(path)) {
      SelfIsFirst(path);
      NothingShipsBeneath(rules, path, path);
    }
  }

  lemma BelowMeans(q: string, p: string)
    requires IsBelow(q, p) && p != "."
    ensures Under(q, p) && '/' in q && p in SelfAndAbove(q)
  {
    SelfThenAbove(q);
  }

  lemma ClosedBelow(rules: Rules, q: string, p: string)
    requires IsBelow(q, p) && p != "." && p != "" && !IsOpen(rules, Dir(p))
    ensures !Ships(rules, q)
  {
    hide IsPruned, IsWanted;
    SelfThenAbove(p);
  }

  /** A leaf of the tree means the same to two sets of rules: a file ships under both or
      neither, and what could not be read ships nothing. */
  ghost predicate IsSettled(rules: Rules, rules': Rules, leaf: Leaf) {
    if leaf.kind == Regular then Ships(rules', leaf.path) == Ships(rules, leaf.path)
    else (leaf.kind == Unknown ==> leaf.path != MANIFEST) && (leaf.path != MANIFEST ==> ShipsNothing(rules', leaf))
  }

  ghost predicate AllSettled(rules: Rules, rules': Rules, leaves: seq<Leaf>) {
    forall leaf :: leaf in leaves ==> IsSettled(rules, rules', leaf)
  }

  /** If every leaf is settled, a tree ships under the one set of rules what any tree it
      turns out to be ships under the other. */
  lemma {:induction false} SettledTreesShipAlike(rules: Rules, rules': Rules, dir: string, es: seq<Entry>,
                                                 es': seq<Entry>)
    requires dir != "" && IsNamedWell(es) && IsNamedWell(es') && RevealsAll(es, es')
    requires dir == "." ==> ManifestIsNoFolder(es')
    requires AllSettled(rules, rules', Leaves(dir, es))
    ensures Shipped(rules', Leaves(dir, es')) == Shipped(rules, Leaves(dir, es))
    decreases es, 0
  {
    hide Ships, AllSettled, Shipped, Stuck, LeavesAt, SelfAndAbove, Dir, Reveals;
    if es != [] {
      var e, e' := es[0], es'[0];
      var p := Child(dir, e.name);
      assert e in es && e' in es';
      DirOfChild(dir, e.name);
      ShippedSplit(rules, LeavesAt(p, e.tree), Leaves(dir, es[1..]));
      ShippedSplit(rules', LeavesAt(p, e'.tree), Leaves(dir, es'[1..]));
      SettledParts(rules, rules', LeavesAt(p, e.tree), Leaves(dir, es[1..]));
      assert p == MANIFEST ==> dir == "." by { assert '/' !in MANIFEST; }
      SettledTreeShipsAlike(rules, rules', p, e.tree, e'.tree);
      SettledTreesShipAlike(rules, rules', dir, es[1..], es'[1..]);
    } else {
      ShippedNone(rules, rules');
    }
  }

  lemma {:induction false} SettledTreeShipsAlike(rules: Rules, rules': Rules, path: string, t: Tree, t': Tree)
    requires path != "" && path != "." && (t.Folder? ==> IsNamedWell(t.entries)) && Reveals(t, t')
    requires t'.Folder? ==> IsNamedWell(t'.entries) && path != MANIFEST
    requires AllSettled(rules, rules', LeavesAt(path, t))
    ensures Shipped(rules', LeavesAt(path, t')) == Shipped(rules, LeavesAt(path, t))
    decreases t, 1
  {
    hide Ships, SelfAndAbove, Dir, Leaves, IsNamedWell, IsBelow, Shipped;
    match t {
      case Folder(es) => SettledTreesShipAlike(rules, rules', path, es, t'.entries);
      case File =>
        assert Leaf(path, Regular) in LeavesAt(path, t);
        OneShips(rules, path);
        OneShips(rules', path);
      case Symlink => ShippedNone(rules, rules');
      case UnreadFolder => RevealedShipsNothing(rules, rules', Leaf(path, Unread), t, t');
      case Unstatted => RevealedShipsNothing(rules, rules', Leaf(path, Unknown), t, t');
    }
  }

  lemma SettledParts(rules: Rules, rules': Rules, a: seq<Leaf>, b: seq<Leaf>)
    requires AllSettled(rules, rules', a + b)
    ensures AllSettled(rules, rules', a) && AllSettled(rules, rules', b)
  {
    hide IsSettled;
    forall leaf | leaf in a || leaf in b ensures IsSettled(rules, rules', leaf) { assert leaf in a + b; }
  }

  lemma ShippedNone(rules: Rules, rules': Rules)
    ensures Shipped(rules, []) == Shipped(rules', [])
  {
  }

  lemma OneShips(rules: Rules, path: string)
    ensures Shipped(rules, [Leaf(path, Regular)]) == if Ships(rules, path) then [path] else []
  {
    hide Ships;
    assert [Leaf(path, Regular)][1..] == [];
  }

  lemma RevealedShipsNothing(rules: Rules, rules': Rules, leaf: Leaf, t: Tree, t': Tree)
    requires (t == UnreadFolder && leaf.kind == Unread && t'.Folder?) || (t == Unstatted && leaf.kind == Unknown)
    requires leaf.path != "" && (t'.Folder? ==> IsNamedWell(t'.entries) && leaf.path != MANIFEST)
    requires AllSettled(rules, rules', LeavesAt(leaf.path, t))
    ensures Shipped(rules', LeavesAt(leaf.path, t')) == Shipped(rules, LeavesAt(leaf.path, t)) == []
  {
    hide Ships, SelfAndAbove, Dir, IsNamedWell, IsBelow;
    assert leaf in LeavesAt(leaf.path, t);
    if t'.Folder? { LeavesAreBelow(leaf.path, t'.entries); }
    NoneShip(rules, LeavesAt(leaf.path, t));
    NoneShip(rules', LeavesAt(leaf.path, t'));
  }

  /** Under the same ignore files skipping an unreadable path never loses a file: when a walk
      that met unreadable paths succeeds, the tree with those paths readable, whatever they
      hold, ships the same files. */
  lemma SkippingLosesNothing(rules: Rules, dir: string, es: seq<Entry>, es': seq<Entry>)
    requires IsLibrary(rules.g) && dir != "" && IsNamedWell(es) && IsNamedWell(es') && RevealsAll(es, es')
    requires dir == "." ==> ManifestIsNoFolder(es')
    requires !Stuck(rules, Leaves(dir, es))
    ensures Shipped(rules, Leaves(dir, es')) == Shipped(rules, Leaves(dir, es))
  {
    hide Ships, Stops, Shipped, SelfAndAbove, ShipsNothing, IsNamedWell;
    LeavesAreBelow(dir, es);
    forall leaf | leaf in Leaves(dir, es) ensures IsSettled(rules, rules, leaf) {
      UnknownIsBelowTheRoot(rules, leaf);
      if leaf.kind != Regular && leaf.path != MANIFEST { SkippedShipsNothing(rules, leaf); }
    }
    SettledTreesShipAlike(rules, rules, dir, es, es');
  }

  lemma UnknownIsBelowTheRoot(rules: Rules, leaf: Leaf)
    requires !Stops(rules, leaf) && leaf.path != "" && leaf.path != "."
    ensures leaf.kind == Unknown ==> leaf.path != MANIFEST
  {
    hide UnreadableIsExcluded, IsPruned;
    if leaf.path == MANIFEST { assert '/' !in MANIFEST && IsOpen(rules, "."); }
  }

  // ---------------------------------------------------------------- consent

  /** The last line that says anything of a path is a negation. */
  ghost predicate IsReincluded(g: Library, path: string, lines: seq<string>) {
    exists i :: 0 <= i < |lines| && Readmits(g, path, lines, i)
  }

  ghost predicate Readmits(g: Library, path: string, lines: seq<string>, i: nat)
    requires i < |lines|
  {
    && HasPrefix(lines[i], "!") && LineSays(g, path, lines[i]) == Some(false)
    && forall j :: i < j < |lines| ==> LineSays(g, path, lines[j]).None?
  }

  lemma {:induction false} LastWordIsANegation(g: Library, path: string, lines: seq<string>)
    ensures !LastWord(g, path, lines, true) <==> IsReincluded(g, path, lines)
  {
    hide LineSays, HasPrefix;
    if lines != [] {
      var n := |lines| - 1;
      LastWordIsANegation(g, path, lines[..n]);
      OnlyNegationsReadmit(g, path, lines[n]);
      if LineSays(g, path, lines[n]).None? {
        if i :| 0 <= i < n && Readmits(g, path, lines[..n], i) { assert Readmits(g, path, lines, i); }
        if i :| 0 <= i < |lines| && Readmits(g, path, lines, i) { assert Readmits(g, path, lines[..n], i); }
      } else if LineSays(g, path, lines[n]) == Some(false) {
        assert Readmits(g, path, lines, n);
      }
    }
  }

  lemma OnlyNegationsReadmit(g: Library, path: string, line: string)
    ensures LineSays(g, path, line) == Some(false) ==> HasPrefix(line, "!")
  {
    hide MatchesIgnorePattern;
  }

  /** A default-excluded path at the root is let back in exactly when the root's ignore file
      has a negation for it that no later line takes back. */
  lemma RootIsReincluded(rules: Rules, path: string)
    requires '/' !in path && IsDefaultExcluded(rules.g, path)
    ensures !Excludes(rules.g, rules.read, path) <==>
            rules.read(".").Some? && IsReincluded(rules.g, path, rules.read(".").value)
  {
    hide IsDefaultExcluded, LastWord, IsReincluded;
    assert LastSlash(path) < 0;
    assert Dir(path) == ".";
    ScopesAreAbove(rules.read, path);
    var scopes := ScopesOf(rules.read, ".");
    if rules.read(".").Some? {
      var lines := rules.read(".").value;
      assert scopes == [Scope(".", lines)] && scopes[1..] == [];
      LastWordIsANegation(rules.g, path, lines);
      assert ChainExcludes(rules.g, rules.read, path, scopes, true)
          == ChainExcludes(rules.g, rules.read, path, [], LastWord(rules.g, path, lines, true));
    } else {
      assert ChainExcludes(rules.g, rules.read, path, [], true);
    }
  }

  /** An entry that names a path: its normal form spells the path, or is a glob that matches
      it and whose last segment is no bare wildcard. */
  predicate Names(g: Library, entry: string, path: string) {
    var n := NormalizeFilesEntry(entry);
    EntryMatch(g, entry, path) == Direct && (n == path || (g(n, path) == Yes && !IsBareWildcard(LastSegment(n))))
  }

  /** Under a "files" field a packed path that is default-excluded, or lies in a
      default-excluded directory, is the root's manifest, or is named by an entry, or is an
      always-included root file that a negation in the root's ignore file lets back in. */
  lemma DefaultExclusionTakesConsent(rules: Rules, root: Tree, path: string)
    requires rules.files != [] && (root.Folder? ==> IsNamedWell(root.entries))
    requires Collected(rules, root).Some? && path in Collected(rules, root).value && IsCovered(rules.g, path)
    ensures || path == MANIFEST
            || (exists e :: e in rules.files && Names(rules.g, e, path))
            || (IsDefaultInclude(path) && rules.read(".").Some? && IsReincluded(rules.g, path, rules.read(".").value))
  {
    hide Ships, Leaves, IsHardReserved, Excludes, Strongest, IsCovered, IsDefaultInclude, IsOpen, EntryMatch,
         NormalizeFilesEntry, IsReincluded;
    ShippedMembers(rules, Leaves(".", root.entries), path);
    ShippedIsSelected(rules, path);
    StrongestIsBound(rules.g, rules.files, path);
    if e :| e in rules.files && EntryMatch(rules.g, e, path) == Direct {
      NamingTakesASpelling(rules.g, e, path);
      assert Names(rules.g, e, path);
    } else if path != MANIFEST {
      CoveredAtTheRoot(rules.g, path);
      RootIsReincluded(rules, path);
    }
  }

  lemma ShippedIsSelected(rules: Rules, path: string)
    requires rules.files != [] && Ships(rules, path)
    ensures IsSelected(rules, path)
  {
    hide IsHardReserved, IsSelected, IsOpen;
  }

  /** At the root only a path itself covers it. */
  lemma CoveredAtTheRoot(g: Library, path: string)
    requires IsCovered(g, path) && IsDefaultInclude(path)
    ensures '/' !in path && IsDefaultExcluded(g, path)
  {
    hide IsDefaultExcluded;
    assert LastSlash(path) < 0;
    assert SelfAndAbove(".") == [];
  }

  /** Naming "main" is no consent: under a "files" field that reaches it only as part of a
      directory, a default-excluded entry point is withheld. */
  lemma MainIsNoConsent(rules: Rules, path: string)
    requires rules.files != [] && path == rules.main != "" && path != MANIFEST && IsCovered(rules.g, path)
    requires forall e :: e in rules.files ==> EntryMatch(rules.g, e, path) != Direct
    ensures !Ships(rules, path)
  {
    hide IsHardReserved, Excludes, Strongest, IsCovered, IsDefaultInclude, IsOpen, EntryMatch;
    StrongestIsBound(rules.g, rules.files, path);
  }
}
