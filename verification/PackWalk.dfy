/** The pruned, memoized walk over a package tree, proved to pack exactly what the flat rules say. */
module PackWalk {
  import opened Wrappers
  import opened Paths
  import opened Ignore
  import opened FilesField
  import opened PackRules
  import opened IgnoreLoader

  lemma ClosedShipsNothing(rules: Rules, dir: string, es: seq<Entry>)
    requires IsNamedWell(es) && dir != "" && !IsOpen(rules, dir)
    ensures Shipped(rules, Leaves(dir, es)) == [] && !Stuck(rules, Leaves(dir, es))
  {
    hide IsPruned, IsWanted, IsSkippable, SelfAndAbove;
    LeavesAreBelow(dir, es);
    NoneShip(rules, Leaves(dir, es));
  }

  class Collector {
    const rules: Rules
    const ignores: Loader
    const softExcluded: DefaultExcludedTree
    var packed: seq<string>

    ghost predicate Valid()
      reads this, ignores, softExcluded
    {
      && ignores.Valid() && ignores.g == rules.g && ignores.read == rules.read
      && softExcluded.Valid() && softExcluded.g == rules.g
    }

    constructor (rules: Rules)
      ensures Valid() && this.rules == rules && packed == [] && fresh(ignores) && fresh(softExcluded)
    {
      this.rules, packed := rules, [];
      ignores := new Loader(rules.g, rules.read);
      softExcluded := new DefaultExcludedTree(rules.g);
    }

    /** The whitelist switch for one file. */
    method Selects(path: string) returns (selected: bool)
      requires Valid() && path != "." && path != ""
      modifies ignores, softExcluded
      ensures Valid() && selected == IsSelected(rules, path)
    {
      hide IsCovered, Excludes, IsDefaultInclude;
      if path == MANIFEST {
        return true;
      }
      var found := MatchFilesField(rules.g, path, rules.files);
      if (rules.main != "" && path == rules.main) || found != Unmatched {
        var covered := softExcluded.Covers(path);
        return !covered || found == Direct;
      }
      if !IsDefaultInclude(path) {
        return false;
      }
      var excluded := ignores.Excluded(path);
      selected := !excluded;
    }

    /** Whether a path the walk could not read may be skipped. */
    method MaySkip(path: string) returns (skip: bool)
      requires Valid()
      modifies ignores
      ensures Valid() && skip == UnreadableIsExcluded(rules, path)
    {
      hide Excludes, IsHardReserved, MayReach;
      if IsHardReserved(rules.g, path) {
        return true;
      }
      if rules.files == [] {
        skip := ignores.Excluded(path);
        return;
      }
      if Under(rules.main, path) {
        return false;
      }
      var reaches := FilesFieldMayReach(rules.g, path, rules.files);
      skip := !reaches;
    }

    /** The walk's visit of one path. */
    method Visit(path: string, t: Tree) returns (ok: bool)
      requires Valid() && path != "." && path != "" && IsOpen(rules, Dir(path))
      requires SelfAndAbove(path) == [path] + SelfAndAbove(Dir(path))
      requires t.Folder? ==> IsNamedWell(t.entries)
      modifies this`packed, ignores, softExcluded
      ensures Valid() && ok == !Stuck(rules, LeavesAt(path, t))
      ensures ok ==> packed == old(packed) + Shipped(rules, LeavesAt(path, t))
      decreases t, 1
    {
      hide Excludes, IsHardReserved, IsSelected, UnreadableIsExcluded, SelfAndAbove;
      LeafFacts(rules, path, t);
      if t.UnreadFolder? || (t.Unstatted? && '/' in path) {
        ok := MaySkip(path);
        return;
      }
      if t.Unstatted? {
        return false;
      }
      if t.Symlink? {
        return true;
      }
      if IsHardReserved(rules.g, path) {
        if t.Folder? { ClosedShipsNothing(rules, path, t.entries); }
        return true;
      }
      if rules.files == [] && path != MANIFEST {
        var excluded := ignores.Excluded(path);
        if excluded {
          if t.Folder? { ClosedShipsNothing(rules, path, t.entries); }
          return true;
        }
      }
      if t.Folder? {
        ok := VisitAll(path, t.entries);
        return;
      }
      if rules.files != [] {
        var selected := Selects(path);
        if !selected {
          return true;
        }
      }
      packed := packed + [path];
      ok := true;
    }

    /** The walk of a directory the rules do not prune. */
    method VisitAll(dir: string, es: seq<Entry>) returns (ok: bool)
      requires Valid() && dir != "" && IsNamedWell(es) && IsOpen(rules, dir)
      modifies this`packed, ignores, softExcluded
      ensures Valid() && ok == !Stuck(rules, Leaves(dir, es))
      ensures ok ==> packed == old(packed) + Shipped(rules, Leaves(dir, es))
      decreases es, 0
    {
      hide IsOpen, Ships, Stops, SelfAndAbove, Shipped, Stuck, Leaves, LeavesAt, Child, Dir, IsNamedWell, IsPruned;
      ok := true;
      NothingLeft(rules, dir);
      for i := 0 to |es|
        invariant Valid() && ok && Stuck(rules, Leaves(dir, es)) == Stuck(rules, Leaves(dir, es[i..]))
        invariant packed + Shipped(rules, Leaves(dir, es[i..])) == old(packed) + Shipped(rules, Leaves(dir, es))
      {
        var e := es[i];
        NextEntry(rules, dir, es, i);
        ok := Visit(Child(dir, e.name), e.tree);
        if !ok {
          return;
        }
      }
      assert es[|es|..] == [];
    }
  }

  lemma NothingLeft(rules: Rules, dir: string)
    ensures Shipped(rules, Leaves(dir, [])) == [] && !Stuck(rules, Leaves(dir, []))
  {
  }

  lemma NextEntry(rules: Rules, dir: string, es: seq<Entry>, i: nat)
    requires i < |es| && dir != "" && IsNamedWell(es) && IsOpen(rules, dir)
    ensures var e := es[i]; var p := Child(dir, e.name); var here := LeavesAt(p, e.tree);
              var left := Leaves(dir, es[i + 1..]);
            && p != "." && p != "" && IsOpen(rules, Dir(p)) && SelfAndAbove(p) == [p] + SelfAndAbove(Dir(p))
            && (e.tree.Folder? ==> IsNamedWell(e.tree.entries))
            && Shipped(rules, Leaves(dir, es[i..])) == Shipped(rules, here) + Shipped(rules, left)
            && (Stuck(rules, Leaves(dir, es[i..])) <==> Stuck(rules, here) || Stuck(rules, left))
  {
    hide IsOpen, Ships, Stops, SelfAndAbove, Shipped, Stuck, LeavesAt;
    var e := es[i];
    assert e in es && es[i..][0] == e && es[i..][1..] == es[i + 1..];
    DirOfChild(dir, e.name);
    OpenStep(rules, dir, e.name);
    ShippedSplit(rules, LeavesAt(Child(dir, e.name), e.tree), Leaves(dir, es[i + 1..]));
  }

  lemma LeafFacts(rules: Rules, path: string, t: Tree)
    requires IsOpen(rules, Dir(path)) && SelfAndAbove(path) == [path] + SelfAndAbove(Dir(path))
    ensures t.File? ==> Shipped(rules, LeavesAt(path, t)) == if IsWanted(rules, path) then [path] else []
    ensures t.File? || t.Symlink? ==> !Stuck(rules, LeavesAt(path, t))
    ensures t.Symlink? || t.UnreadFolder? || t.Unstatted? ==> Shipped(rules, LeavesAt(path, t)) == []
    ensures t.UnreadFolder? ==> (Stuck(rules, LeavesAt(path, t)) <==> !UnreadableIsExcluded(rules, path))
    ensures t.Unstatted? ==> (Stuck(rules, LeavesAt(path, t)) <==> '/' !in path || !UnreadableIsExcluded(rules, path))
    ensures IsOpen(rules, path) <==> !IsPruned(rules, path)
  {
    hide IsWanted, IsPruned, UnreadableIsExcluded, SelfAndAbove;
    var leaves := LeavesAt(path, t);
    assert |leaves| == 1 ==> leaves[1..] == [] && leaves == [leaves[0]];
    assert t.UnreadFolder? ==> leaves == [Leaf(path, Unread)] && leaves[0] in leaves;
    assert t.Unstatted? ==> leaves == [Leaf(path, Unknown)] && leaves[0] in leaves;
  }

  /** Walks a package from its root: an unreadable root stops it, anything but a directory holds nothing. */
  method CollectFiles(rules: Rules, root: Tree) returns (r: Option<seq<string>>)
    requires root.Folder? ==> IsNamedWell(root.entries)
    ensures r == Collected(rules, root)
  {
    hide IsOpen, Ships, Stops, Shipped, Stuck, Leaves, LeavesAt, IsNamedWell;
    if root.UnreadFolder? || root.Unstatted? {
      return None;
    }
    if !root.Folder? {
      return Some([]);
    }
    var collector := new Collector(rules);
    RootIsOpen(rules);
    var ok := collector.VisitAll(".", root.entries);
    assert [] + Shipped(rules, Leaves(".", root.entries)) == Shipped(rules, Leaves(".", root.entries));
    r := if ok then Some(collector.packed) else None;
  }

  lemma RootIsOpen(rules: Rules)
    ensures IsOpen(rules, ".")
  {
  }

  /** The flat account of a pack: stopped by what may not be skipped, and otherwise every
      leaf that ships, in the order of the walk. */
  function Collected(rules: Rules, root: Tree): Option<seq<string>> {
    match root
    case UnreadFolder => None
    case Unstatted => None
    case Folder(es) => if Stuck(rules, Leaves(".", es)) then None else Some(Shipped(rules, Leaves(".", es)))
    case _ => Some([])
  }

  // ---------------------------------------------------------------- what ships

  predicate AllRegular(leaves: seq<Leaf>) {
    forall leaf :: leaf in leaves ==> leaf.kind == Regular
  }

  /** The rules without a walk: no name on the way is hard-reserved, and without a "files"
      field none is ignored, the manifest and a directory of its name apart, while with one
      the whitelist selects the path. */
  predicate ShipsFlatly(rules: Rules, path: string) {
    && (forall a :: a in SelfAndAbove(path) ==> !IsHardReserved(rules.g, a))
    && if rules.files == [] then forall a :: a in SelfAndAbove(path) ==>
        a == MANIFEST || !Excludes(rules.g, rules.read, a)
       else IsSelected(rules, path)
  }

  lemma WalkedIsFlat(rules: Rules, path: string)
    requires path != "." && path != ""
    ensures Ships(rules, path) <==> ShipsFlatly(rules, path)
  {
    hide IsHardReserved, Excludes, IsSelected, SelfAndAbove, Depth, Dir;
    SelfThenAbove(path);
    assert forall a :: a in SelfAndAbove(path) <==> a == path || a in SelfAndAbove(Dir(path));
  }

  lemma SelfThenAbove(path: string)
    requires path != "." && path != ""
    ensures SelfAndAbove(path) == [path] + SelfAndAbove(Dir(path))
  {
    DirIsShallower(path);
  }

  /** With nothing unreadable, the pruned walk packs exactly the regular files that ship flatly. */
  lemma PackIsFlat(rules: Rules, es: seq<Entry>, path: string)
    requires IsNamedWell(es) && AllRegular(Leaves(".", es))
    ensures var r := Collected(rules, Folder(es));
            r.Some? && (path in r.value <==> Leaf(path, Regular) in Leaves(".", es) && ShipsFlatly(rules, path))
  {
    hide Ships, ShipsFlatly, Leaves, IsOpen, IsSkippable;
    ShippedMembers(rules, Leaves(".", es), path);
    LeavesAreBelow(".", es);
    if Leaf(path, Regular) in Leaves(".", es) { WalkedIsFlat(rules, path); }
  }

  /** Nothing lets in a path at or beneath a hard-reserved one, readable tree or not. */
  lemma HardReservedNeverShips(rules: Rules, root: Tree, path: string)
    requires root.Folder? ==> IsNamedWell(root.entries)
    requires Collected(rules, root).Some? && path in Collected(rules, root).value
    ensures forall a :: a in SelfAndAbove(path) ==> !IsHardReserved(rules.g, a)
  {
    hide Ships, Leaves, IsHardReserved, SelfAndAbove;
    LeavesAreBelow(".", root.entries);
    ShippedMembers(rules, Leaves(".", root.entries), path);
    WalkedIsFlat(rules, path);
  }
}
