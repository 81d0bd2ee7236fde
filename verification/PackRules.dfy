/** What a publish ships, stated flatly: which paths of a package tree are packed and which
    unreadable ones stop the pack. */
module PackRules {
  import opened Paths
  import opened Glob
  import opened Ignore
  import opened FilesField

  const MANIFEST := "package.json"

  const DEFAULT_INCLUDES: seq<string> := [
    "package.json", "README*", "LICENSE*", "LICENCE*",
    "CHANGELOG", "CHANGELOG.md", "CHANGELOG.markdown", "CHANGELOG.txt", "CHANGELOG.rst",
    "CHANGES", "CHANGES.md", "CHANGES.markdown", "CHANGES.txt", "CHANGES.rst",
    "HISTORY", "HISTORY.md", "HISTORY.markdown", "HISTORY.txt", "HISTORY.rst"]

  /** What decides a pack: the glob library, the ignore files, the manifest's "files" and
      the path its "main" names, "" for none. */
  datatype Rules = Rules(g: Library, read: Reader, files: seq<string>, main: string)

  predicate IsDefaultInclude(path: string) {
    '/' !in path && exists i :: 0 <= i < |DEFAULT_INCLUDES| && SegmentMatch(Lower(DEFAULT_INCLUDES[i]), Lower(path))
  }

  predicate IsNamed(rules: Rules, path: string) {
    Strongest(rules.g, rules.files, path) == Direct
  }

  /** The whitelist's answer for a file that is not hard-reserved. */
  predicate IsSelected(rules: Rules, path: string) {
    if path == MANIFEST then true
    else if (rules.main != "" && path == rules.main) || Strongest(rules.g, rules.files, path) != Unmatched then
      IsCovered(rules.g, path) ==> IsNamed(rules, path)
    else IsDefaultInclude(path) && !Excludes(rules.g, rules.read, path)
  }

  /** Whether the walk refuses to descend into a directory. */
  predicate IsPruned(rules: Rules, dir: string) {
    IsHardReserved(rules.g, dir) || (rules.files == [] && dir != MANIFEST && Excludes(rules.g, rules.read, dir))
  }

  /** Whether the walk gets to a directory's contents. */
  predicate IsOpen(rules: Rules, dir: string) {
    forall a :: a in SelfAndAbove(dir) ==> !IsPruned(rules, a)
  }

  predicate IsWanted(rules: Rules, path: string) {
    && !IsHardReserved(rules.g, path)
    && if rules.files == [] then path == MANIFEST || !Excludes(rules.g, rules.read, path) else IsSelected(rules, path)
  }

  /** Whether a regular file at a path is packed. */
  predicate Ships(rules: Rules, path: string) {
    IsOpen(rules, Dir(path)) && IsWanted(rules, path)
  }

  /** Whether the rules already put everything at or beneath an unreadable path outside the pack. */
  predicate UnreadableIsExcluded(rules: Rules, path: string) {
    || IsHardReserved(rules.g, path)
    || (if rules.files == [] then Excludes(rules.g, rules.read, path)
        else !Under(rules.main, path) && !MayReach(rules.g, path, rules.files))
  }

  // ---------------------------------------------------------------- trees

  /** A package on disk. Special files count as files; a directory may fail to be read, and
      a name may fail to be looked up at all. */
  datatype Tree = File | Symlink | Folder(entries: seq<Entry>) | UnreadFolder | Unstatted

  datatype Entry = Entry(name: string, tree: Tree)

  predicate IsNamedWell(es: seq<Entry>)
    decreases es
  {
    forall e :: e in es ==> IsName(e.name) && (e.tree.Folder? ==> IsNamedWell(e.tree.entries))
  }

  datatype Kind = Regular | Unread | Unknown

  /** A leaf of the tree with the path to it. */
  datatype Leaf = Leaf(path: string, kind: Kind)

  function LeavesAt(path: string, t: Tree): seq<Leaf>
    decreases t, 1
  {
    match t
    case File => [Leaf(path, Regular)]
    case Symlink => []
    case Folder(entries) => Leaves(path, entries)
    case UnreadFolder => [Leaf(path, Unread)]
    case Unstatted => [Leaf(path, Unknown)]
  }

  /** Every leaf beneath a directory, symbolic links apart, whatever the rules say. */
  function Leaves(dir: string, es: seq<Entry>): seq<Leaf>
    decreases es, 0
  {
    if es == [] then [] else LeavesAt(Child(dir, es[0].name), es[0].tree) + Leaves(dir, es[1..])
  }

  /** The paths of the leaves that ship. */
  function Shipped(rules: Rules, leaves: seq<Leaf>): seq<string> {
    if leaves == [] then []
    else
      (if leaves[0].kind == Regular && Ships(rules, leaves[0].path) then [leaves[0].path] else [])
      + Shipped(rules, leaves[1..])
  }

  predicate IsSkippable(rules: Rules, leaf: Leaf) {
    (leaf.kind == Unknown ==> '/' in leaf.path) && UnreadableIsExcluded(rules, leaf.path)
  }

  /** Whether the walk meets a leaf it cannot read and may not skip. */
  predicate Stops(rules: Rules, leaf: Leaf) {
    leaf.kind != Regular && IsOpen(rules, Dir(leaf.path)) && !IsSkippable(rules, leaf)
  }

  predicate Stuck(rules: Rules, leaves: seq<Leaf>) {
    exists leaf :: leaf in leaves && Stops(rules, leaf)
  }

  lemma {:induction false} ShippedSplit(rules: Rules, a: seq<Leaf>, b: seq<Leaf>)
    ensures Shipped(rules, a + b) == Shipped(rules, a) + Shipped(rules, b)
    ensures Stuck(rules, a + b) <==> Stuck(rules, a) || Stuck(rules, b)
  {
    hide Ships, Stops, Stuck;
    StuckSplit(rules, a, b);
    if a == [] {
      assert a + b == b;
    } else {
      assert (a + b)[1..] == a[1..] + b;
      ShippedSplit(rules, a[1..], b);
    }
  }

  lemma StuckSplit(rules: Rules, a: seq<Leaf>, b: seq<Leaf>)
    ensures Stuck(rules, a + b) <==> Stuck(rules, a) || Stuck(rules, b)
  {
    hide Stops;
    if leaf :| leaf in a && Stops(rules, leaf) { assert leaf in a + b; }
    if leaf :| leaf in b && Stops(rules, leaf) { assert leaf in a + b; }
  }

  lemma {:induction false} NoneShip(rules: Rules, leaves: seq<Leaf>)
    requires forall leaf :: leaf in leaves && leaf.kind == Regular ==> !Ships(rules, leaf.path)
    ensures Shipped(rules, leaves) == []
  {
    hide Ships;
    if leaves != [] { NoneShip(rules, leaves[1..]); }
  }

  lemma {:induction false} ShippedMembers(rules: Rules, leaves: seq<Leaf>, path: string)
    ensures path in Shipped(rules, leaves) <==> Leaf(path, Regular) in leaves && Ships(rules, path)
  {
    hide Ships;
    if leaves != [] {
      ShippedMembers(rules, leaves[1..], path);
      assert leaves == [leaves[0]] + leaves[1..];
    }
  }

  // ---------------------------------------------------------------- paths in a tree

  lemma OpenStep(rules: Rules, dir: string, name: string)
    requires IsName(name)
    ensures IsOpen(rules, Child(dir, name)) <==> IsOpen(rules, dir) && !IsPruned(rules, Child(dir, name))
    ensures SelfAndAbove(Child(dir, name)) == [Child(dir, name)] + SelfAndAbove(dir)
  {
    hide IsPruned;
    DirOfChild(dir, name);
    var p := Child(dir, name);
    DirIsShallower(p);
    assert SelfAndAbove(p) == [p] + SelfAndAbove(Dir(p));
  }

  /** Everything beneath a directory has it among the directories above it. */
  lemma {:induction false} LeavesAreBelow(dir: string, es: seq<Entry>)
    requires IsNamedWell(es) && dir != ""
    ensures forall leaf :: leaf in Leaves(dir, es) ==> IsBelow(leaf.path, dir)
    decreases es, 0
  {
    if es != [] {
      LeafIsBelow(dir, es[0]);
      LeavesAreBelow(dir, es[1..]);
    }
  }

  /** A path strictly beneath a directory; the root holds everything. */
  predicate IsBelow(path: string, dir: string) {
    && path != "." && path != ""
    && (forall a :: a in SelfAndAbove(dir) ==> a in SelfAndAbove(Dir(path)))
    && (dir != "." ==> Under(path, dir) && '/' in path && dir in SelfAndAbove(Dir(path)))
    && EntersBy(path, dir)
  }

  /** The way to a path leads through some name in a directory. */
  predicate EntersBy(path: string, dir: string) {
    exists a :: a in SelfAndAbove(path) && a != "." && Dir(a) == dir && IsName(Base(a)) && a == Child(dir, Base(a))
  }

  lemma {:induction false} LeafIsBelow(dir: string, e: Entry)
    requires IsName(e.name) && (e.tree.Folder? ==> IsNamedWell(e.tree.entries)) && dir != ""
    ensures forall leaf :: leaf in LeavesAt(Child(dir, e.name), e.tree) ==> IsBelow(leaf.path, dir)
    decreases e.tree, 1
  {
    hide SelfAndAbove;
    var p := Child(dir, e.name);
    ChildIsBelow(dir, e.name);
    if e.tree.Folder? {
      LeavesAreBelow(p, e.tree.entries);
      forall leaf | leaf in Leaves(p, e.tree.entries) ensures IsBelow(leaf.path, dir) { BelowTrans(leaf.path, p, dir); }
    }
  }

  lemma ChildIsBelow(dir: string, name: string)
    requires IsName(name) && dir != ""
    ensures IsBelow(Child(dir, name), dir) && Child(dir, name) != ""
  {
    DirOfChild(dir, name);
    assert dir != "." ==> SelfAndAbove(dir)[0] == dir;
    ChildEnters(dir, name);
  }

  lemma ChildEnters(dir: string, name: string)
    requires IsName(name) && dir != ""
    ensures EntersBy(Child(dir, name), dir)
  {
    hide Dir;
    var p := Child(dir, name);
    DirOfChild(dir, name);
    DirIsShallower(p);
    assert p in SelfAndAbove(p);
    BaseOfChild(dir, name);
  }

  lemma BelowTrans(q: string, p: string, dir: string)
    requires IsBelow(q, p) && IsBelow(p, dir) && p != "."
    ensures IsBelow(q, dir)
  {
    DirIsShallower(p);
    assert SelfAndAbove(p) == [p] + SelfAndAbove(Dir(p));
    if dir != "." { UnderTrans(q, p, dir); }
    EntersBelow(q, p, dir);
  }

  lemma EntersBelow(q: string, p: string, dir: string)
    requires EntersBy(p, dir) && q != "." && q != "" && forall a :: a in SelfAndAbove(p) ==> a in SelfAndAbove(Dir(q))
    ensures EntersBy(q, dir)
  {
    hide Dir, Base;
    DirIsShallower(q);
    var a :| a in SelfAndAbove(p) && a != "." && Dir(a) == dir && IsName(Base(a)) && a == Child(dir, Base(a));
    assert a in SelfAndAbove(q);
  }
}
