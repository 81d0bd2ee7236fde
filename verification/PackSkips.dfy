/** What skipping an unreadable path may lose: the ignore files that could not be looked up.
    Exactly when a walk that met unreadable paths ships what it would ship with them readable. */
module PackSkips {
  import opened Wrappers
  import opened Paths
  import opened Glob
  import opened Ignore
  import opened FilesField
  import opened PackRules
  import opened PackWalk
  import opened PackLaws
  import opened PackManifest
  import opened IgnoreVerdicts

  // ---------------------------------------------------------------- which ignore files may be hidden

  /** A directory one of whose ignore files could not be looked up, so that its lines may be
      others once it can be. The npm file is asked for first. */
  predicate HidesItsLines(read: Reader, dir: string, es: seq<Entry>) {
    exists e :: e in es && e.tree.Unstatted? && (e.name == ".npmignore" || (e.name == ".gitignore" && read(dir).None?))
  }

  function FoldersAt(path: string, t: Tree): set<string>
    decreases t, 1
  {
    match t
    case Folder(es) => {path} + FoldersIn(path, es)
    case UnreadFolder => {path}
    case _ => {}
  }

  /** The directories beneath one, those that could not be read included. */
  function FoldersIn(dir: string, es: seq<Entry>): set<string>
    decreases es, 0
  {
    if es == [] then {} else FoldersAt(Child(dir, es[0].name), es[0].tree) + FoldersIn(dir, es[1..])
  }

  function HiddenAt(read: Reader, path: string, t: Tree): set<string>
    decreases t, 1
  {
    match t
    case Folder(es) => (if HidesItsLines(read, path, es) then {path} else {}) + HiddenIn(read, path, es)
    case UnreadFolder => if read(path).None? then {path} else {}
    case _ => {}
  }

  /** The directories whose ignore file may say something else once everything can be read. */
  function HiddenIn(read: Reader, dir: string, es: seq<Entry>): set<string>
    decreases es, 0
  {
    if es == [] then {} else HiddenAt(read, Child(dir, es[0].name), es[0].tree) + HiddenIn(read, dir, es[1..])
  }

  /** A listing with an ignore file that can be looked up. */
  predicate ShowsIgnoreFile(es: seq<Entry>) {
    exists e :: e in es && (e.name == ".npmignore" || e.name == ".gitignore") && (e.tree.File? || e.tree.Symlink?)
  }

  function ShowsAt(path: string, t: Tree): set<string>
    decreases t, 1
  {
    match t
    case Folder(es) => (if ShowsIgnoreFile(es) then {path} else {}) + ShowsIn(path, es)
    case UnreadFolder => {path}
    case _ => {}
  }

  /** The directories beneath one that show an ignore file or could not be listed. */
  function ShowsIn(dir: string, es: seq<Entry>): set<string>
    decreases es, 0
  {
    if es == [] then {} else ShowsAt(Child(dir, es[0].name), es[0].tree) + ShowsIn(dir, es[1..])
  }

  /** A reader has lines only where a tree has an ignore file to read them from. */
  ghost predicate IsTruthful(es: seq<Entry>, read: Reader) {
    && (read(".").Some? ==> ShowsIgnoreFile(es))
    && forall d :: d in FoldersIn(".", es) && read(d).Some? ==> d in ShowsIn(".", es)
  }

  /** What a directory's ignore file says may differ once the tree can be read only where the
      file was hidden, or beneath what could not be read at all. */
  ghost predicate ReadsAgree(es: seq<Entry>, read: Reader, read': Reader) {
    read'(".") == read(".") && forall d :: d in FoldersIn(".", es) - HiddenIn(read, ".", es) ==> read'(d) == read(d)
  }

  function Overridden(read: Reader, hidden: set<string>, lines: seq<string>): Reader {
    d => if d in hidden then Some(lines) else read(d)
  }

  /** A leaf that some rules would let out: itself, or some name in a directory. */
  ghost predicate LetsOut(rules: Rules, leaf: Leaf) {
    if leaf.kind == Unread then exists name :: IsName(name) && Ships(rules, Child(leaf.path, name))
    else Ships(rules, leaf.path)
  }

  predicate LiesBeneath(dirs: set<string>, path: string) {
    exists d :: d in SelfAndAbove(Dir(path)) && d in dirs
  }

  /** Some leaf beneath a hidden ignore file would ship if every hidden one let everything in. */
  ghost predicate HangsOnHidden(rules: Rules, es: seq<Entry>) {
    var hidden := HiddenIn(rules.read, ".", es);
    exists leaf :: leaf in Leaves(".", es) && LiesBeneath(hidden, leaf.path)
                   && LetsOut(rules.(read := Overridden(rules.read, hidden, LET_IN)), leaf)
  }

  /** The manifest was read, so it is no directory. */
  predicate ManifestIsRead(es: seq<Entry>) {
    forall e :: e in es && e.name == MANIFEST ==> !e.tree.Folder? && !e.tree.UnreadFolder?
  }

  /** Whatever tree this one turns out to be, and whatever the hidden ignore files it turns out
      to have say, the same files ship. */
  ghost predicate LosesNothing(rules: Rules, es: seq<Entry>) {
    forall es', read' | IsNamedWell(es') && RevealsAll(es, es') && ManifestIsNoFolder(es') &&
        ReadsAgree(es, rules.read, read') && IsTruthful(es', read') ::
      Shipped(rules.(read := read'), Leaves(".", es')) == Shipped(rules, Leaves(".", es))
  }

  // ---------------------------------------------------------------- what stands above a leaf

  /** Every directory above a leaf was read by the walk. */
  predicate IsReachedThrough(folders: set<string>, dir: string, path: string) {
    && IsRooted(path) && path != "." && path != ""
    && forall a :: a in SelfAndAbove(Dir(path)) ==> a in SelfAndAbove(dir) || a in folders
  }

  lemma {:induction false} LeavesAreReached(dir: string, es: seq<Entry>)
    requires IsNamedWell(es) && IsRooted(dir) && dir != ""
    ensures forall leaf :: leaf in Leaves(dir, es) ==> IsReachedThrough(FoldersIn(dir, es), dir, leaf.path)
    decreases es, 0
  {
    hide IsReachedThrough, SelfAndAbove, Dir;
    if es != [] {
      assert es[0] in es;
      LeafIsReached(dir, es[0]);
      LeavesAreReached(dir, es[1..]);
      forall leaf | leaf in Leaves(dir, es) ensures IsReachedThrough(FoldersIn(dir, es), dir, leaf.path) {
        if leaf in Leaves(dir, es[1..]) {
          MoreFolders(FoldersIn(dir, es[1..]), FoldersIn(dir, es), dir, leaf.path);
        } else {
          MoreFolders(FoldersAt(Child(dir, es[0].name), es[0].tree), FoldersIn(dir, es), dir, leaf.path);
        }
      }
    }
  }

  lemma MoreFolders(folders: set<string>, more: set<string>, dir: string, path: string)
    requires folders <= more && IsReachedThrough(folders, dir, path)
    ensures IsReachedThrough(more, dir, path)
  {
  }

  lemma {:induction false} LeafIsReached(dir: string, e: Entry)
    requires IsName(e.name) && (e.tree.Folder? ==> IsNamedWell(e.tree.entries)) && IsRooted(dir) && dir != ""
    ensures forall leaf :: leaf in LeavesAt(Child(dir, e.name), e.tree) ==>
              IsReachedThrough(FoldersAt(Child(dir, e.name), e.tree), dir, leaf.path)
    decreases e.tree, 1
  {
    hide SelfAndAbove, Dir, Depth;
    var p := Child(dir, e.name);
    DirOfChild(dir, e.name);
    DirIsShallower(p);
    SelfThenAbove(p);
    if e.tree.Folder? { LeavesAreReached(p, e.tree.entries); }
  }

  lemma {:induction false} ManifestHoldsNothing(dir: string, es: seq<Entry>)
    requires IsNamedWell(es) && dir != "" && (dir == "." ==> ManifestIsRead(es))
    ensures MANIFEST !in FoldersIn(dir, es)
    decreases es, 0
  {
    hide Dir, IsName, ManifestIsRead;
    if es != [] {
      var e := es[0];
      var p := Child(dir, e.name);
      WellNamedRest(es);
      if dir == "." { ManifestReadRest(es); }
      DirOfChild(dir, e.name);
      ChildIsNamed(dir, e.name);
      assert '/' !in MANIFEST;
      if e.tree.Folder? { ManifestHoldsNothing(p, e.tree.entries); }
      ManifestHoldsNothing(dir, es[1..]);
    }
  }

  lemma ManifestReadRest(es: seq<Entry>)
    requires ManifestIsRead(es) && es != []
    ensures ManifestIsRead(es[1..]) && (es[0].name == MANIFEST ==> !es[0].tree.Folder? && !es[0].tree.UnreadFolder?)
  {
    assert forall x :: x in es[1..] ==> x in es;
  }

  lemma {:induction false} AboveIsAbove(path: string, a: string)
    requires a in SelfAndAbove(path)
    ensures forall b :: b in SelfAndAbove(a) ==> b in SelfAndAbove(path)
    decreases Depth(path)
  {
    hide Depth, Dir;
    DirIsShallower(path);
    SelfThenAbove(path);
    if a != path { AboveIsAbove(Dir(path), a); }
  }

  // ---------------------------------------------------------------- nothing is lost

  lemma AllExcludesAgree(g: Library, read: Reader, read': Reader, path: string)
    requires IsRooted(path) && path != "." && path != "" && SameAbove(read, read', Dir(path))
    ensures forall a :: a in SelfAndAbove(path) ==> Excludes(g, read', a) == Excludes(g, read, a)
  {
    hide Depth, Dir, Excludes, SameAbove, IsRooted;
    RootedAbove(path);
    SelfThenAbove(path);
    forall a | a in SelfAndAbove(path) ensures Excludes(g, read', a) == Excludes(g, read, a) {
      if a != path { AboveAgrees(read, read', Dir(path), a); }
      ExcludesAgree(g, read, read', a);
    }
  }

  lemma RootedAbove(path: string)
    requires IsRooted(path) && path != "."
    ensures IsRooted(Dir(path))
  {
  }

  /** Under a "files" field only the root's ignore file is ever asked. */
  lemma WhitelistAsksTheRoot(rules: Rules, read': Reader, q: string)
    requires rules.files != [] && q != "." && read'(".") == rules.read(".")
    ensures Ships(rules.(read := read'), q) == Ships(rules, q)
  {
    hide IsHardReserved, Excludes, IsCovered, Strongest, IsDefaultInclude, SelfAndAbove;
    DefaultIncludesAreAtTheRoot(q);
    if '/' !in q {
      assert LastSlash(q) < 0;
      assert Dir(q) == ".";
      RootIsAlone();
      ExcludesAgree(rules.g, rules.read, read', q);
    }
  }

  lemma RootIsAlone()
    ensures SelfAndAbove(".") == [] && IsRooted(".")
  {
  }

  lemma WhitelistIsSettled(rules: Rules, read': Reader, leaf: Leaf)
    requires IsLibrary(rules.g) && rules.files != [] && read'(".") == rules.read(".")
    requires leaf.path != "." && leaf.path != "" && !Stops(rules, leaf)
    ensures IsSettled(rules, rules.(read := read'), leaf)
  {
    hide Ships, Stops, IsBelow;
    WhitelistAsksTheRoot(rules, read', leaf.path);
    UnknownIsBelowTheRoot(rules, leaf);
    if leaf.kind != Regular && leaf.path != MANIFEST {
      SkippedShipsNothing(rules, leaf);
      forall q | IsBelow(q, leaf.path) ensures !Ships(rules.(read := read'), q) {
        BelowIsNoRoot(q, leaf.path);
        WhitelistAsksTheRoot(rules, read', q);
      }
    }
  }

  lemma BelowIsNoRoot(q: string, p: string)
    requires IsBelow(q, p)
    ensures q != "." && q != ""
  {
  }

  /** A leaf with no hidden ignore file above it means what it meant. */
  lemma UnhiddenIsSettled(rules: Rules, read': Reader, leaf: Leaf)
    requires IsLibrary(rules.g) && rules.files == [] && !Stops(rules, leaf)
    requires IsRooted(leaf.path) && leaf.path != "." && leaf.path != "" && SameAbove(rules.read, read', Dir(leaf.path))
    ensures IsSettled(rules, rules.(read := read'), leaf)
  {
    hide IsHardReserved, Excludes, SelfAndAbove, SameAbove, IsRooted, ShipsNothing, Dir, Depth;
    var rules' := rules.(read := read');
    AllExcludesAgree(rules.g, rules.read, read', leaf.path);
    SelfThenAbove(leaf.path);
    assert forall a :: a in SelfAndAbove(Dir(leaf.path)) ==> a in SelfAndAbove(leaf.path);
    UnknownIsBelowTheRoot(rules, leaf);
    if leaf.kind != Regular && leaf.path != MANIFEST { SkippedShipsNothing(rules', leaf); }
  }

  /** What ships under some ignore files ships when the hidden ones let everything in. */
  lemma ShipsMoreLoosely(rules: Rules, read': Reader, loose: Reader, q: string)
    requires IsLibrary(rules.g) && rules.files == [] && IsRooted(q) && q != "." && q != ""
    requires MANIFEST !in SelfAndAbove(q) && IsLooser(read', loose, Dir(q)) && Ships(rules.(read := read'), q)
    ensures Ships(rules.(read := loose), q)
  {
    hide IsHardReserved, Excludes, SelfAndAbove, IsLooser, IsRooted, Ships, Dir, Depth;
    WalkedIsFlat(rules.(read := read'), q);
    LooserKeepsIn(rules.g, read', loose, q);
    WalkedIsFlat(rules.(read := loose), q);
  }

  /** What ships beneath a path ships through each name on the way. */
  lemma ShipsThrough(rules: Rules, q: string, a: string)
    requires rules.files == [] && q != "." && q != "" && MANIFEST !in SelfAndAbove(a)
    requires a in SelfAndAbove(q) && a != "." && a != "" && Ships(rules, q)
    ensures Ships(rules, a)
  {
    hide IsHardReserved, Excludes, SelfAndAbove, Ships, Dir, Depth;
    WalkedIsFlat(rules, q);
    AboveIsAbove(q, a);
    WalkedIsFlat(rules, a);
  }

  /** A leaf beneath a hidden ignore file that lets nothing out even when every hidden one
      lets everything in. */
  lemma HiddenIsSettled(rules: Rules, read': Reader, loose: Reader, leaf: Leaf)
    requires IsLibrary(rules.g) && rules.files == [] && IsRooted(leaf.path) && leaf.path != "." && leaf.path != ""
    requires MANIFEST !in SelfAndAbove(leaf.path)
    requires IsLooser(rules.read, loose, Dir(leaf.path)) && IsLooser(read', loose, Dir(leaf.path))
    requires leaf.kind == Unread ==> loose(leaf.path) == read'(leaf.path) || loose(leaf.path) == Some(LET_IN)
    requires !LetsOut(rules.(read := loose), leaf)
    ensures IsSettled(rules, rules.(read := read'), leaf)
  {
    hide Ships, SelfAndAbove, IsLooser, IsRooted, IsBelow, Dir;
    var path, rules' := leaf.path, rules.(read := read');
    SelfThenAbove(path);
    if leaf.kind == Unread {
      forall q | IsBelow(q, path) ensures !Ships(rules', q) {
        if Ships(rules', q) { EntryWouldShip(rules, read', loose, path, q); }
      }
    } else {
      if Ships(rules', path) { ShipsMoreLoosely(rules, read', loose, path); }
      if Ships(rules.(read := rules.read), path) { ShipsMoreLoosely(rules, rules.read, loose, path); }
      forall q | IsBelow(q, path) ensures !Ships(rules', q) {
        if Ships(rules', q) {
          BelowIsNoRoot(q, path);
          BelowMeans(q, path);
          ShipsThrough(rules', q, path);
        }
      }
    }
  }

  lemma EntryWouldShip(rules: Rules, read': Reader, loose: Reader, path: string, q: string)
    requires IsLibrary(rules.g) && rules.files == [] && IsRooted(path) && path != "." && path != ""
    requires MANIFEST !in SelfAndAbove(path) && IsLooser(read', loose, Dir(path))
    requires loose(path) == read'(path) || loose(path) == Some(LET_IN)
    requires IsBelow(q, path) && Ships(rules.(read := read'), q)
    ensures exists name :: IsName(name) && Ships(rules.(read := loose), Child(path, name))
  {
    hide Ships, SelfAndAbove, IsBelow, Dir, Base, IsName, Child, IsLibrary, IsRooted, IsLooser;
    BelowIsNoRoot(q, path);
    BelowEnters(q, path);
    var a :| a in SelfAndAbove(q) && a != "." && Dir(a) == path && IsName(Base(a)) && a == Child(path, Base(a));
    ChildIsNamed(path, Base(a));
    SelfThenAbove(a);
    ChildIsNotManifest(path, Base(a));
    ShipsThrough(rules.(read := read'), q, a);
    RootedBelow(a, path);
    LooserBelow(read', loose, path);
    ShipsMoreLoosely(rules, read', loose, a);
  }

  lemma ChildIsNotManifest(path: string, name: string)
    requires IsName(name) && path != "."
    ensures Child(path, name) != MANIFEST
  {
    DirOfChild(path, name);
    assert '/' !in MANIFEST;
  }

  lemma LooserBelow(read: Reader, loose: Reader, path: string)
    requires path != "." && path != "" && IsLooser(read, loose, Dir(path))
    requires loose(path) == read(path) || loose(path) == Some(LET_IN)
    ensures IsLooser(read, loose, path)
  {
    hide Dir;
    SelfThenAbove(path);
  }

  lemma BelowEnters(q: string, p: string)
    requires IsBelow(q, p)
    ensures EntersBy(q, p)
  {
  }

  lemma {:induction false} UnreadIsAFolder(dir: string, es: seq<Entry>)
    ensures forall leaf :: leaf in Leaves(dir, es) && leaf.kind == Unread ==> leaf.path in FoldersIn(dir, es)
    decreases es, 0
  {
    if es != [] {
      if es[0].tree.Folder? { UnreadIsAFolder(Child(dir, es[0].name), es[0].tree.entries); }
      UnreadIsAFolder(dir, es[1..]);
    }
  }

  lemma {:induction false} RootIsNotHidden(read: Reader, dir: string, es: seq<Entry>)
    requires IsNamedWell(es)
    ensures "." !in HiddenIn(read, dir, es)
    decreases es, 0
  {
    if es != [] {
      assert es[0] in es;
      DirOfChild(dir, es[0].name);
      if es[0].tree.Folder? { RootIsNotHidden(read, Child(dir, es[0].name), es[0].tree.entries); }
      assert forall x :: x in es[1..] ==> x in es;
      RootIsNotHidden(read, dir, es[1..]);
    }
  }

  lemma LeafIsSettled(rules: Rules, es: seq<Entry>, read': Reader, leaf: Leaf)
    requires IsLibrary(rules.g) && IsNamedWell(es) && ManifestIsRead(es) && ReadsAgree(es, rules.read, read')
    requires rules.files != [] || !HangsOnHidden(rules, es)
    requires leaf in Leaves(".", es) && !Stops(rules, leaf)
    ensures IsSettled(rules, rules.(read := read'), leaf)
  {
    hide Ships, Stops, SelfAndAbove, IsRooted, IsSettled, Dir, Leaves, FoldersIn, HiddenIn, IsNamedWell, LetsOut;
    assert IsRooted(".") by { RootIsAlone(); }
    LeavesAreReached(".", es);
    UnreadIsAFolder(".", es);
    RootIsAlone();
    var hidden, folders, path := HiddenIn(rules.read, ".", es), FoldersIn(".", es), leaf.path;
    var loose := Overridden(rules.read, hidden, LET_IN);
    if rules.files != [] {
      WhitelistIsSettled(rules, read', leaf);
    } else if LiesBeneath(hidden, path) {
      ManifestHoldsNothing(".", es);
      SelfThenAbove(path);
      BeneathHasSlash(path);
      HiddenIsSettled(rules, read', loose, leaf);
    } else {
      UnhiddenIsSettled(rules, read', leaf);
    }
  }

  lemma BeneathHasSlash(path: string)
    requires SelfAndAbove(Dir(path)) != []
    ensures path != MANIFEST
  {
    if path == MANIFEST {
      assert '/' !in MANIFEST && LastSlash(path) < 0;
      RootIsAlone();
    }
  }

  lemma NothingHiddenLosesNothing(rules: Rules, es: seq<Entry>, es': seq<Entry>, read': Reader)
    requires IsLibrary(rules.g) && IsNamedWell(es) && ManifestIsRead(es) && !Stuck(rules, Leaves(".", es))
    requires rules.files != [] || !HangsOnHidden(rules, es)
    requires IsNamedWell(es') && RevealsAll(es, es') && ManifestIsNoFolder(es') && ReadsAgree(es, rules.read, read')
    ensures Shipped(rules.(read := read'), Leaves(".", es')) == Shipped(rules, Leaves(".", es))
  {
    hide Ships, Stops, IsSettled, Leaves, IsNamedWell, Shipped, HangsOnHidden, ReadsAgree, RevealsAll, ManifestIsRead,
         ManifestIsNoFolder;
    forall leaf | leaf in Leaves(".", es) ensures IsSettled(rules, rules.(read := read'), leaf) {
      LeafIsSettled(rules, es, read', leaf);
    }
    SettledTreesShipAlike(rules, rules.(read := read'), ".", es, es');
  }

  // ---------------------------------------------------------------- something is lost

  /** The tree with everything readable: what had no kind is a file, and a directory that
      could not be read holds an npm ignore file and a file of a given name. */
  function BareTree(t: Tree, name: string): Tree
    decreases t, 1
  {
    match t
    case Folder(es) => Folder(Bare(es, name))
    case UnreadFolder => Folder(BareEntries(name))
    case Unstatted => File
    case _ => t
  }

  function BareEntries(name: string): seq<Entry> {
    if name == NPM_IGNORE then [Entry(name, File)] else [Entry(name, File), Entry(NPM_IGNORE, File)]
  }

  function Bare(es: seq<Entry>, name: string): seq<Entry>
    decreases es, 0
  {
    if es == [] then [] else [Entry(es[0].name, BareTree(es[0].tree, name))] + Bare(es[1..], name)
  }

  lemma {:induction false} BareReveals(es: seq<Entry>, name: string)
    requires IsNamedWell(es) && IsName(name)
    ensures RevealsAll(es, Bare(es, name)) && IsNamedWell(Bare(es, name))
    ensures ManifestIsRead(es) ==> ManifestIsNoFolder(Bare(es, name))
    decreases es, 0
  {
    if es != [] {
      assert es[0] in es && forall x :: x in es[1..] ==> x in es;
      BareTreeReveals(es[0].tree, name);
      BareReveals(es[1..], name);
      assert Bare(es, name)[1..] == Bare(es[1..], name);
    }
  }

  lemma {:induction false} BareTreeReveals(t: Tree, name: string)
    requires (t.Folder? ==> IsNamedWell(t.entries)) && IsName(name)
    ensures Reveals(t, BareTree(t, name)) && (BareTree(t, name).Folder? ==> IsNamedWell(BareTree(t, name).entries))
    decreases t, 1
  {
    if t.Folder? { BareReveals(t.entries, name); }
  }

  /** What a leaf becomes. */
  function Barely(leaf: Leaf, name: string): Leaf {
    Leaf(if leaf.kind == Unread then Child(leaf.path, name) else leaf.path, Regular)
  }

  lemma {:induction false} BareLeaves(dir: string, es: seq<Entry>, name: string)
    ensures forall leaf :: leaf in Leaves(dir, es) ==> Barely(leaf, name) in Leaves(dir, Bare(es, name))
    decreases es, 0
  {
    hide Child;
    if es != [] {
      var all := Bare(es, name);
      assert all[1..] == Bare(es[1..], name);
      BareLeavesAt(Child(dir, es[0].name), es[0].tree, name);
      BareLeaves(dir, es[1..], name);
    }
  }

  lemma {:induction false} BareLeavesAt(path: string, t: Tree, name: string)
    ensures forall leaf :: leaf in LeavesAt(path, t) ==> Barely(leaf, name) in LeavesAt(path, BareTree(t, name))
    decreases t, 1
  {
    match t {
      case Folder(es) => BareLeaves(path, es, name);
      case UnreadFolder =>
        var es := BareEntries(name);
        assert Leaves(path, es) == LeavesAt(Child(path, name), File) + Leaves(path, es[1..]);
        assert Leaf(Child(path, name), Regular) in LeavesAt(Child(path, name), File);
      case _ =>
    }
  }

  lemma BareShowsHere(es: seq<Entry>, name: string, read: Reader, dir: string)
    ensures ShowsIgnoreFile(es) || HidesItsLines(read, dir, es) ==> ShowsIgnoreFile(Bare(es, name))
  {
    if e :| e in es && (e.name == ".npmignore" || e.name == ".gitignore")
            && (e.tree.File? || e.tree.Symlink? || e.tree.Unstatted?) {
      BareHolds(es, name, e);
      assert Entry(e.name, BareTree(e.tree, name)) in Bare(es, name);
    }
  }

  lemma {:induction false} BareHolds(es: seq<Entry>, name: string, e: Entry)
    requires e in es
    ensures Entry(e.name, BareTree(e.tree, name)) in Bare(es, name)
  {
    if e != es[0] { BareHolds(es[1..], name, e); }
  }

  lemma {:induction false} BareShows(read: Reader, dir: string, es: seq<Entry>, name: string)
    ensures FoldersIn(dir, Bare(es, name)) == FoldersIn(dir, es)
    ensures ShowsIn(dir, es) + HiddenIn(read, dir, es) <= ShowsIn(dir, Bare(es, name))
    decreases es, 0
  {
    hide Child, ShowsIgnoreFile, HidesItsLines;
    if es != [] {
      assert Bare(es, name)[1..] == Bare(es[1..], name);
      BareShowsAt(read, Child(dir, es[0].name), es[0].tree, name);
      BareShows(read, dir, es[1..], name);
    }
  }

  lemma {:induction false} BareShowsAt(read: Reader, path: string, t: Tree, name: string)
    ensures FoldersAt(path, BareTree(t, name)) == FoldersAt(path, t)
    ensures ShowsAt(path, t) + HiddenAt(read, path, t) <= ShowsAt(path, BareTree(t, name))
    decreases t, 1
  {
    hide ShowsIgnoreFile, HidesItsLines;
    match t {
      case Folder(es) =>
        BareShowsHere(es, name, read, path);
        BareShows(read, path, es, name);
      case UnreadFolder =>
        BareEntriesShow(path, name);
      case _ =>
    }
  }

  lemma BareEntriesShow(path: string, name: string)
    ensures ShowsIgnoreFile(BareEntries(name)) && FoldersIn(path, BareEntries(name)) == {}
  {
    var es := BareEntries(name);
    assert es[|es| - 1] == Entry(NPM_IGNORE, File);
    assert FoldersIn(path, [Entry(NPM_IGNORE, File)][1..]) == {};
    assert es[1..] == [] || es[1..] == [Entry(NPM_IGNORE, File)];
    assert FoldersIn(path, es[1..]) == {};
  }

  /** The hidden ignore files may say anything, for all the bare tree shows. */
  lemma BareIsTruthful(read: Reader, es: seq<Entry>, name: string, lines: seq<string>)
    requires IsNamedWell(es) && IsTruthful(es, read)
    ensures IsTruthful(Bare(es, name), Overridden(read, HiddenIn(read, ".", es), lines))
  {
    hide ShowsIgnoreFile, HidesItsLines, FoldersIn, ShowsIn, HiddenIn, IsNamedWell;
    RootIsNotHidden(read, ".", es);
    BareShowsHere(es, name, read, ".");
    BareShows(read, ".", es, name);
  }

  lemma {:induction false} EntryOnTheWay(path: string, d: string) returns (c: string)
    requires path != "." && path != "" && d in SelfAndAbove(Dir(path))
    ensures c in SelfAndAbove(path) && c != "." && c != "" && Dir(c) == d && d != "." && d != ""
    decreases Depth(path)
  {
    hide Depth, Dir;
    DirIsShallower(path);
    SelfThenAbove(path);
    if Dir(path) == d {
      c := path;
    } else {
      c := EntryOnTheWay(Dir(path), d);
    }
  }

  /** Keeping everything out beneath a directory keeps a path beneath it from shipping. */
  lemma ShutOut(rules: Rules, d: string, path: string)
    requires IsLibrary(rules.g) && rules.files == [] && path != "." && path != ""
    requires d in SelfAndAbove(Dir(path)) && rules.read(d) == Some(KEEP_OUT)
    ensures !Ships(rules, path)
  {
    hide Ships, Excludes, IsHardReserved, SelfAndAbove, Depth, Dir;
    var c := EntryOnTheWay(path, d);
    ShutExcludes(rules.g, rules.read, c);
    ManifestIsAtTheRoot();
    WalkedIsFlat(rules, path);
  }

  lemma ManifestIsAtTheRoot()
    ensures Dir(MANIFEST) == "."
  {
    assert '/' !in MANIFEST && LastSlash(MANIFEST) < 0;
  }

  lemma OverriddenAgrees(es: seq<Entry>, read: Reader, lines: seq<string>)
    requires IsNamedWell(es)
    ensures ReadsAgree(es, read, Overridden(read, HiddenIn(read, ".", es), lines))
  {
    RootIsNotHidden(read, ".", es);
  }

  /** A path the walk met and may not skip is one that would have shipped. */
  lemma UnskippableShips(rules: Rules, leaf: Leaf)
    requires rules.files == [] && leaf.path != MANIFEST && Ships(rules, leaf.path) && !Stops(rules, leaf)
    ensures leaf.kind == Regular
  {
    hide IsHardReserved, Excludes, IsOpen;
  }

  lemma BareLoses(rules: Rules, es: seq<Entry>, leaf: Leaf, name: string, lines: seq<string>)
    requires IsLibrary(rules.g) && IsNamedWell(es) && ManifestIsRead(es) && IsName(name) && leaf in Leaves(".", es)
    requires IsTruthful(es, rules.read)
    requires var rules' := rules.(read := Overridden(rules.read, HiddenIn(rules.read, ".", es), lines));
              var there := Barely(leaf, name);
             if Ships(rules, leaf.path) then leaf.kind == Regular && !Ships(rules', leaf.path)
             else Ships(rules', there.path) && !Ships(rules, there.path)
    ensures !LosesNothing(rules, es)
  {
    hide Ships, Leaves, HiddenIn, IsNamedWell, RevealsAll, ManifestIsRead, ManifestIsNoFolder, Bare, ReadsAgree,
         IsTruthful;
    var rules' := rules.(read := Overridden(rules.read, HiddenIn(rules.read, ".", es), lines));
    BareReveals(es, name);
    BareLeaves(".", es, name);
    OverriddenAgrees(es, rules.read, lines);
    BareIsTruthful(rules.read, es, name, lines);
    var there := Barely(leaf, name);
    ShippedMembers(rules, Leaves(".", es), leaf.path);
    ShippedMembers(rules', Leaves(".", Bare(es, name)), leaf.path);
    ShippedMembers(rules, Leaves(".", es), there.path);
    ShippedMembers(rules', Leaves(".", Bare(es, name)), there.path);
    assert Shipped(rules', Leaves(".", Bare(es, name))) != Shipped(rules, Leaves(".", es));
  }

  lemma HangingLoses(rules: Rules, es: seq<Entry>, leaf: Leaf)
    requires IsLibrary(rules.g) && rules.files == [] && IsNamedWell(es) && ManifestIsRead(es)
    requires IsTruthful(es, rules.read)
    requires leaf in Leaves(".", es) && !Stops(rules, leaf) && LiesBeneath(HiddenIn(rules.read, ".", es), leaf.path)
    requires LetsOut(rules.(read := Overridden(rules.read, HiddenIn(rules.read, ".", es), LET_IN)), leaf)
    ensures !LosesNothing(rules, es)
  {
    hide Ships, Stops, Leaves, FoldersIn, HiddenIn, IsNamedWell, ManifestIsRead, SelfAndAbove, IsRooted, LosesNothing,
         Dir, Depth, IsTruthful;
    RootIsAlone();
    LeavesAreReached(".", es);
    var hidden, path := HiddenIn(rules.read, ".", es), leaf.path;
    BeneathHasSlash(path);
    if Ships(rules, path) {
      UnskippableShips(rules, leaf);
      var d :| d in SelfAndAbove(Dir(path)) && d in hidden;
      ShutOut(rules.(read := Overridden(rules.read, hidden, KEEP_OUT)), d, path);
      BareLoses(rules, es, leaf, MANIFEST, KEEP_OUT);
    } else if leaf.kind == Unread {
      var name :| IsName(name) && Ships(rules.(read := Overridden(rules.read, hidden, LET_IN)), Child(path, name));
      var q := Child(path, name);
      DirOfChild(path, name);
      SelfThenAbove(q);
      SelfThenAbove(path);
      ManifestHoldsNothing(".", es);
      if Ships(rules, q) { ShipsThrough(rules, q, path); }
      BareLoses(rules, es, leaf, name, LET_IN);
    } else {
      BareLoses(rules, es, leaf, MANIFEST, LET_IN);
    }
  }

  /** When a walk that met unreadable paths succeeds, it ships exactly what it would ship with
      those paths readable, whatever they hold and whatever their ignore files say, if and
      only if the package has a "files" field or nothing hangs on a hidden ignore file. */
  lemma SkippingLosesExactly(rules: Rules, es: seq<Entry>)
    requires IsLibrary(rules.g) && IsNamedWell(es) && ManifestIsRead(es) && IsTruthful(es, rules.read)
    requires !Stuck(rules, Leaves(".", es))
    ensures LosesNothing(rules, es) <==> rules.files != [] || !HangsOnHidden(rules, es)
  {
    hide Ships, Stops, Leaves, Shipped, HiddenIn, IsNamedWell, RevealsAll, ManifestIsRead, ManifestIsNoFolder,
         ReadsAgree, LetsOut, LiesBeneath, IsTruthful;
    if rules.files != [] || !HangsOnHidden(rules, es) {
      forall es', read' | IsNamedWell(es') && RevealsAll(es, es') && ManifestIsNoFolder(es') &&
          ReadsAgree(es, rules.read, read') && IsTruthful(es', read')
        ensures Shipped(rules.(read := read'), Leaves(".", es')) == Shipped(rules, Leaves(".", es))
      {
        NothingHiddenLosesNothing(rules, es, es', read');
      }
    } else {
      var leaf :| leaf in Leaves(".", es) && LiesBeneath(HiddenIn(rules.read, ".", es), leaf.path)
                  && LetsOut(rules.(read := Overridden(rules.read, HiddenIn(rules.read, ".", es), LET_IN)), leaf);
      HangingLoses(rules, es, leaf);
    }
  }

  /** The root never hides its own ignore file: failing to look one up there stops the walk. */
  lemma RootHidesNothing(rules: Rules, es: seq<Entry>)
    requires !Stuck(rules, Leaves(".", es))
    ensures !HidesItsLines(rules.read, ".", es)
  {
    hide Stops, Leaves;
    if e :| e in es && e.tree.Unstatted? && (e.name == ".npmignore" || e.name == ".gitignore") {
      EntryIsALeaf(".", es, e);
      UnknownRootStops(rules, e.name);
    }
  }

  lemma {:induction false} EntryIsALeaf(dir: string, es: seq<Entry>, e: Entry)
    requires e in es && e.tree.Unstatted?
    ensures Leaf(Child(dir, e.name), Unknown) in Leaves(dir, es)
    decreases |es|
  {
    if e != es[0] { EntryIsALeaf(dir, es[1..], e); }
  }

  lemma UnknownRootStops(rules: Rules, name: string)
    requires name == ".npmignore" || name == ".gitignore"
    ensures Stops(rules, Leaf(name, Unknown))
  {
    hide UnreadableIsExcluded, IsPruned;
    assert '/' !in name && LastSlash(name) < 0;
    RootIsAlone();
  }

  // ---------------------------------------------------------------- how a file comes to be lost

  lemma {:induction false} UnknownNpmIgnoreHides(read: Reader, dir: string, es: seq<Entry>, d: string)
    requires IsNamedWell(es) && dir != "" && Leaf(d + "/" + NPM_IGNORE, Unknown) in Leaves(dir, es)
    ensures d in HiddenIn(read, dir, es) || (d == dir && HidesItsLines(read, dir, es))
    decreases es, 0
  {
    hide Dir, Child, HidesItsLines, IsName;
    if es != [] {
      var e := es[0];
      var p := Child(dir, e.name);
      assert e in es && IsNamedWell(es[1..]) by { WellNamedRest(es); }
      DirOfChild(dir, e.name);
      ChildIsNamed(dir, e.name);
      if Leaf(d + "/" + NPM_IGNORE, Unknown) in Leaves(dir, es[1..]) {
        UnknownNpmIgnoreHides(read, dir, es[1..], d);
        MoreHide(read, dir, es);
      } else if e.tree.Folder? {
        UnknownNpmIgnoreHides(read, p, e.tree.entries, d);
      } else {
        assert p == d + "/" + NPM_IGNORE;
        DirOfJoined(d, NPM_IGNORE);
        BaseOfChildren(d, NPM_IGNORE);
        BaseOfChild(dir, e.name);
        ItHides(read, dir, es, e);
      }
    }
  }

  lemma ChildIsNamed(dir: string, name: string)
    requires IsName(name)
    ensures Child(dir, name) != ""
  {
  }

  lemma WellNamedRest(es: seq<Entry>)
    requires IsNamedWell(es) && es != []
    ensures IsNamedWell(es[1..]) && es[0] in es
  {
    hide IsName;
    assert forall x :: x in es[1..] ==> x in es;
  }

  lemma MoreHide(read: Reader, dir: string, es: seq<Entry>)
    requires es != []
    ensures HidesItsLines(read, dir, es[1..]) ==> HidesItsLines(read, dir, es)
  {
  }

  lemma ItHides(read: Reader, dir: string, es: seq<Entry>, e: Entry)
    requires e in es && e.tree.Unstatted? && e.name == NPM_IGNORE
    ensures HidesItsLines(read, dir, es)
  {
  }

  lemma DirOfJoined(d: string, name: string)
    requires '/' !in name
    ensures Dir(d + "/" + name) == d
  {
    var p := d + "/" + name;
    assert p[|d|] == '/' && forall k :: |d| < k < |p| ==> p[k] == name[k - |d| - 1];
    assert LastSlash(p) == |d|;
  }

  /** Without a "files" field, an npm ignore file that could not be looked up, in a directory
      the walk does descend into, always leaves something to lose: it may re-include itself. */
  lemma HiddenNpmIgnoreLoses(rules: Rules, es: seq<Entry>, d: string)
    requires IsLibrary(rules.g) && rules.files == [] && IsNamedWell(es) && ManifestIsRead(es)
    requires IsTruthful(es, rules.read) && !Stuck(rules, Leaves(".", es))
    requires Leaf(d + "/" + NPM_IGNORE, Unknown) in Leaves(".", es) && IsOpen(rules, d)
    ensures !LosesNothing(rules, es)
  {
    hide Ships, Stops, Leaves, FoldersIn, HiddenIn, HidesItsLines, IsNamedWell, ManifestIsRead, SelfAndAbove, IsRooted,
         LosesNothing, Dir, Depth, IsOpen, IsLibrary, IsTruthful;
    var p, hidden := d + "/" + NPM_IGNORE, HiddenIn(rules.read, ".", es);
    var leaf := Leaf(p, Unknown);
    assert '/' !in NPM_IGNORE;
    DirOfJoined(d, NPM_IGNORE);
    RootIsAlone();
    LeavesAreReached(".", es);
    ManifestHoldsNothing(".", es);
    UnknownNpmIgnoreHides(rules.read, ".", es, d);
    RootHidesNothing(rules, es);
    RootIsNotHidden(rules.read, ".", es);
    RootedAbove(p);
    HiddenIsNamed(d);
    SelfThenAbove(d);
    BeneathHasSlash(p);
    SelfThenAbove(p);
    NpmIgnoreWouldShip(rules, Overridden(rules.read, hidden, LET_IN), d);
    assert LiesBeneath(hidden, p);
    HangingLoses(rules, es, leaf);
  }

  lemma HiddenIsNamed(d: string)
    requires IsRooted(d)
    ensures d != ""
  {
  }

  lemma NpmIgnoreWouldShip(rules: Rules, loose: Reader, d: string)
    requires IsLibrary(rules.g) && rules.files == [] && IsRooted(d) && d != "." && d != ""
    requires MANIFEST !in SelfAndAbove(d) && IsOpen(rules, d)
    requires IsLooser(rules.read, loose, d) && loose(d) == Some(LET_IN)
    ensures Ships(rules.(read := loose), d + "/" + NPM_IGNORE)
  {
    hide Excludes, IsHardReserved, SelfAndAbove, IsRooted, Dir, Depth, Governed, IsLibrary, ReadsPlain, Ships;
    var p := d + "/" + NPM_IGNORE;
    assert '/' !in NPM_IGNORE;
    DirOfJoined(d, NPM_IGNORE);
    SelfThenAbove(p);
    SelfThenAbove(d);
    assert d in SelfAndAbove(d) && !IsPruned(rules, d);
    LooserAbove(rules.read, loose, d);
    LibraryReadsPlain(rules.g);
    LooserKeepsIn(rules.g, rules.read, loose, d);
    RootedBelow(p, d);
    OpenIsGoverned(rules.g, loose, p);
    LetInGoverns(rules.g, loose, p, d);
    NpmIgnoreIsNotReserved(rules.g, d);
    WalkedIsFlat(rules.(read := loose), p);
  }

  lemma LooserAbove(read: Reader, loose: Reader, d: string)
    requires IsLooser(read, loose, d) && d != "." && d != ""
    ensures IsLooser(read, loose, Dir(d))
  {
    SelfThenAbove(d);
  }

  lemma RootedBelow(p: string, d: string)
    requires IsRooted(d) && Dir(p) == d && p != "."  && p != ""
    ensures IsRooted(p)
  {
    hide Depth, Dir;
    DirIsShallower(p);
  }

  lemma LetInGoverns(g: Library, read: Reader, path: string, d: string)
    requires ReadsPlain(g) && read(d) == Some(LET_IN)
    ensures !Governed(g, read, path, d)
  {
    hide ReadsPlain, LastWord, Dir, Depth;
    DirIsShallowerOrRoot(d);
    StarsSay(g, RelativeTo(path, d), if d == "." then IsDefaultExcluded(g, path) else Governed(g, read, path, Dir(d)));
  }

  lemma DirIsShallowerOrRoot(d: string)
    ensures d == "." || Depth(Dir(d)) < Depth(d)
  {
    if d != "." { DirIsShallower(d); }
  }

  lemma LibraryReadsPlain(g: Library)
    requires IsLibrary(g)
    ensures ReadsPlain(g)
  {
  }

  /** No directory has an ignore file that can be read. */
  function Silent(dir: string): Option<seq<string>> {
    None
  }

  function OnlyNegating(dir: string, file: string): Reader {
    d => if d == dir then Some(["!" + file]) else None
  }

  /** A run that gets there: a directory that can be listed but not entered holds an npm
      ignore file that re-includes a file the built-in list excludes. Both lookups fail, both
      are skipped and the pack succeeds without the file; once the directory can be entered,
      the same pack ships it. */
  lemma ANegationIsLost(g: Library, dir: string, file: string)
    requires IsLibrary(g) && IsName(dir) && dir != MANIFEST && !IsHardReserved(g, dir) && !IsDefaultExcluded(g, dir)
    requires IsName(file) && !IsHardReserved(g, dir + "/" + file) && IsDefaultExcluded(g, dir + "/" + file)
    ensures var es := [Entry(dir, Folder([Entry(NPM_IGNORE, Unstatted), Entry(file, Unstatted)]))];
            var es' := [Entry(dir, Folder([Entry(NPM_IGNORE, File), Entry(file, File)]))];
            var rules, rules' := Rules(g, Silent, [], ""), Rules(g, OnlyNegating(dir, file), [], "");
            && RevealsAll(es, es') && ReadsAgree(es, Silent, rules'.read)
            && IsTruthful(es, Silent) && IsTruthful(es', rules'.read)
            && Collected(rules, Folder(es)) == Some([])
            && Collected(rules', Folder(es')).Some? && dir + "/" + file in Collected(rules', Folder(es')).value
  {
    hide IsHardReserved, IsDefaultExcluded, IsLibrary, RevealsAll, ReadsAgree, Collected, IsName, IsNamedWell,
         IsTruthful;
    TwoAreTruthful(dir, file);
    TwoRevealed(dir, NPM_IGNORE, file);
    TwoAgree(dir, file);
    NothingShipsYet(g, dir, file);
    LostFileShips(g, dir, file);
  }

  lemma NothingShipsYet(g: Library, dir: string, file: string)
    requires IsLibrary(g) && IsName(dir) && IsName(file) && IsDefaultExcluded(g, dir + "/" + file)
    ensures Collected(Rules(g, Silent, [], ""),
              Folder([Entry(dir, Folder([Entry(NPM_IGNORE, Unstatted), Entry(file, Unstatted)]))])) == Some([])
  {
    hide IsHardReserved, IsDefaultExcluded, IsLibrary, Ships, Stops, Leaves;
    var rules := Rules(g, Silent, [], "");
    var es := [Entry(dir, Folder([Entry(NPM_IGNORE, Unstatted), Entry(file, Unstatted)]))];
    TwoLeaves(dir, NPM_IGNORE, file, Unstatted);
    assert ReadsPlain(g) by { LibraryReadsPlain(g); }
    NpmIgnoreIsDefaultExcluded(g, dir);
    SilentlySkipped(rules, dir, NPM_IGNORE);
    SilentlySkipped(rules, dir, file);
    NoneShip(rules, Leaves(".", es));
  }

  lemma LostFileShips(g: Library, dir: string, file: string)
    requires IsName(dir) && dir != MANIFEST && !IsHardReserved(g, dir) && !IsDefaultExcluded(g, dir)
    requires IsName(file) && !IsHardReserved(g, dir + "/" + file)
    ensures var r := Collected(Rules(g, OnlyNegating(dir, file), [], ""),
              Folder([Entry(dir, Folder([Entry(NPM_IGNORE, File), Entry(file, File)]))]));
            r.Some? && dir + "/" + file in r.value
  {
    hide IsHardReserved, IsDefaultExcluded, Ships, Stops, Leaves, IsName, Stuck, Shipped;
    var rules := Rules(g, OnlyNegating(dir, file), [], "");
    var es := [Entry(dir, Folder([Entry(NPM_IGNORE, File), Entry(file, File)]))];
    assert dir != "." by { NamesAreNotTheRoot(dir); }
    TwoLeaves(dir, NPM_IGNORE, file, File);
    NegatedShips(rules, dir, file);
    ShippedMembers(rules, Leaves(".", es), dir + "/" + file);
    RegularNeverStops(rules, dir, NPM_IGNORE, file);
  }

  lemma NamesAreNotTheRoot(name: string)
    requires IsName(name)
    ensures name != "."
  {
  }

  lemma TwoRevealed(dir: string, a: string, b: string)
    ensures RevealsAll([Entry(dir, Folder([Entry(a, Unstatted), Entry(b, Unstatted)]))],
              [Entry(dir, Folder([Entry(a, File), Entry(b, File)]))])
  {
    var es, es' := [Entry(a, Unstatted), Entry(b, Unstatted)], [Entry(a, File), Entry(b, File)];
    assert es[1..] == [Entry(b, Unstatted)] && es'[1..] == [Entry(b, File)];
    assert es[1..][1..] == [] && es'[1..][1..] == [];
    assert RevealsAll([Entry(b, Unstatted)], [Entry(b, File)]);
    assert RevealsAll(es, es');
  }

  lemma TwoAreTruthful(dir: string, file: string)
    requires IsName(dir)
    ensures IsTruthful([Entry(dir, Folder([Entry(NPM_IGNORE, Unstatted), Entry(file, Unstatted)]))], Silent)
    ensures IsTruthful([Entry(dir, Folder([Entry(NPM_IGNORE, File), Entry(file, File)]))], OnlyNegating(dir, file))
  {
    var inner := [Entry(NPM_IGNORE, File), Entry(file, File)];
    var es := [Entry(dir, Folder(inner))];
    assert inner[0] in inner && ShowsIgnoreFile(inner);
    assert ShowsIn(".", es) == ShowsAt(Child(".", dir), Folder(inner)) + ShowsIn(".", es[1..]);
    assert Child(".", dir) == dir;
  }

  lemma TwoAgree(dir: string, file: string)
    requires IsName(dir)
    ensures var es := [Entry(dir, Folder([Entry(NPM_IGNORE, Unstatted), Entry(file, Unstatted)]))];
            ReadsAgree(es, Silent, OnlyNegating(dir, file))
  {
    var inner := [Entry(NPM_IGNORE, Unstatted), Entry(file, Unstatted)];
    var es := [Entry(dir, Folder(inner))];
    assert es[1..] == [];
    assert Child(".", dir) == dir;
    ItHides(Silent, dir, inner, inner[0]);
    assert HiddenAt(Silent, dir, Folder(inner)) >= {dir};
    assert HiddenIn(Silent, ".", es) >= {dir};
  }

  lemma TwoLeaves(dir: string, a: string, b: string, t: Tree)
    requires dir != "." && (t.Unstatted? || t.File?)
    ensures var kind := if t.File? then Regular else Unknown;
            Leaves(".", [Entry(dir, Folder([Entry(a, t), Entry(b, t)]))]) ==
                [Leaf(dir + "/" + a, kind), Leaf(dir + "/" + b, kind)]
  {
    var inner := [Entry(a, t), Entry(b, t)];
    assert inner[1..] == [Entry(b, t)] && [Entry(b, t)][1..] == [] && [Entry(dir, Folder(inner))][1..] == [];
    assert Leaves(dir, [Entry(b, t)]) == LeavesAt(dir + "/" + b, t) + Leaves(dir, []);
    assert Leaves(dir, inner) == LeavesAt(dir + "/" + a, t) + Leaves(dir, [Entry(b, t)]);
    assert Leaves(".", [Entry(dir, Folder(inner))]) == Leaves(dir, inner) + Leaves(".", []);
  }

  lemma SilentlySkipped(rules: Rules, dir: string, file: string)
    requires rules.read == Silent && rules.files == [] && IsName(file) && IsDefaultExcluded(rules.g, dir + "/" + file)
    ensures !Stops(rules, Leaf(dir + "/" + file, Unknown))
  {
    hide IsDefaultExcluded, IsHardReserved;
    var p := dir + "/" + file;
    assert p[|dir|] == '/';
    SilentScopes(Dir(p));
    ScopesAreAbove(Silent, p);
    assert Excludes(rules.g, Silent, p) == ChainExcludes(rules.g, Silent, p, [], IsDefaultExcluded(rules.g, p));
  }

  lemma {:induction false} SilentScopes(dir: string)
    ensures ScopesOf(Silent, dir) == []
    decreases Depth(dir)
  {
    hide Depth, Dir;
    if dir != "." {
      DirIsShallower(dir);
      SilentScopes(Dir(dir));
    }
  }

  lemma RegularNeverStops(rules: Rules, dir: string, a: string, b: string)
    ensures !Stuck(rules, [Leaf(dir + "/" + a, Regular), Leaf(dir + "/" + b, Regular)])
  {
    hide IsOpen, IsSkippable;
  }

  lemma NegatedShips(rules: Rules, dir: string, file: string)
    requires rules.read == OnlyNegating(dir, file) && rules.files == [] && IsName(dir) && dir != MANIFEST
    requires IsName(file)
    requires !IsHardReserved(rules.g, dir) && !IsDefaultExcluded(rules.g, dir)
    requires !IsHardReserved(rules.g, dir + "/" + file)
    ensures Ships(rules, dir + "/" + file)
  {
    hide IsDefaultExcluded, IsHardReserved, Excludes, Governed, Depth, Ships, LastWord;
    var g, read, p := rules.g, rules.read, dir + "/" + file;
    DirOfJoined(dir, file);
    assert Dir(dir) == "." by { assert LastSlash(dir) < 0; }
    RootIsAlone();
    SelfThenAbove(dir);
    SelfThenAbove(p);
    assert SelfAndAbove(p) == [p, dir];
    RootedBelow(dir, ".");
    RootedBelow(p, dir);
    OpenIsGoverned(g, read, dir);
    GovernedStep(g, read, dir, ".");
    OpenIsGoverned(g, read, p);
    GovernedStep(g, read, p, dir);
    NegationSays(g, dir, file, if dir == "." then IsDefaultExcluded(g, p) else Governed(g, read, p, Dir(dir)));
    WalkedIsFlat(rules, p);
  }

  lemma GovernedStep(g: Library, read: Reader, path: string, dir: string)
    ensures var sofar := if dir == "." then IsDefaultExcluded(g, path) else Governed(g, read, path, Dir(dir));
            Governed(g, read, path, dir) ==
                if read(dir).Some? then LastWord(g, RelativeTo(path, dir), read(dir).value, sofar) else sofar
  {
    hide IsDefaultExcluded, LastWord, Depth, Dir;
    DirIsShallowerOrRoot(dir);
  }

  lemma NegationSays(g: Library, dir: string, file: string, sofar: bool)
    requires dir != "." && IsName(file)
    ensures !LastWord(g, RelativeTo(dir + "/" + file, dir), ["!" + file], sofar)
  {
    var line, path := "!" + file, dir + "/" + file;
    assert path[..|dir| + 1] == dir + "/" && path[|dir| + 1..] == file;
    assert RelativeTo(path, dir) == file;
    assert line[..1] == "!" && line[1..] == file;
    NameHasNoSlashAtItsEnds(file);
    LineOfOne(g, file, line, sofar);
  }

  lemma NameHasNoSlashAtItsEnds(file: string)
    requires '/' !in file
    ensures !HasPrefix(file, "/") && !HasSuffix(file, "/") && !HasSuffix(file, "/**")
  {
    assert |file| >= 1 ==> file[..1][0] != "/"[0] && file[|file| - 1..][0] != "/"[0];
    assert |file| >= 3 ==> file[|file| - 3..][0] != "/**"[0];
  }
}
