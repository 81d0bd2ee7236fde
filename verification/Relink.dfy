/** Relinking a package into a project: which files of the last link may stay, and when the
    whole directory may. */
module Relink {
  import opened Wrappers

  const RECORD_NAME := ".lnpm-linked"
  const SCHEMA_VERSION := 1

  datatype LinkType = HardLink | Copy | Live

  /** A file of the package being linked, as the package lists it. */
  datatype FileInfo = FileInfo(path: string, hash: string, mode: nat)

  datatype LinkedFile = LinkedFile(hash: string, mode: nat)

  /** What a link records of itself inside the directory it makes. */
  datatype Manifest = Manifest(schema: nat, path: string, linkType: LinkType, files: map<string, LinkedFile>)

  /** Something in a linked directory: a regular file, which may fail to be read; a regular
      file holding a manifest; or anything a link cannot have put there, an empty or
      unreadable directory included. */
  datatype Leaf = Regular(content: string, readable: bool) | Recorded(manifest: Manifest) | Stray

  type Tree = map<string, Leaf>

  /** What stands at a path: nothing, a link to a live source, or a directory. */
  datatype Place = Missing | LiveLink(target: string) | Dir(tree: Tree)

  type Hasher = string -> string

  function Paths(files: seq<FileInfo>): set<string> {
    set f | f in files :: f.path
  }

  predicate DistinctPaths(files: seq<FileInfo>) {
    forall i, j :: 0 <= i < j < |files| ==> files[i].path != files[j].path
  }

  /** The files a link materialises: the manifest's own name is never one of them. */
  function WithoutRecordName(files: seq<FileInfo>): seq<FileInfo> {
    if files == [] then []
    else if files[0].path == RECORD_NAME then files[1..]
    else [files[0]] + WithoutRecordName(files[1..])
  }

  lemma {:induction false} RecordNameIsDropped(files: seq<FileInfo>)
    requires DistinctPaths(files)
    ensures forall f :: f in WithoutRecordName(files) <==> f in files && f.path != RECORD_NAME
    ensures DistinctPaths(WithoutRecordName(files))
  {
    if files != [] {
      assert files == [files[0]] + files[1..];
      assert forall f :: f in files[1..] ==> f.path != files[0].path;
      RecordNameIsDropped(files[1..]);
      hide WithoutRecordName;
      var rest := WithoutRecordName(files[1..]);
      assert forall k :: 0 <= k < |rest| ==> rest[k] in rest;
    }
  }

  lemma OnlyRecordNameIsDropped(files: seq<FileInfo>)
    requires DistinctPaths(files)
    ensures DistinctPaths(WithoutRecordName(files))
    ensures Paths(WithoutRecordName(files)) == Paths(files) - {RECORD_NAME}
  {
    hide WithoutRecordName;
    RecordNameIsDropped(files);
  }

  /** What the last link recorded, when it can be trusted: a real directory holding a
      manifest of this schema that names the directory it stands in. */
  function ReadManifest(place: Place, here: string): Option<Manifest> {
    if place.Dir? && RECORD_NAME in place.tree && place.tree[RECORD_NAME].Recorded? then
      var m := place.tree[RECORD_NAME].manifest;
      if m.schema == SCHEMA_VERSION && m.path == here then Some(m) else None
    else None
  }

  function RegularPaths(tree: Tree): set<string> {
    set p | p in tree && !tree[p].Stray?
  }

  function Strays(tree: Tree): set<string> {
    set p | p in tree && tree[p].Stray?
  }

  lemma PathsByKind(tree: Tree)
    ensures forall p :: p in RegularPaths(tree) <==> p in tree && !tree[p].Stray?
    ensures forall p :: p in Strays(tree) <==> p in tree && tree[p].Stray?
  {
  }

  lemma NoneMet(strays: set<string>, left: set<string>)
    requires strays <= left
    ensures |strays - left| == 0
  {
    assert strays - left == {};
  }

  lemma OneMet(strays: set<string>, left: set<string>, p: string)
    requires p in left
    ensures |strays - (left - {p})| == |strays - left| + if p in strays then 1 else 0
  {
    if p in strays {
      assert strays - (left - {p}) == (strays - left) + {p};
    } else {
      assert strays - (left - {p}) == strays - left;
    }
  }

  /** What a linked directory holds: its regular files, and how many other things. */
  method ScanLinked(tree: Tree) returns (present: set<string>, unexpected: nat)
    ensures present == RegularPaths(tree) && unexpected == |Strays(tree)|
  {
    hide RegularPaths, Strays;
    present, unexpected := {}, 0;
    var left := tree.Keys;
    PathsByKind(tree);
    NoneMet(Strays(tree), left);
    while left != {}
      invariant left <= tree.Keys
      invariant forall p :: p in present <==> p in tree && !tree[p].Stray? && p !in left
      invariant unexpected == |Strays(tree) - left|
      decreases |left|
    {
      var p :| p in left;
      OneMet(Strays(tree), left, p);
      left := left - {p};
      if tree[p].Stray? {
        unexpected := unexpected + 1;
      } else {
        present := present + {p};
      }
    }
    assert Strays(tree) - {} == Strays(tree);
  }

  /** Whether the manifest and the listing agree that a file already is what is wanted. */
  predicate IsCandidate(prior: Option<Manifest>, present: set<string>, f: FileInfo) {
    && prior.Some? && f.path in prior.value.files && f.path in present && f.hash != ""
    && prior.value.files[f.path] == LinkedFile(f.hash, f.mode)
  }

  method ReusableFiles(prior: Option<Manifest>, present: set<string>, files: seq<FileInfo>)
    returns (reusable: set<string>)
    ensures reusable == set f | f in files && IsCandidate(prior, present, f) :: f.path
  {
    reusable := {};
    if prior.None? {
      return;
    }
    for i := 0 to |files|
      invariant reusable == set f | f in files[..i] && IsCandidate(prior, present, f) :: f.path
    {
      var f := files[i];
      assert files[..i + 1] == files[..i] + [f];
      var was := if f.path in prior.value.files then Some(prior.value.files[f.path]) else None;
      if was.Some? && f.path in present && f.hash != "" && was.value.hash == f.hash && was.value.mode == f.mode {
        reusable := reusable + {f.path};
      }
    }
    assert files[..|files|] == files;
  }

  /** Whether a file's bytes in the linked directory are the ones its hash was taken from. */
  predicate Holds(tree: Tree, hash: Hasher, f: FileInfo) {
    f.path in tree && tree[f.path].Regular? && tree[f.path].readable && hash(tree[f.path].content) == f.hash
  }

  /** Of the candidates, those whose bytes were read back and found to be the ones recorded. */
  method VerifiedReusable(tree: Tree, hash: Hasher, reusable: set<string>, files: seq<FileInfo>)
    returns (verified: set<string>)
    ensures verified == set f | f in files && f.path in reusable && Holds(tree, hash, f) :: f.path
  {
    verified := {};
    for i := 0 to |files|
      invariant verified == set f | f in files[..i] && f.path in reusable && Holds(tree, hash, f) :: f.path
    {
      var f := files[i];
      assert files[..i + 1] == files[..i] + [f];
      if f.path in reusable && Holds(tree, hash, f) {
        verified := verified + {f.path};
      }
    }
    assert files[..|files|] == files;
  }

  /** The paths that may be carried over from the directory in place. */
  function Reusable(place: Place, here: string, hash: Hasher, files: seq<FileInfo>): set<string> {
    var prior := ReadManifest(place, here);
    if prior.None? then {}
    else set f | f in files && IsCandidate(prior, RegularPaths(place.tree), f) && Holds(place.tree, hash, f) :: f.path
  }

  /** The counting test that leaves a directory as it is. */
  predicate IsUpToDate(place: Place, here: string, hash: Hasher, files: seq<FileInfo>) {
    && files != [] && |Reusable(place, here, hash, files)| == |files|
    && place.Dir? && Strays(place.tree) == {} && |RegularPaths(place.tree)| == |files| + 1
  }

  /** What a link is to leave: the listed files and at most the manifest beside them, every
      file its copy in the store or bytes that hash to what the package lists. */
  predicate IsLinked(tree: Tree, files: seq<FileInfo>, store: map<string, string>, hash: Hasher) {
    && Paths(files) <= tree.Keys <= Paths(files) + {RECORD_NAME}
    && forall f :: f in files ==> IsRight(tree, store, hash, f)
  }

  predicate IsRight(tree: Tree, store: map<string, string>, hash: Hasher, f: FileInfo) {
    && f.path in tree && tree[f.path].Regular? && tree[f.path].readable
    && ((f.path in store && tree[f.path].content == store[f.path]) ||
        (f.hash != "" && hash(tree[f.path].content) == f.hash))
  }

  // ---------------------------------------------------------------- the counting argument

  lemma {:induction false} CountPaths(files: seq<FileInfo>)
    requires DistinctPaths(files)
    ensures |Paths(files)| == |files|
  {
    if files != [] {
      CountPaths(files[1..]);
      assert files == [files[0]] + files[1..];
      assert Paths(files) == Paths(files[1..]) + {files[0].path};
    }
  }

  lemma SameSize(a: set<string>, b: set<string>)
    requires a <= b && |a| == |b|
    ensures a == b
  {
    assert b == a + (b - a);
    assert |b| == |a| + |b - a|;
  }

  /** The shortcut's counts leave no room for anything else: a directory it accepts holds
      exactly the listed files, each hashing to what is listed, and the manifest. */
  lemma UpToDateIsLinked(place: Place, here: string, hash: Hasher, files: seq<FileInfo>, store: map<string, string>)
    requires DistinctPaths(files) && RECORD_NAME !in Paths(files) && IsUpToDate(place, here, hash, files)
    ensures place.tree.Keys == Paths(files) + {RECORD_NAME}
    ensures forall f :: f in files ==> f.hash != "" && Holds(place.tree, hash, f)
    ensures IsLinked(place.tree, files, store, hash)
  {
    hide Holds, IsCandidate;
    var reusable := Reusable(place, here, hash, files);
    CountPaths(files);
    assert reusable <= Paths(files);
    SameSize(reusable, Paths(files));
    var held := Paths(files) + {RECORD_NAME};
    forall f | f in files ensures f.hash != "" && Holds(place.tree, hash, f) && f.path in RegularPaths(place.tree) {
      assert f.path in reusable;
      var g :| g in files && g.path == f.path && IsCandidate(ReadManifest(place, here), RegularPaths(place.tree), g) &&
          Holds(place.tree, hash, g);
      SamePath(files, f, g);
      CandidateIsPresent(ReadManifest(place, here), RegularPaths(place.tree), g);
    }
    assert held <= RegularPaths(place.tree);
    assert |held| == |files| + 1;
    SameSize(held, RegularPaths(place.tree));
    AllRegular(place.tree);
    forall f | f in files ensures IsRight(place.tree, store, hash, f) { HoldsIsRight(place.tree, store, hash, f); }
  }

  lemma SamePath(files: seq<FileInfo>, f: FileInfo, g: FileInfo)
    requires DistinctPaths(files) && f in files && g in files && f.path == g.path
    ensures f == g
  {
  }

  lemma CandidateIsPresent(prior: Option<Manifest>, present: set<string>, f: FileInfo)
    requires IsCandidate(prior, present, f)
    ensures f.path in present && f.hash != ""
  {
  }

  lemma AllRegular(tree: Tree)
    requires Strays(tree) == {}
    ensures RegularPaths(tree) == tree.Keys
  {
    forall p | p in tree ensures p in RegularPaths(tree) { assert p !in Strays(tree); }
  }

  lemma HoldsIsRight(tree: Tree, store: map<string, string>, hash: Hasher, f: FileInfo)
    requires Holds(tree, hash, f) && f.hash != ""
    ensures IsRight(tree, store, hash, f)
  {
  }

  // ---------------------------------------------------------------- agreement with a full relink

  /** The store's copies are the files the package lists. */
  predicate IsIntact(store: map<string, string>, files: seq<FileInfo>, hash: Hasher) {
    forall f :: f in files ==> f.path in store && hash(store[f.path]) == f.hash
  }

  /** The bytes at a listed path do not hash as that file's store copy does without being it. */
  predicate NoneCollides(tree: Tree, files: seq<FileInfo>, store: map<string, string>, hash: Hasher) {
    forall f | f in files && f.path in tree && tree[f.path].Regular? && f.path in store ::
      hash(tree[f.path].content) == hash(store[f.path]) ==> tree[f.path].content == store[f.path]
  }

  /** Every file of a linked directory hashes as listed when the store holds what is listed. */
  lemma LinkedHolds(tree: Tree, files: seq<FileInfo>, store: map<string, string>, hash: Hasher)
    requires IsLinked(tree, files, store, hash) && IsIntact(store, files, hash)
    ensures forall f :: f in files ==> Holds(tree, hash, f)
  {
    forall f | f in files ensures Holds(tree, hash, f) { assert IsRight(tree, store, hash, f); }
  }

  /** A linked directory is what rebuilding from the store makes exactly when no file in it
      collides with its own store copy, the store holding what the package lists. */
  lemma LinkedIsRebuilt(tree: Tree, files: seq<FileInfo>, store: map<string, string>, hash: Hasher)
    requires IsLinked(tree, files, store, hash) && IsIntact(store, files, hash)
    ensures (forall f :: f in files ==> tree[f.path] == Regular(store[f.path], true)) <==>
              NoneCollides(tree, files, store, hash)
  {
    LinkedHolds(tree, files, store, hash);
    hide IsLinked, IsRight;
    if NoneCollides(tree, files, store, hash) {
      forall f | f in files ensures tree[f.path] == Regular(store[f.path], true) { assert Holds(tree, hash, f); }
    }
  }

  /** The record a link writes of the files it linked. */
  function RecordOf(files: seq<FileInfo>): map<string, LinkedFile> {
    if files == [] then map[]
    else
      var f := files[|files| - 1];
      RecordOf(files[..|files| - 1])[f.path := LinkedFile(f.hash, f.mode)]
  }

  lemma {:induction false} RecordNames(files: seq<FileInfo>, f: FileInfo)
    requires DistinctPaths(files) && f in files
    ensures f.path in RecordOf(files) && RecordOf(files)[f.path] == LinkedFile(f.hash, f.mode)
  {
    var n := |files| - 1;
    assert files == files[..n] + [files[n]];
    if f != files[n] {
      RecordNames(files[..n], f);
      var i :| 0 <= i < n && files[i] == f;
    }
  }

  /** Linking again what was just linked and recorded is recognised as up to date, so long
      as what stands there can still be read and hashes as listed. */
  lemma RelinkIsRecognised(tree: Tree, here: string, hash: Hasher, files: seq<FileInfo>, linkType: LinkType)
    requires files != [] && DistinctPaths(files) && RECORD_NAME !in Paths(files)
    requires tree.Keys == Paths(files) + {RECORD_NAME}
    requires tree[RECORD_NAME] == Recorded(Manifest(SCHEMA_VERSION, here, linkType, RecordOf(files)))
    requires forall f :: f in files ==> f.hash != "" && Holds(tree, hash, f)
    ensures IsUpToDate(Dir(tree), here, hash, files)
  {
    hide Holds, RecordOf;
    var place := Dir(tree);
    CountPaths(files);
    forall p | p in tree ensures !tree[p].Stray? {
      if p != RECORD_NAME { var f :| f in files && f.path == p; HeldIsRegular(tree, hash, f); }
    }
    assert RegularPaths(tree) == tree.Keys && Strays(tree) == {};
    assert |Paths(files) + {RECORD_NAME}| == |files| + 1;
    forall f | f in files ensures f.path in Reusable(place, here, hash, files) { RecordNames(files, f); }
    assert Reusable(place, here, hash, files) == Paths(files);
  }

  /** Linking other files over a recorded link keeps, of those still as recorded, exactly the ones
      both list alike, hash and mode included. */
  lemma RelinkKeepsWhatIsListedAlike(tree: Tree, here: string, hash: Hasher, files: seq<FileInfo>,
                                     next: seq<FileInfo>, linkType: LinkType, f: FileInfo)
    requires DistinctPaths(files) && DistinctPaths(next) && f in next && RECORD_NAME in tree
    requires tree[RECORD_NAME] == Recorded(Manifest(SCHEMA_VERSION, here, linkType, RecordOf(files)))
    ensures f.path in Reusable(Dir(tree), here, hash, next) <==> f in files && f.hash != "" && Holds(tree, hash, f)
  {
    hide Holds, RecordOf;
    assert ReadManifest(Dir(tree), here) == Some(tree[RECORD_NAME].manifest);
    if f in files { RecordNames(files, f); }
    if f.path in Reusable(Dir(tree), here, hash, next) {
      var g :| g in next && g.path == f.path && IsCandidate(ReadManifest(Dir(tree), here), RegularPaths(tree), g)
               && Holds(tree, hash, g);
      SamePath(next, f, g);
      RecordHolds(files, f);
    }
    if f in files && f.hash != "" && Holds(tree, hash, f) {
      HeldIsRegular(tree, hash, f);
      assert f.path in RegularPaths(tree);
      assert IsCandidate(ReadManifest(Dir(tree), here), RegularPaths(tree), f);
    }
  }

  lemma {:induction false} RecordHolds(files: seq<FileInfo>, f: FileInfo)
    requires f.path in RecordOf(files) && RecordOf(files)[f.path] == LinkedFile(f.hash, f.mode)
    ensures f in files
  {
    var n := |files| - 1;
    assert files == files[..n] + [files[n]];
    if files[n].path != f.path { RecordHolds(files[..n], f); }
  }

  /** A record of another directory, of another schema, or of none, keeps nothing. */
  lemma ForeignRecordKeepsNothing(place: Place, here: string, hash: Hasher, files: seq<FileInfo>)
    requires place.Dir? && RECORD_NAME in place.tree && place.tree[RECORD_NAME].Recorded? ==>
               var record := place.tree[RECORD_NAME].manifest; record.schema != SCHEMA_VERSION || record.path != here
    ensures Reusable(place, here, hash, files) == {} && !IsUpToDate(place, here, hash, files)
  {
  }

  lemma HeldIsRegular(tree: Tree, hash: Hasher, f: FileInfo)
    requires Holds(tree, hash, f)
    ensures f.path in tree && tree[f.path].Regular?
  {
  }
}
