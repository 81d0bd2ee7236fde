/** The relink as it runs: a replacement is built beside the linked directory and renamed
    into place, any step may fail, and every state the disk goes through is kept to say
    what a crash between two steps would leave. */
module RelinkRun {
  import opened Wrappers
  import opened Relink

  /** The three paths a link touches. */
  datatype Disk = Disk(live: Place, temp: Place, retired: Place)

  datatype RecordOutcome = Written | Garbled(content: string) | NotWritten

  /** What the file system does with each thing a link asks of it. `leftTemp` and
      `leftRetired` are what removing a tree leaves of it at any moment. */
  datatype Faults = Faults(
    tempMade: bool, carries: string -> bool, materialises: string -> bool, record: RecordOutcome,
    movesAside: bool, movesIn: bool, movesBack: bool, nodeLinked: bool, leftTemp: Place, leftRetired: Place)

  datatype LinkError = TempNotMade | NotPopulated | NotMovedAside | NotFinalized | PreservedAtRetired | NodeLinkFailed

  /** How many files a link wrote and how many it left as they were. */
  datatype Outcome = Outcome(written: int, kept: int)

  /** A state no crash is feared in: the live path holds the previous tree, the complete
      replacement or nothing, and until the replacement is there the previous tree is whole
      at its own path or at the retired one. */
  predicate IsSafe(d: Disk, before: Place, goal: Place) {
    && (d.live == before || d.live == goal || d.live == Missing)
    && (d.live == before || d.live == goal || d.retired == before)
  }

  predicate AllSafe(states: seq<Disk>, before: Place, goal: Place) {
    forall d :: d in states ==> IsSafe(d, before, goal)
  }

  ghost predicate AllRight(tree: Tree, files: seq<FileInfo>, store: map<string, string>, hash: Hasher) {
    forall f :: f in files ==> IsRight(tree, store, hash, f)
  }

  /** The listed files carried over from the directory in place. */
  function Carried(files: seq<FileInfo>, reusable: set<string>, carries: string -> bool): set<string> {
    set f | f in files && f.path in reusable && carries(f.path) :: f.path
  }

  /** Each file can be had: carried over, or copied from the store. */
  predicate AllCome(files: seq<FileInfo>, reusable: set<string>, store: map<string, string>, faults: Faults) {
    forall f :: f in files ==> Comes(f, reusable, store, faults)
  }

  predicate Comes(f: FileInfo, reusable: set<string>, store: map<string, string>, faults: Faults) {
    (f.path in reusable && faults.carries(f.path)) || (f.path in store && faults.materialises(f.path))
  }

  /** Each file is the one that was there, if carried over, and otherwise its store copy. */
  ghost predicate IsBuilt(tree: Tree, before: Place, files: seq<FileInfo>, reusable: set<string>,
                          store: map<string, string>, faults: Faults) {
    forall f :: f in files ==> IsBuiltFile(tree, before, f, reusable, store, faults)
  }

  predicate IsBuiltFile(tree: Tree, before: Place, f: FileInfo, reusable: set<string>, store: map<string, string>,
                        faults: Faults) {
    && f.path in tree
    && if f.path in reusable && faults.carries(f.path) then
         before.Dir? && f.path in before.tree && tree[f.path] == before.tree[f.path]
       else f.path in store && tree[f.path] == Regular(store[f.path], true)
  }

  /** The error of a link that does not find the directory up to date: its first step that
      fails, if one does, and whether the previous tree then could not be moved back. */
  function FirstFailure(before: Place, comes: bool, faults: Faults): Option<LinkError> {
    if !faults.tempMade then Some(TempNotMade)
    else if !comes then Some(NotPopulated)
    else if before != Missing && !faults.movesAside then Some(NotMovedAside)
    else if !faults.movesIn then
      if before != Missing && !faults.movesBack then Some(PreservedAtRetired) else Some(NotFinalized)
    else if !faults.nodeLinked then Some(NodeLinkFailed)
    else None
  }

  class LinkDir {
    const here: string
    var live: Place
    var temp: Place
    var retired: Place
    ghost var trace: seq<Disk>

    ghost predicate Settled()
      reads this
    {
      temp == Missing && retired == Missing
    }

    constructor (here: string, live: Place)
      ensures Settled() && this.here == here && this.live == live && trace == []
    {
      this.here, this.live, temp, retired, trace := here, live, Missing, Missing, [];
    }

    /** Records the state the disk is in. */
    ghost method Log()
      modifies this`trace
      ensures trace == old(trace) + [Disk(live, temp, retired)]
    {
      trace := trace + [Disk(live, temp, retired)];
    }

    /** Renames the replacement into place, the previous tree aside first and back again if
        that fails; what is left over is removed. */
    method Swap(faults: Faults) returns (error: Option<LinkError>)
      requires temp != Missing && retired == Missing
      modifies this
      ensures old(trace) <= trace && AllSafe(trace[|old(trace)|..], old(live), old(temp))
      ensures error.None? ==>
                live == old(temp) && temp == Missing && (retired == Missing || retired == faults.leftRetired)
      ensures error == if old(live) != Missing && !faults.movesAside then Some(NotMovedAside)
                       else if faults.movesIn then None
                       else if old(live) != Missing && !faults.movesBack then Some(PreservedAtRetired)
                       else Some(NotFinalized)
      ensures error.Some? ==> temp == faults.leftTemp && if error.value == PreservedAtRetired then retired == old(live)
                                                         else live == old(live) && retired == Missing
    {
      var hadPrevious := false;
      if live != Missing {
        if !faults.movesAside {
          temp := faults.leftTemp;
          Log();
          return Some(NotMovedAside);
        }
        live, retired := Missing, live;
        Log();
        hadPrevious := true;
      }
      if !faults.movesIn {
        if hadPrevious {
          if !faults.movesBack {
            temp := faults.leftTemp;
            Log();
            return Some(PreservedAtRetired);
          }
          live, retired := retired, Missing;
          Log();
        }
        temp := faults.leftTemp;
        Log();
        return Some(NotFinalized);
      }
      live, temp := temp, Missing;
      Log();
      if hadPrevious {
        retired := faults.leftRetired;
        Log();
      }
      error := None;
    }

    /** Puts one file into the replacement: one that may stay is carried over from the live
        directory, any other, or one that cannot be carried over, comes from the store. */
    method PutFile(f: FileInfo, ghost files: seq<FileInfo>, reusable: set<string>, store: map<string, string>,
                   ghost hash: Hasher, faults: Faults)
      returns (put: bool, kept: bool)
      requires DistinctPaths(files) && f in files && temp.Dir?
      requires reusable == Reusable(live, here, hash, files)
      modifies this`temp, this`trace
      ensures put <==> Comes(f, reusable, store, faults)
      ensures !put ==> temp == old(temp) && trace == old(trace)
      ensures put ==>
                && temp.Dir? && f.path in temp.tree && temp.tree == old(temp).tree[f.path := temp.tree[f.path]]
                && trace == old(trace) + [Disk(live, temp, retired)]
                && (kept <==> f.path in reusable && faults.carries(f.path))
                && IsRight(temp.tree, store, hash, f) && IsBuiltFile(temp.tree, live, f, reusable, store, faults)
    {
      hide IsRight, Reusable, IsBuiltFile;
      if f.path in reusable && faults.carries(f.path) {
        CarriedIsRight(temp.tree, live, here, hash, files, f, store);
        CarriedIsBuilt(temp.tree, live, f, reusable, store, faults);
        temp := Dir(temp.tree[f.path := live.tree[f.path]]);
        Log();
        return true, true;
      }
      if f.path !in store || !faults.materialises(f.path) {
        return false, false;
      }
      StoredIsRight(temp.tree, store, hash, f);
      StoredIsBuilt(temp.tree, live, f, reusable, store, faults);
      temp := Dir(temp.tree[f.path := Regular(store[f.path], true)]);
      Log();
      return true, false;
    }

    /** Builds the replacement file by file, counting those carried over. */
    method Populate(files: seq<FileInfo>, reusable: set<string>, store: map<string, string>, hash: Hasher,
                    faults: Faults)
      returns (populated: bool, reused: nat)
      requires DistinctPaths(files) && temp == Dir(map[])
      requires reusable == Reusable(live, here, hash, files)
      modifies this`temp, this`trace
      ensures reused <= |files| && temp.Dir?
      ensures old(trace) <= trace && forall k :: |old(trace)| <= k < |trace| ==>
                trace[k].live == live && trace[k].retired == retired
      ensures populated ==> temp.tree.Keys == Paths(files) && AllRight(temp.tree, files, store, hash)
      ensures populated ==> IsBuilt(temp.tree, live, files, reusable, store, faults)
      ensures populated ==> reused == |Carried(files, reusable, faults.carries)|
      ensures populated <==> AllCome(files, reusable, store, faults)
    {
      hide IsCandidate, IsRight, Holds, Reusable, Paths, AllRight, Carried, IsBuilt, IsBuiltFile, AllCome, Comes;
      reused := 0;
      NoneCarried(files, live, reusable, store, faults);
      NoPaths(files);
      NoneRight(temp.tree, files, store, hash);
      for i := 0 to |files|
        invariant temp.Dir? && temp.tree.Keys == Paths(files[..i]) && reused <= i
        invariant AllRight(temp.tree, files[..i], store, hash)
        invariant reused == |Carried(files[..i], reusable, faults.carries)|
        invariant IsBuilt(temp.tree, live, files[..i], reusable, store, faults)
        invariant AllCome(files[..i], reusable, store, faults)
        invariant old(trace) <= trace && forall k :: |old(trace)| <= k < |trace| ==>
                  trace[k].live == live && trace[k].retired == retired
      {
        ghost var built := temp.tree;
        OneMorePath(files, i);
        OneMoreComes(files, i, reusable, store, faults);
        var put, kept := PutFile(files[i], files, reusable, store, hash, faults);
        if !put {
          return false, reused;
        }
        if kept {
          reused := reused + 1;
        }
        OneMoreRight(built, temp.tree, files, i, store, hash);
        OneMoreCarried(files, i, reusable, faults.carries);
        OneMoreBuilt(built, temp.tree, live, files, i, reusable, store, faults);
      }
      assert files[..|files|] == files;
      populated := true;
    }

    /** Writes the manifest last; a link does not fail over it. */
    method WriteManifest(files: seq<FileInfo>, linkType: LinkType, outcome: RecordOutcome)
      requires temp.Dir?
      modifies this`temp, this`trace
      ensures trace == old(trace) + [Disk(live, temp, retired)]
      ensures outcome == Written ==>
                var record := Recorded(Manifest(SCHEMA_VERSION, here, linkType, RecordOf(files)));
                temp == Dir(old(temp).tree[RECORD_NAME := record])
      ensures outcome.Garbled? ==> temp == Dir(old(temp).tree[RECORD_NAME := Regular(outcome.content, true)])
      ensures outcome == NotWritten ==> temp == old(temp)
    {
      var record: map<string, LinkedFile> := map[];
      for i := 0 to |files|
        invariant record == RecordOf(files[..i])
      {
        assert files[..i + 1][..i] == files[..i];
        record := record[files[i].path := LinkedFile(files[i].hash, files[i].mode)];
      }
      assert files[..|files|] == files;
      if outcome == Written {
        temp := Dir(temp.tree[RECORD_NAME := Recorded(Manifest(SCHEMA_VERSION, here, linkType, record))]);
      } else if outcome.Garbled? {
        temp := Dir(temp.tree[RECORD_NAME := Regular(outcome.content, true)]);
      }
      Log();
    }

    /** The files that may stay, from the manifest, the listing and the bytes, and whether
        the counts leave nothing to do. */
    method Inspect(files: seq<FileInfo>, hash: Hasher) returns (reusable: set<string>, upToDate: bool)
      requires DistinctPaths(files)
      ensures reusable == Reusable(live, here, hash, files) && upToDate == IsUpToDate(live, here, hash, files)
    {
      hide IsCandidate, Holds;
      var prior := ReadManifest(live, here);
      if prior.None? {
        NothingReusable(live, here, hash, files);
        return {}, false;
      }
      var present, unexpected := ScanLinked(live.tree);
      var candidates := ReusableFiles(prior, present, files);
      reusable := VerifiedReusable(live.tree, hash, candidates, files);
      SameReusable(live, here, hash, files, candidates, reusable);
      NoStrays(Strays(live.tree));
      upToDate := |files| > 0 && |reusable| == |files| && unexpected == 0 && |present| == |files| + 1;
    }

    /** Links a package. On success the live directory is what was asked for, each file the one
        that stood there if it may stay and is carried over, and counted as kept, and its store
        copy otherwise; on a failure to swap the previous one is at its own path or, the error
        saying so, at the retired one; and every state on the way is safe. It fails exactly when
        a step it takes does. */
    method Link(listed: seq<FileInfo>, store: map<string, string>, hash: Hasher, linkType: LinkType, faults: Faults)
      returns (r: Result<Outcome, LinkError>, ghost goal: Place)
      requires Settled() && DistinctPaths(listed)
      modifies this
      ensures var files := WithoutRecordName(listed);
              && (r.Ok? ==> live == goal && goal.Dir? && IsLinked(goal.tree, files, store, hash)
                            && 0 <= r.value.written && 0 <= r.value.kept && r.value.written + r.value.kept == |files|)
              && (r.Ok? && !IsUpToDate(old(live), here, hash, files) ==>
                    var reusable := Reusable(old(live), here, hash, files);
                    && r.value.kept == |Carried(files, reusable, faults.carries)|
                    && (old(live).Dir? || r.value.kept == 0)
                    && IsBuilt(goal.tree, old(live), files, reusable, store, faults))
              && (!IsUpToDate(old(live), here, hash, files) ==>
                    var comes := AllCome(files, Reusable(old(live), here, hash, files), store, faults);
                    && (r.Ok? <==> FirstFailure(old(live), comes, faults).None?)
                    && (r.Err? ==> Some(r.error) == FirstFailure(old(live), comes, faults)))
              && (IsUpToDate(old(live), here, hash, files) ==>
                  live == old(live) && r == if faults.nodeLinked then Ok(Outcome(0, |files|)) else Err(NodeLinkFailed))
              && (r.Ok? && !IsUpToDate(old(live), here, hash, files) && faults.record == Written ==>
                    goal.tree.Keys == Paths(files) + {RECORD_NAME}
                    && goal.tree[RECORD_NAME] == Recorded(Manifest(SCHEMA_VERSION, here, linkType, RecordOf(files))))
      ensures r.Ok? || r.error == NodeLinkFailed ==>
                temp == Missing && (retired == Missing || retired == faults.leftRetired)
      ensures r.Err? && r.error != NodeLinkFailed ==>
                && (if r.error == PreservedAtRetired then retired == old(live)
                    else live == old(live) && retired == Missing)
                && temp == if r.error == TempNotMade then Missing else faults.leftTemp
      ensures r.Err? && r.error == NodeLinkFailed ==>
                live == goal && goal.Dir? && IsLinked(goal.tree, WithoutRecordName(listed), store, hash)
      ensures old(trace) <= trace && AllSafe(trace[|old(trace)|..], old(live), goal)
    {
      hide IsUpToDate, Reusable, IsLinked, RecordOf, WithoutRecordName, IsRight, Carried, AllCome, IsBuilt;
      var files := WithoutRecordName(listed);
      OnlyRecordNameIsDropped(listed);
      goal := live;
      var reusable, upToDate := Inspect(files, hash);
      if upToDate {
        UpToDateIsLinked(live, here, hash, files, store);
        UpToDateIsDir(live, here, hash, files);
        return if faults.nodeLinked then Ok(Outcome(0, |files|)) else Err(NodeLinkFailed), live;
      }
      if !faults.tempMade {
        return Err(TempNotMade), live;
      }
      temp := Dir(map[]);
      Log();
      var populated, reused := Populate(files, reusable, store, hash, faults);
      if !populated {
        temp := faults.leftTemp;
        Log();
        return Err(NotPopulated), live;
      }
      ghost var built := temp.tree;
      WriteManifest(files, linkType, faults.record);
      BuiltIsLinked(built, temp.tree, files, store, hash);
      RecordKeepsBuilt(built, temp.tree, live, files, reusable, store, faults);
      NoDirKeepsNothing(live, here, hash, files, faults.carries);
      goal := temp;
      ghost var before := |trace|;
      assert AllSafe(trace[|old(trace)|..], old(live), goal);
      var error := Swap(faults);
      SafeTogether(trace, |old(trace)|, before, old(live), goal);
      if error.Some? {
        return Err(error.value), goal;
      }
      r := if faults.nodeLinked then Ok(Outcome(|files| - reused, reused)) else Err(NodeLinkFailed);
    }

    /** Points the package at a live source instead, by the same swap. */
    method LinkSource(source: string, faults: Faults) returns (error: Option<LinkError>, ghost goal: Place)
      requires Settled()
      modifies this
      ensures error.None? ==> live == LiveLink(source)
      ensures error == FirstFailure(old(live), true, faults)
      ensures error.None? || error.value == NodeLinkFailed ==>
                temp == Missing && (retired == Missing || retired == faults.leftRetired)
      ensures error.Some? && error.value != NodeLinkFailed ==>
                && (if error.value == PreservedAtRetired then retired == old(live)
                    else live == old(live) && retired == Missing)
                && temp == if error.value == TempNotMade then Missing else faults.leftTemp
      ensures old(trace) <= trace && AllSafe(trace[|old(trace)|..], old(live), LiveLink(source))
    {
      goal := LiveLink(source);
      if !faults.tempMade {
        return Some(TempNotMade), goal;
      }
      temp := LiveLink(source);
      Log();
      ghost var before := |trace|;
      error := Swap(faults);
      SafeTogether(trace, |old(trace)|, before, old(live), goal);
      if error.None? && !faults.nodeLinked {
        error := Some(NodeLinkFailed);
      }
    }
  }

  // ---------------------------------------------------------------- lemmas

  lemma NoneCarried(files: seq<FileInfo>, live: Place, reusable: set<string>, store: map<string, string>,
                    faults: Faults)
    ensures Carried(files[..0], reusable, faults.carries) == {}
    ensures IsBuilt(map[], live, files[..0], reusable, store, faults)
    ensures AllCome(files[..0], reusable, store, faults)
  {
  }

  lemma CarriedIsBuilt(tree: Tree, live: Place, f: FileInfo, reusable: set<string>, store: map<string, string>,
                       faults: Faults)
    requires f.path in reusable && faults.carries(f.path) && live.Dir? && f.path in live.tree
    ensures IsBuiltFile(tree[f.path := live.tree[f.path]], live, f, reusable, store, faults)
  {
  }

  lemma StoredIsBuilt(tree: Tree, live: Place, f: FileInfo, reusable: set<string>, store: map<string, string>,
                      faults: Faults)
    requires !(f.path in reusable && faults.carries(f.path)) && f.path in store
    ensures IsBuiltFile(tree[f.path := Regular(store[f.path], true)], live, f, reusable, store, faults)
  {
  }

  lemma OneMoreComes(files: seq<FileInfo>, i: nat, reusable: set<string>, store: map<string, string>, faults: Faults)
    requires i < |files|
    ensures AllCome(files[..i + 1], reusable, store, faults) <==>
              AllCome(files[..i], reusable, store, faults) && Comes(files[i], reusable, store, faults)
    ensures !Comes(files[i], reusable, store, faults) ==> !AllCome(files, reusable, store, faults)
  {
    assert files[..i + 1] == files[..i] + [files[i]];
    assert files[i] in files;
  }

  lemma OneMoreCarried(files: seq<FileInfo>, i: nat, reusable: set<string>, carries: string -> bool)
    requires i < |files| && DistinctPaths(files)
    ensures var f := files[i]; var more := Carried(files[..i + 1], reusable, carries);
            |more| == |Carried(files[..i], reusable, carries)| + if f.path in reusable && carries(f.path) then 1 else 0
  {
    var f, some, more := files[i], Carried(files[..i], reusable, carries), Carried(files[..i + 1], reusable, carries);
    assert files[..i + 1] == files[..i] + [f];
    assert f.path !in some;
    assert more == if f.path in reusable && carries(f.path) then some + {f.path} else some;
  }

  lemma OneMoreBuilt(built: Tree, more: Tree, live: Place, files: seq<FileInfo>, i: nat, reusable: set<string>,
                     store: map<string, string>, faults: Faults)
    requires i < |files| && DistinctPaths(files) && files[i].path in more
    requires more == built[files[i].path := more[files[i].path]]
    requires IsBuilt(built, live, files[..i], reusable, store, faults)
    requires IsBuiltFile(more, live, files[i], reusable, store, faults)
    ensures IsBuilt(more, live, files[..i + 1], reusable, store, faults)
  {
    forall g | g in files[..i + 1] && g != files[i] ensures g in files[..i] && g.path != files[i].path {
      var k :| 0 <= k <= i && files[k] == g;
    }
  }

  /** The manifest's own name is none of the files'. */
  lemma RecordKeepsBuilt(built: Tree, tree: Tree, live: Place, files: seq<FileInfo>, reusable: set<string>,
                         store: map<string, string>, faults: Faults)
    requires RECORD_NAME !in Paths(files) && IsBuilt(built, live, files, reusable, store, faults)
    requires tree == built || (RECORD_NAME in tree && tree == built[RECORD_NAME := tree[RECORD_NAME]])
    ensures IsBuilt(tree, live, files, reusable, store, faults)
  {
    forall f | f in files ensures f.path != RECORD_NAME { assert f.path in Paths(files); }
  }

  lemma NoDirKeepsNothing(live: Place, here: string, hash: Hasher, files: seq<FileInfo>, carries: string -> bool)
    ensures !live.Dir? ==> |Carried(files, Reusable(live, here, hash, files), carries)| == 0
  {
    if !live.Dir? { assert Carried(files, Reusable(live, here, hash, files), carries) == {}; }
  }

  lemma NoPaths(files: seq<FileInfo>)
    ensures Paths(files[..0]) == {}
  {
  }

  lemma OneMorePath(files: seq<FileInfo>, i: nat)
    requires i < |files|
    ensures files[..i + 1] == files[..i] + [files[i]] && Paths(files[..i + 1]) == Paths(files[..i]) + {files[i].path}
  {
  }

  lemma StoredIsRight(tree: Tree, store: map<string, string>, hash: Hasher, f: FileInfo)
    requires f.path in store
    ensures IsRight(tree[f.path := Regular(store[f.path], true)], store, hash, f)
  {
  }

  lemma CarriedIsRight(tree: Tree, live: Place, here: string, hash: Hasher, files: seq<FileInfo>, f: FileInfo,
                       store: map<string, string>)
    requires DistinctPaths(files) && f in files && f.path in Reusable(live, here, hash, files)
    ensures live.Dir? && f.path in live.tree
    ensures IsRight(tree[f.path := live.tree[f.path]], store, hash, f)
  {
    hide IsCandidate;
    var prior := ReadManifest(live, here);
    var g :| g in files && g.path == f.path && IsCandidate(prior, RegularPaths(live.tree), g) &&
        Holds(live.tree, hash, g);
    SamePath(files, f, g);
    CandidateIsPresent(prior, RegularPaths(live.tree), g);
  }

  lemma NoneRight(tree: Tree, files: seq<FileInfo>, store: map<string, string>, hash: Hasher)
    ensures AllRight(tree, files[..0], store, hash)
  {
  }

  lemma OneMoreRight(built: Tree, more: Tree, files: seq<FileInfo>, i: nat, store: map<string, string>, hash: Hasher)
    requires i < |files| && DistinctPaths(files) && files[i].path in more
    requires more == built[files[i].path := more[files[i].path]]
    requires AllRight(built, files[..i], store, hash) && IsRight(more, store, hash, files[i])
    ensures AllRight(more, files[..i + 1], store, hash)
  {
    forall g | g in files[..i + 1] ensures IsRight(more, store, hash, g) {
      var k :| 0 <= k <= i && files[k] == g;
      if k < i { assert g in files[..i] && IsRight(built, store, hash, g); }
    }
  }

  lemma NothingReusable(live: Place, here: string, hash: Hasher, files: seq<FileInfo>)
    requires ReadManifest(live, here).None?
    ensures Reusable(live, here, hash, files) == {} && !IsUpToDate(live, here, hash, files)
  {
  }

  lemma NoStrays(strays: set<string>)
    ensures |strays| == 0 <==> strays == {}
  {
  }

  lemma SameReusable(live: Place, here: string, hash: Hasher, files: seq<FileInfo>, candidates: set<string>,
                     verified: set<string>)
    requires DistinctPaths(files) && ReadManifest(live, here).Some?
    requires candidates ==
               set f | f in files && IsCandidate(ReadManifest(live, here), RegularPaths(live.tree), f) :: f.path
    requires verified == set f | f in files && f.path in candidates && Holds(live.tree, hash, f) :: f.path
    ensures verified == Reusable(live, here, hash, files)
  {
    hide IsCandidate, Holds;
    var prior, present := ReadManifest(live, here), RegularPaths(live.tree);
    forall f | f in files && f.path in candidates ensures IsCandidate(prior, present, f) {
      var g :| g in files && g.path == f.path && IsCandidate(prior, present, g);
      SamePath(files, f, g);
    }
  }

  lemma UpToDateIsDir(live: Place, here: string, hash: Hasher, files: seq<FileInfo>)
    requires IsUpToDate(live, here, hash, files)
    ensures live.Dir?
  {
  }

  lemma BuiltIsLinked(built: Tree, tree: Tree, files: seq<FileInfo>, store: map<string, string>, hash: Hasher)
    requires built.Keys == Paths(files) && RECORD_NAME !in Paths(files)
    requires AllRight(built, files, store, hash)
    requires tree == built || (RECORD_NAME in tree && tree == built[RECORD_NAME := tree[RECORD_NAME]])
    ensures IsLinked(tree, files, store, hash)
    ensures tree != built ==> tree.Keys == Paths(files) + {RECORD_NAME}
  {
    forall f | f in files ensures IsRight(tree, store, hash, f) { assert f.path in Paths(files); }
  }

  lemma SafeTogether(trace: seq<Disk>, from: nat, mid: nat, before: Place, goal: Place)
    requires from <= mid <= |trace|
    requires AllSafe(trace[from..mid], before, goal) && AllSafe(trace[mid..], before, goal)
    ensures AllSafe(trace[from..], before, goal)
  {
    assert trace[from..] == trace[from..mid] + trace[mid..];
  }

  // ---------------------------------------------------------------- linking again

  /** Linking a package and linking it again: when the first link wrote its record and the
      store holds what the package lists, the second writes nothing and leaves every file as
      it is. */
  method LinkTwice(dir: LinkDir, listed: seq<FileInfo>, store: map<string, string>, hash: Hasher, linkType: LinkType,
                   first: Faults, second: Faults)
    returns (r: Result<Outcome, LinkError>, again: Result<Outcome, LinkError>)
    requires dir.Settled() && DistinctPaths(listed) && WithoutRecordName(listed) != []
    requires IsIntact(store, listed, hash) && forall f :: f in listed ==> f.hash != ""
    requires first.record == Written && first.leftRetired == Missing && second.nodeLinked
    modifies dir
    ensures r.Ok? ==> again == Ok(Outcome(0, |WithoutRecordName(listed)|))
  {
    hide IsUpToDate, IsLinked, RecordOf, WithoutRecordName, IsRight, Reusable, IsIntact;
    ghost var was := IsUpToDate(dir.live, dir.here, hash, WithoutRecordName(listed));
    ghost var goal;
    r, goal := dir.Link(listed, store, hash, linkType, first);
    again := r;
    if r.Ok? {
      if !was { LinkedIsRecognised(listed, goal.tree, dir.here, store, hash, linkType); }
      again, goal := dir.Link(listed, store, hash, linkType, second);
    }
  }

  lemma LinkedIsRecognised(listed: seq<FileInfo>, tree: Tree, here: string, store: map<string, string>, hash: Hasher,
                           linkType: LinkType)
    requires DistinctPaths(listed) && WithoutRecordName(listed) != []
    requires IsIntact(store, listed, hash) && forall f :: f in listed ==> f.hash != ""
    requires var files := WithoutRecordName(listed);
             && IsLinked(tree, files, store, hash) && tree.Keys == Paths(files) + {RECORD_NAME}
             && tree[RECORD_NAME] == Recorded(Manifest(SCHEMA_VERSION, here, linkType, RecordOf(files)))
    ensures IsUpToDate(Dir(tree), here, hash, WithoutRecordName(listed))
  {
    hide WithoutRecordName, RecordOf, IsLinked, IsUpToDate, Holds;
    var files := WithoutRecordName(listed);
    RecordNameIsDropped(listed);
    OnlyRecordNameIsDropped(listed);
    assert IsIntact(store, files, hash);
    LinkedHolds(tree, files, store, hash);
    RelinkIsRecognised(tree, here, hash, files, linkType);
  }
}
