/** What a run of commands may rely on: the user's range is never lost, and exactly which
    steps would lose it. */
module SpecifierLaws {
  import opened Wrappers
  import opened Specifier
  import opened SpecifierRun

  // ---------------------------------------------------------------- whole runs

  datatype Command =
    | Adding(package: string, dev: bool, pure: bool, useLink: bool)
    | AddingAll(packages: seq<string>, dev: bool, pure: bool, useLink: bool)
    | Removing(package: string, all: bool)
    | Retreating
    | Restoring

  /** What a caller can see before a command that keeps it from losing a range: a pure add is
      of names some record already holds, a batch names a package twice only if one does, and
      a restore finds no name added again without an original version. */
  predicate IsAllowed(d: Disk, c: Command) {
    match c
    case Adding(p, _, pure, _) => pure ==> IsRecorded(d, p)
    case AddingAll(ps, _, pure, _) =>
      && (forall i, j :: 0 <= i < j < |ps| && ps[i] == ps[j] ==> IsRecorded(d, ps[i]))
      && (pure ==> forall p :: p in ps ==> IsRecorded(d, p))
    case Removing(_, _) => true
    case Retreating => true
    case Restoring => forall p :: p in Held(d.lock) ==> !IsAtRisk(d, p)
  }

  /** A command may write over or delete a name's entry in package.json. */
  predicate Rewrites(d: Disk, c: Command, name: string) {
    match c
    case Adding(p, _, pure, _) => !pure && p == name
    case AddingAll(ps, _, pure, _) => !pure && name in ps
    case Removing(p, all) => name in Held(d.lock) && (all || p == name)
    case Retreating => name in Held(d.lock)
    case Restoring => name in Held(d.snapshot) && name !in Held(d.lock)
  }

  /** A command, what fails during it, which names are valid, and how many of its writes
      land before the process is killed, if it is. */
  datatype Run = Run(command: Command, fails: Faults, at: BatchFaults, valid: string -> bool, crash: Option<nat>)

  method Execute(project: Project, c: Command, fails: Faults, at: BatchFaults, valid: string -> bool,
                 ghost name: string, ghost range: string)
    requires !IsReference(range) && IsKept(project.disk, name, range) && IsAllowed(project.disk, c)
    requires range == "" ==> !Rewrites(project.disk, c, name)
    modifies project
    ensures old(project.history) <= project.history
    ensures AllKept(project.history[|old(project.history)|..], name, range) && IsKept(project.disk, name, range)
  {
    hide IsKept;
    var done;
    match c
    case Adding(p, dev, pure, useLink) => done := project.Add(p, dev, pure, useLink, fails, name, range);
    case AddingAll(ps, dev, pure, useLink) => done := project.AddBatch(ps, dev, pure, useLink, fails, at, name, range);
    case Removing(p, all) => done := project.Remove(p, all, fails, name, range);
    case Retreating => done := project.Retreat(valid, fails, name, range);
    case Restoring => done := project.Restore(fails, name, range);
  }

  /** Any run of commands with any failures and crashes, each allowed when it starts: at
      every point between two writes the range of every tracked package is in package.json,
      in the lock or in the snapshot. A package whose range is empty must be among the spared
      names, whose entries no command of the run rewrites. */
  method Session(project: Project, runs: seq<Run>, spared: set<string>, ghost name: string, ghost range: string)
    requires !IsReference(range) && IsKept(project.disk, name, range) && project.history == []
    requires range == "" ==> name in spared
    modifies project
    ensures IsPresent(project.disk, name, range)
    ensures forall d :: d in project.history ==> IsPresent(d, name, range)
  {
    hide IsKept, IsPresent, IsAllowed, Rewrites;
    for i := 0 to |runs|
      invariant IsKept(project.disk, name, range) && AllKept(project.history, name, range)
    {
      var run := runs[i];
      if IsAllowed(project.disk, run.command) && forall p :: p in spared ==> !Rewrites(project.disk, run.command, p) {
        var before, written := project.disk, |project.history|;
        ghost var history := project.history;
        Execute(project, run.command, run.fails, run.at, run.valid, name, range);
        assert project.history == history + project.history[written..];
        if run.crash.Some? && run.crash.value <= |project.history| - written {
          var k := run.crash.value;
          var left := if k == 0 then before else project.history[written + k - 1];
          project.Crash(left, written + k);
        }
      }
    }
    KeptIsPresent(project.disk, name, range);
    forall d | d in project.history ensures IsPresent(d, name, range) { KeptIsPresent(d, name, range); }
  }

  // ---------------------------------------------------------------- exactly what would lose a range

  /** What a retreat that succeeds makes of the files, as far as one name in the lock goes. */
  function RetreatedDisk(d: Disk, name: string): Disk
    requires name in Held(d.lock)
  {
    StashedDisk(d.(pkg := Unlinked(d.pkg, name, Held(d.lock)[name].original)))
  }

  /** Adding, then removing or retreating, with nothing failing: the range survives exactly
      when it is not empty. */
  lemma AddThenRemove(d: Disk, name: string, range: string, dev: bool, useLink: bool)
    requires !IsReference(range) && IsKept(d, name, range)
    ensures var added := AddedDisk(d, name, dev, false, useLink);
            && (IsPresent(RemovedDisk(added, name), name, range) <==> range != "")
            && (IsPresent(RetreatedDisk(added, name), name, range) <==> range != "")
  {
    var added := AddedDisk(d, name, dev, false, useLink);
    LockingKeeps(d, name, range, dev);
    ReferencingKeeps(d.(lock := added.lock), name, range, dev, useLink);
    if range != "" {
      UnlinkingKeeps(added, name, range);
      var unlinked := added.(pkg := Unlinked(added.pkg, name, Held(added.lock)[name].original));
      MergingKeeps(unlinked, name, range);
    }
  }

  /** Adding without reading package.json, then removing: the range survives exactly when it
      is not empty and the lock or the snapshot already held the name. */
  lemma PureAddThenRemove(d: Disk, name: string, range: string, dev: bool, useLink: bool)
    requires !IsReference(range) && IsKept(d, name, range)
    ensures var added := AddedDisk(d, name, dev, true, useLink);
            && (IsKept(added, name, range) <==> range == "" || IsRecorded(d, name))
            && (IsPresent(RemovedDisk(added, name), name, range) <==> range != "" && IsRecorded(d, name))
  {
    var added := AddedDisk(d, name, dev, true, useLink);
    if range != "" && IsRecorded(d, name) {
      LockedKeeps(d, name, name, range, dev, true);
      UnlinkingKeeps(added, name, range);
      KeptIsPresent(added.(pkg := Unlinked(added.pkg, name, Held(added.lock)[name].original),
          lock := Some(Held(added.lock) - {name})), name, range);
    }
  }

  /** Dropping a snapshot entry because the lock has the name keeps the invariant exactly
      when the lock records the range, and loses the range outright when in addition
      package.json no longer holds it. */
  lemma ConsumingExactly(d: Disk, name: string, range: string)
    requires IsKept(d, name, range) && name in Held(d.lock) && name in Held(d.snapshot)
    ensures var after := d.(snapshot := Some(Held(d.snapshot) - {name}));
            && (IsKept(after, name, range) <==> Held(d.lock)[name].original == range)
            && (IsPresent(after, name, range) <==> Held(d.lock)[name].original == range || d.pkg.Holds(name, range))
  {
  }

  /** How a restore comes to do that: killed after its package.json write, then the package
      added by hand, then the restore run again. Every state but the last keeps the range,
      unless it is empty, which no state does. */
  lemma InterruptedRestoreThenAddLoses(d: Disk, name: string, range: string)
    requires !IsReference(range) && IsKept(d, name, range) && name in Held(d.snapshot) && name !in Held(d.lock)
    ensures var killed := d.(pkg := WithReference(d.pkg, name, false, false));
            var added := AddedDisk(killed, name, false, false, false);
            && (IsKept(killed, name, range) <==> range != "") && (IsKept(added, name, range) <==> range != "")
            && !IsAllowed(added, Restoring)
            && !IsPresent(added.(snapshot := Some(Held(added.snapshot) - {name})), name, range)
  {
    ReferencingKeeps(d, name, range, false, false);
    var killed := d.(pkg := WithReference(d.pkg, name, false, false));
    if range != "" {
      LockingKeeps(killed, name, range, false);
      var entry := AddedEntry(Held(killed.lock), name, ReadOriginal(killed.pkg, name, false));
      ReferencingKeeps(killed.(lock := Some(Held(killed.lock)[name := entry])), name, range, false, false);
    }
  }

  /** An add keeps a range package.json held exactly when it is not empty, and is the one the
      add reads or one the snapshot has. */
  lemma AddKeepsWhatItReads(d: Disk, name: string, range: string, dev: bool, useLink: bool)
    requires !IsReference(range) && d.pkg.Holds(name, range)
    ensures IsPresent(AddedDisk(d, name, dev, false, useLink), name, range) <==>
            range != "" && (range == ReadOriginal(d.pkg, name, dev) ||
                (name in Held(d.snapshot) && Held(d.snapshot)[name].original == range))
  {
  }

  /** A range of the user's own: not empty, and not one that lnpm writes. */
  predicate IsOwn(range: string) {
    range != "" && !("file:.lnpm/" <= range) && !("link:.lnpm/" <= range)
  }

  /** What an add records of a name: the user's range in the field it writes, that in the
      other field if there is none, or what the lock had. */
  lemma AddRecords(d: Disk, name: string, dev: bool, useLink: bool)
    ensures var inDev := dev || (name in d.pkg.dev && name !in d.pkg.deps);
            var (target, other) := if inDev then (d.pkg.dev, d.pkg.deps) else (d.pkg.deps, d.pkg.dev);
            var lock := Held(AddedDisk(d, name, dev, false, useLink).lock);
            && name in lock
            && lock[name].original == if name in target && IsOwn(target[name]) then target[name]
                                      else if name in other && IsOwn(other[name]) then other[name]
                                      else if name in Held(d.lock) then Held(d.lock)[name].original else ""
  {
  }

  predicate HoldsTwoRanges(pkg: Manifest, name: string) {
    name in pkg.deps && name in pkg.dev && IsRecordable(pkg.deps[name]) && IsRecordable(pkg.dev[name]) &&
        pkg.deps[name] != pkg.dev[name]
  }

  /** For a name neither record holds, add keeps every range package.json held exactly when
      neither field holds an empty one and the two do not hold different ones. */
  lemma TwoFieldsKeepOneRange(d: Disk, name: string, dev: bool, useLink: bool)
    requires name !in Held(d.lock) && name !in Held(d.snapshot)
    ensures (forall range | !IsReference(range) &&
              d.pkg.Holds(name, range) :: IsPresent(AddedDisk(d, name, dev, false, useLink), name, range)) <==>
            !d.pkg.Holds(name, "") && !HoldsTwoRanges(d.pkg, name)
  {
    hide IsPresent, AddedDisk, ReadOriginal;
    OneOfTwoIsRead(d.pkg, name, dev);
    forall range | !IsReference(range) && d.pkg.Holds(name, range)
      ensures IsPresent(AddedDisk(d, name, dev, false, useLink), name, range) <==>
                range != "" && range == ReadOriginal(d.pkg, name, dev)
    {
      AddKeepsWhatItReads(d, name, range, dev, useLink);
    }
    assert !IsReference("");
    if HoldsTwoRanges(d.pkg, name) {
      assert d.pkg.Holds(name, d.pkg.deps[name]) && d.pkg.Holds(name, d.pkg.dev[name]);
    }
  }

  lemma OneOfTwoIsRead(pkg: Manifest, name: string, dev: bool)
    ensures !HoldsTwoRanges(pkg, name) ==>
              forall range :: IsRecordable(range) && pkg.Holds(name, range) ==> range == ReadOriginal(pkg, name, dev)
  {
  }

  /** Rolling back a new package after its reference has been written keeps the range exactly
      when it is not empty and the snapshot holds the name. */
  lemma RollingBackAWrittenPackage(d: Disk, name: string, range: string, dev: bool, useLink: bool)
    requires !IsReference(range) && IsKept(d, name, range) && name !in Held(d.lock)
    ensures var added := AddedDisk(d, name, dev, false, useLink);
              var back := added.(lock := Some(Held(added.lock) - {name}));
            && (IsKept(added, name, range) <==> range != "")
            && (IsPresent(back, name, range) <==> range != "" && name in Held(d.snapshot))
            && (IsKept(back, name, range) <==> range != "" && name in Held(d.snapshot))
  {
    LockedKeeps(d, name, name, range, dev, false);
    ReferencingKeeps(d.(lock := AddedDisk(d, name, dev, false, useLink).lock), name, range, dev, useLink);
  }

  /** A batch that names a package once loses its range exactly when the range is empty and
      the name's write lands, whatever else fails. */
  lemma NamedOnceIsKept(d: Disk, packages: seq<string>, pure: bool, fails: Faults, at: BatchFaults, name: string,
                        range: string)
    requires forall i, j :: 0 <= i < j < |packages| && packages[i] == packages[j] ==> packages[i] != name
    ensures Loses(d, packages, pure, fails, at, name, range) <==>
              range == "" && !pure && !fails(SavingLock, "") &&
                  Meets(packages, KeptOf(packages, pure, at, |packages|), at, name, false)
  {
    hide KeptOf;
  }

  /** A batch that names a package twice, both times linked and read, with everything else
      going well: an empty range survives if and only if both writes fail, any other if and only
      if the lock or the snapshot already held the name, or both writes fail, or neither does. */
  lemma NamedTwice(d: Disk, name: string, range: string, fails: Faults, at: BatchFaults)
    requires !fails(SavingLock, "") && !fails(SavingLockAgain, "")
    requires forall i: nat :: i < 2 ==> !at(Linking, i) && !at(ReadingPackage, i)
    ensures !Loses(d, [name, name], false, fails, at, name, range) <==>
              if range == "" then at(WritingPackage, 0) && at(WritingPackage, 1)
              else IsRecorded(d, name) || at(WritingPackage, 0) == at(WritingPackage, 1)
  {
    hide Meets;
    var packages, kept := [name, name], [0, 1];
    assert KeptOf(packages, false, at, 1) == [0];
    assert KeptOf(packages, false, at, 2) == [0] + [1] == kept;
    BothMeet(name, at, false);
    BothMeet(name, at, true);
  }

  lemma BothMeet(name: string, at: BatchFaults, failing: bool)
    ensures Meets([name, name], [0, 1], at, name, failing) <==>
              at(WritingPackage, 0) == failing || at(WritingPackage, 1) == failing
  {
    var packages, kept := [name, name], [0, 1];
    assert packages[kept[0]] == name && packages[kept[1]] == name && kept[0] == 0 && kept[1] == 1;
  }

  // ---------------------------------------------------------------- undoing an add

  /** Removing a package just added puts all three files back exactly when the lock did not
      have it and was no empty file, the field add does not write did not name it, and the one
      add writes held a recordable range for it, if anything. */
  lemma RemoveUndoesAdd(d: Disk, package: string, dev: bool, useLink: bool)
    ensures var (target, other) := if InDevField(d.pkg, package, dev) then (d.pkg.dev, d.pkg.deps)
                                   else (d.pkg.deps, d.pkg.dev);
            RemovedDisk(AddedDisk(d, package, dev, false, useLink), package) == d <==>
            && package !in Held(d.lock) && d.lock != Some(map[])
            && package !in other && (package in target ==> IsRecordable(target[package]))
  {
    var added := AddedDisk(d, package, dev, false, useLink);
    var removed := RemovedDisk(added, package);
    assert package !in Held(removed.lock) && removed.lock != Some(map[]);
    if package !in Held(d.lock) && d.lock != Some(map[]) {
      assert Held(added.lock) - {package} == Held(d.lock);
      assert removed == d <==> removed.pkg.deps == d.pkg.deps && removed.pkg.dev == d.pkg.dev;
    }
  }
}
