/** add, remove, retreat and restore as they write a project's three files, one atomic write
    at a time. Any step may fail, and the history of states is what a crash may leave. */
module SpecifierRun {
  import opened Wrappers
  import opened Specifier

  datatype Step = Linking | ReadingPackage | WritingPackage | SavingLock | SavingLockAgain | RemovingLock
                | ReadingSnapshot | SavingSnapshot | RemovingSnapshot | LookingUp | Recording

  /** Whether a step fails for a name, "" where the step concerns none. */
  type Faults = (Step, string) -> bool

  /** Whether a step fails for the package at a place in a list. */
  type BatchFaults = (Step, nat) -> bool

  predicate AllKept(states: seq<Disk>, name: string, range: string) {
    forall d :: d in states ==> IsKept(d, name, range)
  }

  /** What adding a package makes of the three files when every write succeeds. */
  function AddedDisk(d: Disk, package: string, dev: bool, pure: bool, useLink: bool): Disk {
    var entry := AddedEntry(Held(d.lock), package, if pure then "" else ReadOriginal(d.pkg, package, dev));
    Disk(if pure then d.pkg else WithReference(d.pkg, package, dev, useLink), Some(Held(d.lock)[package := entry]),
        d.snapshot)
  }

  /** What removing a package makes of them: an empty lock file is deleted. */
  function RemovedDisk(d: Disk, package: string): Disk
    requires package in Held(d.lock)
  {
    var lock := Held(d.lock) - {package};
    Disk(Unlinked(d.pkg, package, Held(d.lock)[package].original), if lock == map[] then None
        else Some(lock), d.snapshot)
  }

  /** What moving the lock aside as the snapshot makes of them. */
  function StashedDisk(d: Disk): Disk {
    if d.lock.None? then d else Disk(d.pkg, None, Some(Merged(Held(d.snapshot), d.lock.value)))
  }

  /** The records once a stash is through with them, whatever fails on the way. */
  predicate IsStashed(before: Disk, d: Disk, fails: Faults) {
    if before.lock.None? || fails(ReadingSnapshot, "") || fails(SavingSnapshot, "") then
      d.lock == before.lock && d.snapshot == before.snapshot
    else
      && d.snapshot == Some(Merged(Held(before.snapshot), before.lock.value))
      && d.lock == if before.snapshot.Some? && fails(RemovingLock, "") then before.lock else None
  }

  // ---------------------------------------------------------------- steps for any name

  lemma LockedKeeps(d: Disk, package: string, name: string, range: string, dev: bool, pure: bool)
    requires !IsReference(range) && IsKept(d, name, range)
    requires range != "" && pure && package == name ==> IsRecorded(d, name)
    ensures var entry := AddedEntry(Held(d.lock), package, if pure then "" else ReadOriginal(d.pkg, package, dev));
            IsKept(d.(lock := Some(Held(d.lock)[package := entry])), name, range)
  {
    if package != name {
      OtherNameKeeps(d, name, range, package, dev, false, "",
                     AddedEntry(Held(d.lock), package, if pure then "" else ReadOriginal(d.pkg, package, dev)));
    } else if !pure {
      LockingKeeps(d, name, range, dev);
    }
  }

  lemma ReferencedKeeps(d: Disk, package: string, name: string, range: string, dev: bool, useLink: bool)
    requires !IsReference(range) && IsKept(d, name, range)
    requires package == name ==> range != "" && IsRecorded(d, name)
    ensures IsKept(d.(pkg := WithReference(d.pkg, package, dev, useLink)), name, range)
  {
    if package != name {
      OtherNameKeeps(d, name, range, package, dev, useLink, "", Entry(""));
    } else {
      ReferencingKeeps(d, name, range, dev, useLink);
    }
  }

  /** package.json after a name is pointed at the linked copy: the text stands in the field asked
      for, or in the one the name had, or in dependencies, and the name in no other. */
  predicate Refers(before: Manifest, pkg: Manifest, name: string, dev: bool, text: string) {
    if dev || (name in before.dev && name !in before.deps) then
      pkg.dev == before.dev[name := text] && pkg.deps == before.deps - {name}
    else pkg.deps == before.deps[name := text] && pkg.dev == before.dev - {name}
  }

  lemma ReferenceRefers(pkg: Manifest, name: string, dev: bool, useLink: bool)
    ensures Refers(pkg, WithReference(pkg, name, dev, useLink), name, dev,
              (if useLink then "link:.lnpm/" else "file:.lnpm/") + name)
  {
  }

  /** Of a name that a record holds, the write loses the empty range and no other. */
  lemma Referenced(d: Disk, package: string, name: string, range: string, dev: bool, useLink: bool)
    requires !IsReference(range) && IsKept(d, name, range)
    requires package == name ==> IsRecorded(d, name)
    ensures var after := d.(pkg := WithReference(d.pkg, package, dev, useLink));
            var loses := package == name && range == "";
            && (IsPresent(after, name, range) <==> !loses) && (!loses ==> IsKept(after, name, range))
  {
    if package == name {
      ReferencingKeeps(d, name, range, dev, useLink);
    } else {
      ReferencedKeeps(d, package, name, range, dev, useLink);
      KeptIsPresent(d.(pkg := WithReference(d.pkg, package, dev, useLink)), name, range);
    }
  }

  lemma UnlinkedKeeps(d: Disk, package: string, name: string, range: string)
    requires !IsReference(range) && IsKept(d, name, range) && package in Held(d.lock)
    requires package == name ==> range != ""
    ensures var after := d.(pkg := Unlinked(d.pkg, package, Held(d.lock)[package].original));
            IsKept(after, name, range) && IsKept(after.(lock := Some(Held(d.lock) - {package})), name, range)
  {
    var after := d.(pkg := Unlinked(d.pkg, package, Held(d.lock)[package].original));
    if package != name {
      OtherNameKeeps(d, name, range, package, false, false, Held(d.lock)[package].original, Entry(""));
      OtherNameKeeps(after, name, range, package, false, false, "", Entry(""));
    } else {
      UnlinkingKeeps(d, name, range);
    }
  }

  /** A name a remove deals with: asked for, unlinked and put right in package.json. */
  predicate IsDealtWith(package: string, all: bool, fails: Faults, name: string) {
    (all || package == name) && !fails(Linking, name) && !fails(WritingPackage, name)
  }

  /** Of a remove under way: the lock to be saved lacks exactly the names dealt with so far. */
  ghost predicate IsLeft(before: Lock, lock: Lock, left: set<string>, package: string, all: bool, fails: Faults) {
    && (forall p :: p in lock ==> p in before && lock[p] == before[p])
    && (forall p :: p in before ==> (p !in lock <==> IsDealtWith(package, all, fails, p) && p !in left))
  }

  lemma LeftNext(before: Lock, lock: Lock, left: set<string>, package: string, all: bool, fails: Faults, p: string)
    requires IsLeft(before, lock, left, package, all, fails) && p in left && left <= lock.Keys
    requires all || left <= {package}
    ensures p in lock && (all || p == package)
    ensures if fails(Linking, p) || fails(WritingPackage, p) then
              IsLeft(before, lock, left - {p}, package, all, fails)
            else IsLeft(before, lock - {p}, left - {p}, package, all, fails)
    ensures left - {p} <= (lock - {p}).Keys
  {
  }

  /** package.json says of a name what unlinking it makes of what it said, once it is dealt with,
      and until then what it said. */
  predicate IsPartly(before: Disk, pkg: Manifest, lock: Lock, name: string) {
    if name in Held(before.lock) && name !in lock then
      Agree(pkg, Unlinked(before.pkg, name, Held(before.lock)[name].original), name)
    else Agree(pkg, before.pkg, name)
  }

  lemma PartlyBegins(d: Disk, name: string)
    ensures IsPartly(d, d.pkg, Held(d.lock), name)
  {
  }

  lemma PartlyNext(before: Disk, pkg: Manifest, lock: Lock, p: string, name: string)
    requires IsPartly(before, pkg, lock, name) && p in lock
    requires forall q :: q in lock ==> q in Held(before.lock) && lock[q] == Held(before.lock)[q]
    ensures IsPartly(before, Unlinked(pkg, p, lock[p].original), lock - {p}, name)
  {
  }

  lemma PartlyEnds(before: Disk, pkg: Manifest, lock: Lock, package: string, all: bool, fails: Faults, name: string)
    requires IsPartly(before, pkg, lock, name) && IsLeft(Held(before.lock), lock, {}, package, all, fails)
    ensures name in Held(before.lock) && IsDealtWith(package, all, fails, name) ==>
              Agree(pkg, Unlinked(before.pkg, name, Held(before.lock)[name].original), name)
    ensures name !in Held(before.lock) || !IsDealtWith(package, all, fails, name) ==> Agree(pkg, before.pkg, name)
  {
    hide Agree, Unlinked;
  }

  /** Of a remove under way, with the lock it is to save: an empty range whose name was dealt with. */
  predicate IsLost(before: Disk, lock: Lock, name: string, range: string) {
    range == "" && name in Held(before.lock) && name !in lock
  }

  /** What it keeps of the range, on disk and were the lock saved. */
  predicate IsUndoing(before: Disk, d: Disk, lock: Lock, name: string, range: string) {
    if IsLost(before, lock, name, range) then !d.pkg.Holds(name, "")
    else IsKept(d, name, range) && IsKept(d.(lock := Some(lock)), name, range)
  }

  lemma UndoingBegins(d: Disk, name: string, range: string)
    requires IsKept(d, name, range)
    ensures IsUndoing(d, d, Held(d.lock), name, range)
  {
  }

  lemma UndoingNext(before: Disk, d: Disk, lock: Lock, p: string, name: string, range: string)
    requires !IsReference(range) && IsKept(before, name, range) && IsUndoing(before, d, lock, name, range)
    requires d.lock == before.lock && p in lock
    requires forall q :: q in lock ==> q in Held(before.lock) && lock[q] == Held(before.lock)[q]
    ensures var after := d.(pkg := Unlinked(d.pkg, p, lock[p].original));
            && IsUndoing(before, after, lock - {p}, name, range)
            && (!IsLost(before, lock - {p}, name, range) ==> IsKept(after, name, range))
  {
    hide IsKept, Unlinked;
    if range == "" { RecordsNothing(before, name); }
    if IsLost(before, lock - {p}, name, range) {
      UnlinkedIsGone(d, p, lock[p].original, name);
    } else {
      UnlinkedKeeps(d, p, name, range);
      UnlinkedKeeps(d.(lock := Some(lock)), p, name, range);
    }
  }

  lemma UndoingEnds(before: Disk, d: Disk, lock: Lock, name: string, range: string)
    requires IsUndoing(before, d, lock, name, range)
    ensures if IsLost(before, lock, name, range) then !d.pkg.Holds(name, "")
            else IsKept(d, name, range) && IsKept(d.(lock := Some(lock)), name, range)
  {
  }

  /** Two manifests say the same of a name. */
  predicate Agree(a: Manifest, b: Manifest, name: string) {
    && (name in a.deps <==> name in b.deps) && (name in a.deps ==> a.deps[name] == b.deps[name])
    && (name in a.dev <==> name in b.dev) && (name in a.dev ==> a.dev[name] == b.dev[name])
  }

  /** package.json names a package only by references. */
  predicate IsOverwritten(pkg: Manifest, name: string) {
    && pkg.Has(name) && (name in pkg.deps ==> IsReference(pkg.deps[name])) &&
        (name in pkg.dev ==> IsReference(pkg.dev[name]))
  }

  // ---------------------------------------------------------------- a list of packages

  predicate AreIndices(packages: seq<string>, kept: seq<nat>) {
    forall i :: 0 <= i < |kept| ==> kept[i] < |packages|
  }

  predicate AnyLinked(packages: seq<string>, at: BatchFaults) {
    exists i :: 0 <= i < |packages| && !at(Linking, i)
  }

  /** Every package of a list can be linked, and read and written too if that is asked for. */
  predicate NoneFails(packages: seq<string>, pure: bool, at: BatchFaults) {
    forall i :: 0 <= i < |packages| ==>
      !at(Linking, i) && (pure || (!at(ReadingPackage, i) && !at(WritingPackage, i)))
  }

  /** Of the first n packages, the places of those that could be linked and read. */
  function KeptOf(packages: seq<string>, pure: bool, at: BatchFaults, n: nat): (kept: seq<nat>)
    requires n <= |packages|
    ensures |kept| <= n && forall i :: 0 <= i < |kept| ==> kept[i] < n
  {
    if n == 0 then []
    else KeptOf(packages, pure, at, n - 1) + if !at(Linking, n - 1) &&
        (pure || !at(ReadingPackage, n - 1)) then [n - 1] else []
  }

  function Named(packages: seq<string>, kept: seq<nat>): seq<string>
    requires AreIndices(packages, kept)
  {
    seq(|kept|, i requires 0 <= i < |kept| => packages[kept[i]])
  }

  /** The lock with an entry for each package kept, its range read from package.json as it was. */
  function BatchLocked(d: Disk, packages: seq<string>, kept: seq<nat>, dev: bool, pure: bool): Lock
    requires AreIndices(packages, kept)
  {
    if kept == [] then Held(d.lock)
    else
      var n := |kept| - 1;
      var p := packages[kept[n]];
      BatchLocked(d, packages, kept[..n], dev,
          pure)[p := AddedEntry(Held(d.lock), p, if pure then "" else ReadOriginal(d.pkg, p, dev))]
  }

  /** Some package.json write of a name fails, or some lands. */
  predicate Meets(packages: seq<string>, kept: seq<nat>, at: BatchFaults, name: string, failing: bool)
    requires AreIndices(packages, kept)
  {
    exists i :: 0 <= i < |kept| && packages[kept[i]] == name && at(WritingPackage, kept[i]) == failing
  }

  /** What makes a batch lose the range of a name: the lock is saved, one of the name's
      package.json writes lands, and then either the range is empty, or neither record holds
      the name, another of its writes fails, and the lock is saved again. */
  predicate Loses(d: Disk, packages: seq<string>, pure: bool, fails: Faults, at: BatchFaults, name: string,
                  range: string) {
    var kept := KeptOf(packages, pure, at, |packages|);
    && !pure && !fails(SavingLock, "") && Meets(packages, kept, at, name, false)
    && (range == "" ||
        (!IsRecorded(d, name) && !fails(SavingLockAgain, "") && Meets(packages, kept, at, name, true)))
  }

  lemma {:induction false} AllAreKept(packages: seq<string>, pure: bool, at: BatchFaults, n: nat)
    requires n <= |packages| && |KeptOf(packages, pure, at, n)| == n
    ensures forall i :: 0 <= i < n ==> KeptOf(packages, pure, at, n)[i] == i
  {
    if n > 0 { AllAreKept(packages, pure, at, n - 1); }
  }

  lemma {:induction false} AllKeptWhen(packages: seq<string>, pure: bool, at: BatchFaults, n: nat)
    requires n <= |packages|
    ensures |KeptOf(packages, pure, at, n)| == n <==>
              forall i :: 0 <= i < n ==> !at(Linking, i) && (pure || !at(ReadingPackage, i))
  {
    if n > 0 { AllKeptWhen(packages, pure, at, n - 1); }
  }

  /** A batch whose places are all kept goes through exactly when no write fails. */
  lemma BatchGoesThrough(packages: seq<string>, pure: bool, at: BatchFaults, kept: seq<nat>)
    requires kept == KeptOf(packages, pure, at, |packages|)
    ensures NoneFails(packages, pure, at) <==>
              |kept| == |packages| && (pure || forall i :: 0 <= i < |kept| ==> !at(WritingPackage, kept[i]))
    ensures AnyLinked(packages, at) ==> packages != []
    ensures NoneFails(packages, pure, at) && packages != [] ==> AnyLinked(packages, at)
  {
    AllKeptWhen(packages, pure, at, |packages|);
    if |kept| == |packages| {
      AllAreKept(packages, pure, at, |packages|);
      if !pure && forall i :: 0 <= i < |kept| ==> !at(WritingPackage, kept[i]) {
        forall i | 0 <= i < |packages| ensures !at(WritingPackage, i) { assert kept[i] == i; }
      }
    }
    if NoneFails(packages, pure, at) && packages != [] { assert !at(Linking, 0); }
  }

  lemma AllAreNamed(packages: seq<string>, kept: seq<nat>)
    requires |kept| == |packages| && forall i :: 0 <= i < |kept| ==> kept[i] == i
    ensures Named(packages, kept) == packages
  {
  }

  lemma NamedNext(packages: seq<string>, kept: seq<nat>, n: nat)
    requires AreIndices(packages, kept) && n <= |kept|
    ensures Named(packages, []) == []
    ensures n + 1 == |kept| ==> Named(packages, kept) == Named(packages, kept[..n]) + [packages[kept[n]]]
    ensures forall i :: 0 <= i < |kept| ==> packages[kept[i]] in Named(packages, kept)
  {
    forall i | 0 <= i < |kept| ensures packages[kept[i]] in Named(packages, kept) {
      assert Named(packages, kept)[i] == packages[kept[i]];
    }
  }

  lemma {:induction false} LockedHolds(d: Disk, packages: seq<string>, kept: seq<nat>, dev: bool, pure: bool)
    requires AreIndices(packages, kept)
    ensures var lock := BatchLocked(d, packages, kept, dev, pure);
            && (forall i :: 0 <= i < |kept| ==> packages[kept[i]] in Named(packages, kept))
            && (forall p :: p in Named(packages, kept) ==> p in lock)
            && (forall p | p in lock && p in Named(packages, kept) ::
                  lock[p] == AddedEntry(Held(d.lock), p, if pure then "" else ReadOriginal(d.pkg, p, dev)))
            && (forall p :: p in lock ==> p in Held(d.lock) || p in Named(packages, kept))
            && (forall p :: p in Held(d.lock) ==> p in lock)
            && (forall p :: p in Held(d.lock) && p !in Named(packages, kept) ==> lock[p] == Held(d.lock)[p])
  {
    hide AddedEntry, ReadOriginal, Named;
    if kept == [] {
      NamedNext(packages, [], 0);
    } else {
      var n := |kept| - 1;
      NamedNext(packages, kept, n);
      LockedHolds(d, packages, kept[..n], dev, pure);
    }
  }

  lemma BatchLockedNone(d: Disk, packages: seq<string>, dev: bool, pure: bool)
    ensures BatchLocked(d, packages, [], dev, pure) == Held(d.lock)
  {
  }

  lemma BatchLockedNext(d: Disk, packages: seq<string>, kept: seq<nat>, i: nat, dev: bool, pure: bool)
    requires AreIndices(packages, kept) && i < |packages|
    ensures AreIndices(packages, kept + [i])
    ensures BatchLocked(d, packages, kept + [i], dev, pure)
         == BatchLocked(d, packages, kept, dev, pure)[packages[i] := AddedEntry(Held(d.lock), packages[i],
             if pure then "" else ReadOriginal(d.pkg, packages[i], dev))]
  {
    hide AddedEntry, ReadOriginal;
    assert (kept + [i])[..|kept|] == kept;
  }

  /** Recording a package again records the same. */
  lemma LockedAgain(d: Disk, packages: seq<string>, kept: seq<nat>, p: string, dev: bool, pure: bool)
    requires AreIndices(packages, kept)
    ensures var read := if pure then "" else ReadOriginal(d.pkg, p, dev);
            AddedEntry(BatchLocked(d, packages, kept, dev, pure), p, read) == AddedEntry(Held(d.lock), p, read)
    ensures forall q :: q in Held(d.lock) ==> q in BatchLocked(d, packages, kept, dev, pure)
  {
    hide ReadOriginal, BatchLocked, Named;
    LockedHolds(d, packages, kept, dev, pure);
  }

  lemma {:induction false} NothingKept(packages: seq<string>, pure: bool, at: BatchFaults, n: nat)
    requires n <= |packages| && !AnyLinked(packages, at)
    ensures KeptOf(packages, pure, at, n) == []
  {
    if n > 0 { NothingKept(packages, pure, at, n - 1); }
  }

  lemma OverwrittenIsGone(pkg: Manifest, name: string)
    ensures IsOverwritten(pkg, name) ==> !pkg.Holds(name, "")
  {
  }

  /** Only package.json can hold the empty range. */
  lemma EmptyIsGone(d: Disk, name: string)
    ensures d.pkg.Holds(name, "") <==> IsPresent(d, name, "")
  {
  }

  /** What unlinking leaves of an empty range: nothing of the name's own, and of another
      name's what there was. */
  lemma UnlinkedIsGone(d: Disk, package: string, original: string, name: string)
    requires if package == name then original == "" else !d.pkg.Holds(name, "")
    ensures !Unlinked(d.pkg, package, original).Holds(name, "")
  {
  }

  lemma RecordsNothing(d: Disk, name: string)
    requires IsKept(d, name, "")
    ensures name in Held(d.lock) ==> Held(d.lock)[name].original == ""
    ensures name in Held(d.snapshot) ==> Held(d.snapshot)[name].original == ""
  {
  }

  lemma NothingMet(packages: seq<string>, at: BatchFaults, name: string)
    ensures forall failing :: !Meets(packages, [], at, name, failing)
  {
  }

  lemma MeetsNext(packages: seq<string>, kept: seq<nat>, i: nat, at: BatchFaults, name: string)
    requires AreIndices(packages, kept) && i < |kept|
    ensures forall failing :: Meets(packages, kept[..i + 1], at, name, failing) <==>
              Meets(packages, kept[..i], at, name, failing) ||
                  (packages[kept[i]] == name && at(WritingPackage, kept[i]) == failing)
  {
    var next, prior := kept[..i + 1], kept[..i];
    assert next[i] == kept[i] && forall j :: 0 <= j < i ==> next[j] == prior[j];
    forall failing
      ensures Meets(packages, next, at, name, failing) <==>
                Meets(packages, prior, at, name, failing) ||
                    (packages[kept[i]] == name && at(WritingPackage, kept[i]) == failing)
    {
      if j :| 0 <= j < |prior| && packages[prior[j]] == name && at(WritingPackage, prior[j]) == failing {
        assert packages[next[j]] == name;
      }
      if j :| 0 <= j < |next| && packages[next[j]] == name && at(WritingPackage, next[j]) == failing {
        if j < i { assert packages[prior[j]] == name; }
      }
      if packages[kept[i]] == name { assert packages[next[i]] == name; }
    }
  }

  lemma Overwrites(pkg: Manifest, name: string, dev: bool, useLink: bool)
    ensures IsOverwritten(WithReference(pkg, name, dev, useLink), name)
  {
  }

  lemma LeavesAlone(pkg: Manifest, before: Manifest, name: string, other: string, dev: bool, useLink: bool)
    requires other != name
    ensures IsOverwritten(pkg, name) ==> IsOverwritten(WithReference(pkg, other, dev, useLink), name)
    ensures Agree(pkg, before, name) ==> Agree(WithReference(pkg, other, dev, useLink), before, name)
  {
  }

  /** Two states' locks hold the same of a name. */
  predicate SameEntry(before: Disk, d: Disk, name: string) {
    && (name in Held(d.lock) <==> name in Held(before.lock))
    && (name in Held(d.lock) ==> Held(d.lock)[name] == Held(before.lock)[name])
  }

  lemma NeverMet(packages: seq<string>, kept: seq<nat>, at: BatchFaults, name: string)
    requires AreIndices(packages, kept)
    ensures name !in packages ==>
              !Meets(packages, kept, at, name, false) && !Meets(packages, kept, at, name, true)
              && name !in Named(packages, kept)
  {
  }

  /** Saving the lock without the packages that failed: the range stays unless package.json was
      overwritten and either it is empty, or the name is one of them and the snapshot lacks it. */
  lemma SavingWithout(before: Disk, d: Disk, lock: Lock, dropped: set<string>, overwritten: bool, name: string,
                      range: string)
    requires !IsReference(range) && IsKept(before, name, range)
    requires IsKept(d, name, range) || (range == "" && overwritten)
    requires d.lock == Some(lock) && d.snapshot == before.snapshot && (name in dropped ==> name !in Held(before.lock))
    requires if overwritten then IsOverwritten(d.pkg, name) else Agree(d.pkg, before.pkg, name)
    ensures var after := d.(lock := Some(lock - dropped)); var loses := overwritten &&
              (range == "" || (name in dropped && name !in Held(d.snapshot)));
            && (IsPresent(after, name, range) <==> !loses)
            && (!loses ==> IsKept(after, name, range))
  {
  }

  /** The references add writes for several packages, one after the other. */
  function ReferencedAll(pkg: Manifest, packages: seq<string>, dev: bool, useLink: bool): Manifest {
    if packages == [] then pkg
    else
      var n := |packages| - 1;
      WithReference(ReferencedAll(pkg, packages[..n], dev, useLink), packages[n], dev, useLink)
  }

  class Project {
    var disk: Disk
    var history: seq<Disk>

    constructor (disk: Disk)
      ensures this.disk == disk && history == []
    {
      this.disk, history := disk, [];
    }

    /** One atomic write. */
    method Write(d: Disk, ghost start: nat, ghost name: string, ghost range: string)
      requires start <= |history|
      modifies this
      ensures disk == d && history == old(history) + [d]
      ensures AllKept(old(history)[start..], name, range) && IsKept(d, name, range) ==>
                AllKept(history[start..], name, range)
    {
      disk, history := d, history + [d];
      assert history[start..] == old(history)[start..] + [d];
    }

    /** The process is killed: what was written so far is what the disk holds. */
    method Crash(left: Disk, writes: nat)
      requires writes <= |history|
      modifies this
      ensures disk == left && history == old(history)[..writes]
    {
      disk, history := left, history[..writes];
    }

    /** Adds one package: the range goes into the lock before package.json is rewritten. An
        empty range is kept exactly when the add does not rewrite it. `name` and `range` are
        any tracked package of the project and the user's range for it. */
    method Add(package: string, dev: bool, pure: bool, useLink: bool, fails: Faults, ghost name: string,
               ghost range: string)
      returns (added: bool)
      requires !IsReference(range) && IsKept(disk, name, range)
      requires range != "" && pure && package == name ==> IsRecorded(disk, name)
      modifies this
      ensures old(history) <= history
      ensures var loses := range == "" && package == name && !pure && added;
              && (IsPresent(disk, name, range) <==> !loses)
              && (!loses ==> AllKept(history[|old(history)|..], name, range) && IsKept(disk, name, range))
      ensures added ==> disk == AddedDisk(old(disk), package, dev, pure, useLink)
      ensures added && !pure ==>
                Refers(old(disk).pkg, disk.pkg, package, dev,
                  (if useLink then "link:.lnpm/" else "file:.lnpm/") + package)
      ensures added && pure ==> disk.pkg == old(disk).pkg
      ensures !added ==>
                disk == if fails(Linking, package) || fails(SavingLock, "") || (!pure && fails(ReadingPackage, package))
                        then old(disk)
                        else old(disk).(lock := AddedDisk(old(disk), package, dev, pure, useLink).lock)
      ensures added <==> !(fails(Linking, package) || fails(SavingLock, "")
                           || (!pure && (fails(ReadingPackage, package) || fails(WritingPackage, package))))
    {
      hide IsKept, IsPresent, ReadOriginal, WithReference, Refers;
      ghost var start := |history|;
      KeptIsPresent(disk, name, range);
      if fails(Linking, package) || (!pure && fails(ReadingPackage, package)) {
        return false;
      }
      var read := if pure then "" else ReadOriginal(disk.pkg, package, dev);
      var entry := AddedEntry(Held(disk.lock), package, read);
      if fails(SavingLock, "") {
        return false;
      }
      LockedKeeps(disk, package, name, range, dev, pure);
      Write(disk.(lock := Some(Held(disk.lock)[package := entry])), start, name, range);
      KeptIsPresent(disk, name, range);
      if !pure {
        if fails(WritingPackage, package) {
          return false;
        }
        Referenced(disk, package, name, range, dev, useLink);
        ReferenceRefers(disk.pkg, package, dev, useLink);
        Write(disk.(pkg := WithReference(disk.pkg, package, dev, useLink)), start, name, range);
      }
      added := true;
    }

    /** The lock that adding several packages saves: every range is read before any is
        overwritten, and a package that cannot be linked or read is left out. `linked` says
        whether any could be linked. */
    method BatchLock(packages: seq<string>, dev: bool, pure: bool, at: BatchFaults, ghost name: string,
                     ghost range: string)
      returns (lock: Lock, kept: seq<nat>, linked: bool)
      requires !IsReference(range) && IsKept(disk, name, range)
      requires range != "" && pure && name in packages ==> IsRecorded(disk, name)
      ensures linked <==> AnyLinked(packages, at)
      ensures kept == KeptOf(packages, pure, at, |packages|)
      ensures lock == BatchLocked(disk, packages, kept, dev, pure)
      ensures IsKept(disk.(lock := Some(lock)), name, range)
    {
      hide IsKept, ReadOriginal, AddedEntry, BatchLocked;
      lock, kept, linked := Held(disk.lock), [], false;
      BatchLockedNone(disk, packages, dev, pure);
      OneLock(disk, name, range);
      for i := 0 to |packages|
        invariant linked <==> exists j :: 0 <= j < i && !at(Linking, j)
        invariant kept == KeptOf(packages, pure, at, i)
        invariant lock == BatchLocked(disk, packages, kept, dev, pure)
        invariant IsKept(disk.(lock := Some(lock)), name, range)
      {
        var p := packages[i];
        assert p in packages;
        linked := linked || !at(Linking, i);
        if !at(Linking, i) && (pure || !at(ReadingPackage, i)) {
          var entry := AddedEntry(Held(disk.lock), p, if pure then "" else ReadOriginal(disk.pkg, p, dev));
          LockedAgain(disk, packages, kept, p, dev, pure);
          LockedKeeps(disk.(lock := Some(lock)), p, name, range, dev, pure);
          BatchLockedNext(disk, packages, kept, i, dev, pure);
          lock, kept := lock[p := entry], kept + [i];
        }
      }
    }

    /** Points package.json at each package in turn; `dropped` are the new ones that failed. */
    method WriteReferences(packages: seq<string>, kept: seq<nat>, lock: Lock, prior: Lock, dev: bool, useLink: bool,
                           at: BatchFaults,
                           ghost start: nat, ghost before: Disk, ghost name: string, ghost range: string)
      returns (dropped: set<string>, ok: bool)
      requires !IsReference(range) && IsKept(before, name, range)
      requires prior == Held(before.lock) && AreIndices(packages, kept)
      requires start <= |history| && AllKept(history[start..], name, range)
      requires disk == before.(lock := Some(lock)) && IsKept(disk, name, range)
      requires forall i :: 0 <= i < |kept| ==> packages[kept[i]] in lock
      modifies this
      ensures old(history) <= history
      ensures range != "" || !Meets(packages, kept, at, name, false) ==>
                AllKept(history[start..], name, range) && IsKept(disk, name, range)
      ensures disk.lock == Some(lock) && disk.snapshot == before.snapshot
      ensures name in dropped <==> name !in Held(before.lock) && Meets(packages, kept, at, name, true)
      ensures if Meets(packages, kept, at, name, false) then IsOverwritten(disk.pkg, name)
                else Agree(disk.pkg, before.pkg, name)
      ensures ok ==> dropped == {} && disk.pkg == ReferencedAll(before.pkg, Named(packages, kept), dev, useLink)
      ensures ok <==> forall i :: 0 <= i < |kept| ==> !at(WritingPackage, kept[i])
    {
      hide IsKept, ReadOriginal, WithReference, Agree, ReferencedAll, IsOverwritten, Meets;
      dropped, ok := {}, true;
      NothingMet(packages, at, name);
      NothingReferenced(before.pkg, name, dev, useLink);
      assert kept[..0] == [] && Named(packages, kept[..0]) == [];
      for i := 0 to |kept|
        invariant old(history) <= history
        invariant range != "" || !Meets(packages, kept[..i], at, name, false) ==>
                    AllKept(history[start..], name, range) && IsKept(disk, name, range)
        invariant disk.lock == Some(lock) && disk.snapshot == before.snapshot
        invariant name in dropped <==> name !in Held(before.lock) && Meets(packages, kept[..i], at, name, true)
        invariant if Meets(packages, kept[..i], at, name, false) then IsOverwritten(disk.pkg, name)
                  else Agree(disk.pkg, before.pkg, name)
        invariant ok <==> forall j :: 0 <= j < i ==> !at(WritingPackage, kept[j])
        invariant ok ==>
                  dropped == {} && disk.pkg == ReferencedAll(before.pkg, Named(packages, kept[..i]), dev, useLink)
      {
        var p := packages[kept[i]];
        MeetsNext(packages, kept, i, at, name);
        if at(WritingPackage, kept[i]) {
          ok := false;
          if p !in prior {
            dropped := dropped + {p};
          }
        } else {
          if range != "" || !Meets(packages, kept[..i + 1], at, name, false) {
            ReferencedKeeps(disk, p, name, range, dev, useLink);
          }
          ReferencedNext(before.pkg, packages, kept, i, dev, useLink);
          if p == name { Overwrites(disk.pkg, name, dev, useLink); }
              else { LeavesAlone(disk.pkg, before.pkg, name, p, dev, useLink); }
          Write(disk.(pkg := WithReference(disk.pkg, p, dev, useLink)), start, name, range);
        }
      }
      assert kept[..|kept|] == kept;
    }

    /** Adds several packages: one lock save for all of them, then each package.json write; a
        package whose write fails is rolled back if it is new. The range of a name is lost
        exactly when one of its writes lands and it is empty, or the name is new and another
        of its writes is rolled back. The lock is saved whenever a package could be linked. */
    method AddBatch(packages: seq<string>, dev: bool, pure: bool, useLink: bool, fails: Faults, at: BatchFaults,
                    ghost name: string, ghost range: string)
      returns (added: bool)
      requires !IsReference(range) && IsKept(disk, name, range)
      requires range != "" && pure && name in packages ==> IsRecorded(disk, name)
      modifies this
      ensures old(history) <= history
      ensures if AnyLinked(packages, at) && !fails(SavingLock, "") then disk.lock.Some? && |old(history)| < |history|
              else disk == old(disk) && history == old(history)
      ensures IsPresent(disk, name, range) <==> !Loses(old(disk), packages, pure, fails, at, name, range)
      ensures !Loses(old(disk), packages, pure, fails, at, name, range) ==>
                AllKept(history[|old(history)|..], name, range) && IsKept(disk, name, range)
      ensures added <==> packages != [] && !fails(SavingLock, "") && NoneFails(packages, pure, at)
      ensures added && !pure ==> disk.pkg == ReferencedAll(old(disk).pkg, packages, dev, useLink)
      ensures disk.snapshot == old(disk).snapshot
              && (name !in packages ==> Agree(disk.pkg, old(disk).pkg, name) && SameEntry(old(disk), disk, name))
      ensures added ==> forall p :: p in packages ==>
                p in Held(disk.lock) && Held(disk.lock)[p] ==
                    AddedEntry(Held(old(disk).lock), p, if pure then "" else ReadOriginal(old(disk).pkg, p, dev))
    {
      hide IsKept, IsPresent, ReadOriginal, WithReference, AddedEntry, ReferencedAll, Meets, Agree, IsOverwritten,
           BatchLocked, KeptOf, Named, AnyLinked, NoneFails;
      ghost var start, before := |history|, disk;
      AgreesWithItself(disk.pkg, name);
      var prior := Held(disk.lock);
      var lock, kept, linked := BatchLock(packages, dev, pure, at, name, range);
      if |kept| == |packages| {
        AllAreKept(packages, pure, at, |packages|);
        AllAreNamed(packages, kept);
      }
      LockedHolds(before, packages, kept, dev, pure);
      NeverMet(packages, kept, at, name);
      BatchGoesThrough(packages, pure, at, kept);
      KeptIsPresent(disk, name, range);
      if !linked || fails(SavingLock, "") {
        if !linked { NothingKept(packages, pure, at, |packages|); NothingMet(packages, at, name); }
        return false;
      }
      Write(disk.(lock := Some(lock)), start, name, range);
      KeptIsPresent(disk, name, range);
      if pure {
        return |kept| == |packages|;
      }
      var dropped, ok := WriteReferences(packages, kept, lock, prior, dev, useLink, at, start, before, name, range);
      ghost var met := Meets(packages, kept, at, name, false);
      if range != "" || !met {
        KeptIsPresent(disk, name, range);
      } else {
        OverwrittenIsGone(disk.pkg, name);
        EmptyIsGone(disk, name);
      }
      if dropped != {} {
        if fails(SavingLockAgain, "") {
          return false;
        }
        SavingWithout(before, disk, lock, dropped, met, name, range);
        Write(disk.(lock := Some(lock - dropped)), start, name, range);
      }
      added := ok && |kept| == |packages|;
    }

    /** Saves the lock a remove leaves, and deletes the file when nothing is left in it. */
    method SaveLeft(lock: Lock, fails: Faults, ghost start: nat, ghost lost: bool, ghost name: string,
                    ghost range: string)
      returns (saved: bool)
      requires start <= |history|
      requires if lost then range == "" && !disk.pkg.Holds(name, "")
               else AllKept(history[start..], name, range) && IsKept(disk, name, range)
                    && IsKept(disk.(lock := Some(lock)), name, range)
      modifies this
      ensures old(history) <= history && saved == !fails(SavingLock, "")
      ensures disk == old(disk).(lock := if fails(SavingLock, "") then old(disk).lock
                                         else if lock == map[] && !fails(RemovingLock, "") then None else Some(lock))
      ensures IsPresent(disk, name, range) <==> !lost
      ensures !lost ==> AllKept(history[start..], name, range) && IsKept(disk, name, range)
    {
      hide IsKept, IsPresent;
      ghost var undone := disk;
      Settled(undone, disk, lost, name, range);
      if fails(SavingLock, "") {
        return false;
      }
      Write(disk.(lock := Some(lock)), start, name, range);
      Settled(undone, disk, lost, name, range);
      if lock == map[] && !fails(RemovingLock, "") {
        if !lost { NoLock(disk, name, range); }
        Write(disk.(lock := None), start, name, range);
        Settled(undone, disk, lost, name, range);
      }
      saved := true;
    }

    /** Removes one package or all: each name's package.json is put right before the lock
        that records its range is saved without it, and no name is touched but those asked for,
        dealt with unless a step of their own fails. An empty range is lost exactly when its
        name is dealt with. */
    method Remove(package: string, all: bool, fails: Faults, ghost name: string, ghost range: string)
      returns (removed: bool)
      requires !IsReference(range) && IsKept(disk, name, range)
      modifies this
      ensures old(history) <= history
      ensures var loses := range == "" && name in Held(old(disk).lock) && (all || package == name) &&
                !fails(Linking, name) && !fails(WritingPackage, name);
              && (IsPresent(disk, name, range) <==> !loses)
              && (!loses ==> AllKept(history[|old(history)|..], name, range) && IsKept(disk, name, range))
      ensures removed && !all && !fails(RemovingLock, "") ==>
                package in Held(old(disk).lock) && disk == RemovedDisk(old(disk), package)
      ensures var lock := Held(old(disk).lock);
              && (name in lock && IsDealtWith(package, all, fails, name) ==>
                    Agree(disk.pkg, Unlinked(old(disk).pkg, name, lock[name].original), name)
                    && (!fails(SavingLock, "") ==> name !in Held(disk.lock)))
              && (name in lock && (!IsDealtWith(package, all, fails, name) || fails(SavingLock, "")) ==>
                    name in Held(disk.lock) && Held(disk.lock)[name] == lock[name])
              && (name !in lock || !IsDealtWith(package, all, fails, name) ==> Agree(disk.pkg, old(disk).pkg, name))
      ensures removed && name in Held(old(disk).lock) && (all || package == name) ==>
                IsDealtWith(package, all, fails, name) && !fails(SavingLock, "")
      ensures !all ==> (removed <==> package in Held(old(disk).lock) && IsDealtWith(package, all, fails, package)
                                     && !fails(SavingLock, ""))
    {
      hide IsKept, IsPresent, Unlinked, IsUndoing, IsPartly, Agree;
      ghost var start, before := |history|, disk;
      var lock := Held(disk.lock);
      KeptIsPresent(disk, name, range);
      AgreesWithItself(disk.pkg, name);
      if !all && package !in lock {
        return false;
      }
      var left := if all then lock.Keys else {package};
      if left == {} {
        return true;
      }
      UndoingBegins(disk, name, range);
      PartlyBegins(disk, name);
      removed := true;
      while left != {}
        invariant old(history) <= history && left <= lock.Keys && (all || left <= {package})
        invariant disk.lock == before.lock && disk.snapshot == before.snapshot
        invariant IsLeft(Held(before.lock), lock, left, package, all, fails)
        invariant IsUndoing(before, disk, lock, name, range) && IsPartly(before, disk.pkg, lock, name)
        invariant !IsLost(before, lock, name, range) ==> AllKept(history[start..], name, range)
        invariant removed ==> forall p :: p in Held(before.lock) && (all || p == package) && p !in left ==> p !in lock
        invariant !all && IsDealtWith(package, all, fails, package) ==> removed
        invariant !all && left == {package} ==> lock == Held(before.lock) && disk == before
        invariant !all && removed ==> left == {package} || (left == {} && lock == Held(before.lock) - {package}
                                       && disk.pkg ==
                                           Unlinked(before.pkg, package, Held(before.lock)[package].original))
        decreases |left|
      {
        var p :| p in left;
        LeftNext(Held(before.lock), lock, left, package, all, fails, p);
        left := left - {p};
        if fails(Linking, p) || fails(WritingPackage, p) {
          removed := false;
        } else {
          UndoingNext(before, disk, lock, p, name, range);
          PartlyNext(before, disk.pkg, lock, p, name);
          Write(disk.(pkg := Unlinked(disk.pkg, p, lock[p].original)), start, name, range);
          lock := lock - {p};
        }
      }
      UndoingEnds(before, disk, lock, name, range);
      PartlyEnds(before, disk.pkg, lock, package, all, fails, name);
      var saved := SaveLeft(lock, fails, start, IsLost(before, lock, name, range), name, range);
      removed := removed && saved;
    }

    /** The merge of a retreat's lock into an earlier snapshot, entry by entry. */
    method MergeSnapshot(prior: Lock, lock: Lock) returns (merged: Lock)
      ensures merged == Merged(prior, lock)
    {
      hide IsMerging;
      merged := prior;
      var left := lock.Keys;
      MergingBegins(prior, lock);
      while left != {}
        invariant left <= lock.Keys && IsMerging(prior, lock, left, merged)
        decreases |left|
      {
        var p :| p in left;
        MergingNext(prior, lock, left, merged, p);
        left := left - {p};
        var entry := lock[p];
        if entry.original == "" && p in merged {
          entry := Entry(merged[p].original);
        }
        merged := merged[p := entry];
      }
      MergingEnds(prior, lock, merged);
    }

    /** Moves the lock aside as the snapshot, merging it into an earlier one. */
    method StashLock(fails: Faults, ghost start: nat, ghost name: string, ghost range: string) returns (stashed: bool)
      requires start <= |history|
      modifies this
      ensures old(history) <= history && disk.pkg == old(disk).pkg
      ensures stashed ==> disk == StashedDisk(old(disk))
      ensures IsStashed(old(disk), disk, fails)
      ensures stashed <==> old(disk).lock.None? || (!fails(ReadingSnapshot, "") && !fails(SavingSnapshot, "")
                                                    && (old(disk).snapshot.None? || !fails(RemovingLock, "")))
      ensures AllKept(old(history)[start..], name, range) && IsKept(old(disk), name, range) ==>
                AllKept(history[start..], name, range) && IsKept(disk, name, range)
    {
      hide IsKept, AllKept, Merged;
      if disk.lock.None? {
        return true;
      }
      if IsKept(disk, name, range) { MergingKeeps(disk, name, range); }
      if fails(ReadingSnapshot, "") {
        return false;
      }
      if disk.snapshot.None? {
        if fails(SavingSnapshot, "") {
          return false;
        }
        MergedWithNone(disk.lock.value);
        Write(disk.(snapshot := disk.lock, lock := None), start, name, range);
        return true;
      }
      var merged := MergeSnapshot(disk.snapshot.value, disk.lock.value);
      if fails(SavingSnapshot, "") {
        return false;
      }
      Write(disk.(snapshot := Some(merged)), start, name, range);
      if fails(RemovingLock, "") {
        return false;
      }
      Write(disk.(lock := None), start, name, range);
      stashed := true;
    }

    /** Puts every package's range back and moves the lock aside as the snapshot. A refused
        name is skipped; a package.json write that fails is only reported. An empty range is
        lost exactly when package.json is rewritten for its name. */
    method Retreat(valid: string -> bool, fails: Faults, ghost name: string, ghost range: string) returns (clean: bool)
      requires !IsReference(range) && IsKept(disk, name, range)
      modifies this
      ensures old(history) <= history
      ensures var loses := range == "" && name in Held(old(disk).lock) && valid(name) && !fails(WritingPackage, name);
              && (IsPresent(disk, name, range) <==> !loses)
              && (!loses ==> AllKept(history[|old(history)|..], name, range) && IsKept(disk, name, range))
      ensures clean ==> disk.lock == None
      ensures IsStashed(old(disk), disk, fails) && IsRecalled(old(disk), disk.pkg, {}, valid, fails, name)
      ensures clean && name in Held(old(disk).lock) ==>
                name in Held(disk.snapshot) && Held(disk.snapshot)[name].original == range
      ensures clean && valid(name) && name in Held(old(disk).lock) && Held(old(disk).lock)[name].original == range ==>
                (disk.pkg.Holds(name, range) <==> range != "")
      ensures clean <==>
                && (forall p :: p in Held(old(disk).lock) && valid(p) ==> !fails(WritingPackage, p))
                && (old(disk).lock.None? || (!fails(ReadingSnapshot, "") && !fails(SavingSnapshot, "")
                                             && (old(disk).snapshot.None? || !fails(RemovingLock, ""))))
    {
      hide IsKept, IsPresent, Unlinked, Merged, IsRetreating, IsPutBack, IsRecalled;
      ghost var start, before := |history|, disk;
      ghost var loses := range == "" && name in Held(disk.lock) && valid(name) && !fails(WritingPackage, name);
      var left := Held(disk.lock).Keys;
      RetreatingBegins(disk, loses, name, range);
      RecalledBegins(disk, valid, fails, name);
      clean := true;
      while left != {}
        invariant old(history) <= history
        invariant !loses || name in left ==> AllKept(history[start..], name, range)
        invariant disk.lock == before.lock && disk.snapshot == before.snapshot && left <= Held(disk.lock).Keys
        invariant IsRetreating(disk, loses && name !in left, name, range)
        invariant IsRecalled(before, disk.pkg, left, valid, fails, name)
        invariant clean && valid(name) && name !in left ==> IsPutBack(disk, loses, name, range)
        invariant clean <==>
                  forall p :: p in Held(before.lock) && p !in left && valid(p) ==> !fails(WritingPackage, p)
        decreases |left|
      {
        var p :| p in left;
        RecalledNext(before, disk.pkg, left, valid, fails, p, name);
        left := left - {p};
        if valid(p) {
          var original := Held(disk.lock)[p].original;
          if IsReference(original) {
            original := "";
          }
          if fails(WritingPackage, p) {
            clean := false;
          } else {
            RetreatingNext(disk, p, original, loses && name !in left && p != name, loses, name, range);
            Write(disk.(pkg := Unlinked(disk.pkg, p, original)), start, name, range);
          }
        }
      }
      RetreatingEnds(before, disk, loses, name, range);
      assert left == {};
      ghost var undone := disk;
      var stashed := StashLock(fails, start, name, range);
      Settled(undone, disk, loses, name, range);
      if name in Held(before.lock) { StashedHolds(before, undone, name, range); }
      clean := clean && stashed;
    }

    /** All is kept so far, on disk and were the snapshot saved as it is to be. */
    ghost predicate IsSafe(start: nat, snapshot: Lock, name: string, range: string)
      requires start <= |history|
      reads this
    {
      && AllKept(history[start..], name, range)
      && IsKept(disk, name, range) && IsKept(disk.(snapshot := Some(snapshot)), name, range)
    }

    /** Takes a name out of the snapshot, on disk if the write succeeds. */
    method Consume(snapshot: Lock, package: string, fails: Faults, ghost start: nat, ghost name: string,
                   ghost range: string)
      requires start <= |history|
      modifies this
      ensures old(history) <= history
      ensures old(IsSafe(start, snapshot, name, range))
              && (package == name ==> name in Held(disk.lock) && Held(disk.lock)[name].original == range) ==>
                IsSafe(start, snapshot - {package}, name, range)
      ensures disk.lock == old(disk).lock && disk.pkg == old(disk).pkg
      ensures disk.snapshot == if fails(SavingSnapshot, package) then old(disk).snapshot else Some(snapshot - {package})
    {
      hide IsKept;
      if IsKept(disk.(snapshot := Some(snapshot)), name, range)
         && (package == name ==> name in Held(disk.lock) && Held(disk.lock)[name].original == range) {
        ConsumedKeeps(disk.(snapshot := Some(snapshot)), package, name, range);
      }
      if !fails(SavingSnapshot, package) {
        Write(disk.(snapshot := Some(snapshot - {package})), start, name, range);
      }
    }

    /** Links one package of the snapshot again: package.json first, its lock entry after,
        and only then does the name leave the snapshot. `stop` is a lock that was not saved.
        The package.json write overwrites an empty range, which nothing records. */
    method RestoreOne(package: string, snapshot: Lock, fails: Faults, ghost start: nat, ghost name: string,
                      ghost range: string)
      returns (stop: bool, linked: bool)
      requires !IsReference(range) && start <= |history|
      requires package in snapshot && package in Held(disk.snapshot)
      requires Held(disk.snapshot)[package] == snapshot[package]
      modifies this
      ensures old(history) <= history && !(stop && linked)
      ensures old(IsSafe(start, snapshot, name, range))
              && (package == name && range == "" ==> IsSkipped(fails, name)) ==>
                IsSafe(start, if linked then snapshot - {package} else snapshot, name, range)
      ensures !stop && !linked <==> IsSkipped(fails, package)
      ensures IsSkipped(fails, package) ==> disk == old(disk)
      ensures package == name && !IsSkipped(fails, name) ==> !disk.pkg.Holds(name, "")
      ensures stop <==> !IsSkipped(fails, package) && fails(SavingLock, package)
      ensures !IsSkipped(fails, package) ==>
                Refers(old(disk).pkg, disk.pkg, package, false, "file:.lnpm/" + package)
                && disk.pkg == WithReference(old(disk).pkg, package, false, false)
      ensures linked ==> package in Held(disk.lock)
      ensures linked ==> Held(disk.lock) == Held(old(disk).lock)[package := Held(disk.lock)[package]]
      ensures stop ==> disk.lock == old(disk).lock && disk.snapshot == old(disk).snapshot
      ensures package != name ==> Agree(disk.pkg, old(disk).pkg, name)
      ensures old(IsSafe(start, snapshot, name, range)) && linked && package == name ==>
                Held(disk.lock)[name].original == range
      ensures linked ==>
                disk.snapshot == if fails(SavingSnapshot, package) then old(disk).snapshot
                                 else Some(snapshot - {package})
    {
      hide IsKept, ReadOriginal, WithReference, Agree, AllKept, Refers;
      ghost var safe := IsSafe(start, snapshot, name, range);
      AgreesWithItself(disk.pkg, name);
      if IsSkipped(fails, package) {
        return false, false;
      }
      var read := ReadOriginal(disk.pkg, package, false);
      var original := if read == "" then snapshot[package].original else read;
      if safe {
        if package != name || range != "" {
          RelinkedKeeps(disk, package, original, name, range);
          RelinkedKeeps(disk.(snapshot := Some(snapshot)), package, original, name, range);
        }
        ReadsRange(disk.(snapshot := Some(snapshot)), package, name, range);
      }
      if package != name {
        LeavesAlone(disk.pkg, disk.pkg, name, package, false, false);
      } else {
        Overwrites(disk.pkg, name, false, false);
        OverwrittenIsGone(WithReference(disk.pkg, name, false, false), name);
      }
      ReferenceRefers(disk.pkg, package, false, false);
      Write(disk.(pkg := WithReference(disk.pkg, package, false, false)), start, name, range);
      if fails(SavingLock, package) {
        return true, false;
      }
      Write(disk.(lock := Some(Held(disk.lock)[package := Entry(original)])), start, name, range);
      Consume(snapshot, package, fails, start, name, range);
      return false, true;
    }

    lemma SafeIsKept(start: nat, snapshot: Lock, name: string, range: string)
      requires start <= |history| && IsSafe(start, snapshot, name, range)
      ensures AllKept(history[start..], name, range) && IsKept(disk, name, range)
      ensures snapshot.Keys == {} ==> IsKept(disk.(snapshot := None), name, range)
    {
      hide IsKept;
      if snapshot.Keys == {} { NoSnapshot(disk, snapshot, name, range); }
    }

    /** One name of the snapshot: one already in the lock is taken to be the user's newer add
        and only leaves the snapshot, another is linked again. */
    method RestoreNext(package: string, snapshot: Lock, fails: Faults, ghost start: nat, ghost before: Disk,
                       ghost name: string, ghost range: string)
      returns (stop: bool, gone: bool)
      requires !IsReference(range) && start <= |history|
      requires package in snapshot && IsPartOf(snapshot, disk.snapshot)
      modifies this
      ensures old(history) <= history && !(stop && gone)
      ensures old(IsSafe(start, snapshot, name, range))
              && (package == name && name in Held(old(disk).lock) ==> Held(old(disk).lock)[name].original == range)
              && (package == name && name !in Held(old(disk).lock) && range == "" ==> IsSkipped(fails, name)) ==>
                && IsSafe(start, if gone then snapshot - {package} else snapshot, name, range)
                && (gone && package == name ==> name in Held(disk.lock) && Held(disk.lock)[name].original == range)
      ensures LockStays(old(disk), disk, package, name)
      ensures stop <==>
                package !in Held(old(disk).lock) && !IsSkipped(fails, package) && fails(SavingLock, package)
      ensures gone <==>
                package in Held(old(disk).lock) || (!IsSkipped(fails, package) && !fails(SavingLock, package))
      ensures forall q :: q != package ==> (q in Held(disk.lock) <==> q in Held(old(disk).lock))
      ensures if package != name then Agree(disk.pkg, old(disk).pkg, name)
              else name !in Held(old(disk).lock) && !IsSkipped(fails, name) ==> !disk.pkg.Holds(name, "")
      ensures !stop && !gone ==> disk == old(disk)
      ensures gone ==> IsPartOf(snapshot - {package}, disk.snapshot)
      ensures IsUnrecorded(before, old(disk), name) ==> IsUnrecorded(before, disk, name)
      ensures package in Held(old(disk).lock) ==> !stop && gone
      ensures package == name ==>
                if name in Held(old(disk).lock) || IsSkipped(fails, name) then disk.pkg == old(disk).pkg
                else disk.pkg == WithReference(old(disk).pkg, name, false, false)
      ensures disk.snapshot == if gone && !fails(SavingSnapshot, package) then Some(snapshot - {package})
                               else old(disk).snapshot
    {
      hide IsKept, AllKept, Agree, IsUnrecorded, WithReference, Refers;
      ghost var prior := disk;
      AgreesWithItself(disk.pkg, name);
      if package in Held(disk.lock) {
        Consume(snapshot, package, fails, start, name, range);
        stop, gone := false, true;
      } else {
        stop, gone := RestoreOne(package, snapshot, fails, start, name, range);
      }
      if IsUnrecorded(before, prior, name) {
        UnrecordedIsLocked(before, prior, name);
        RiskStays(before, prior, disk, name);
      }
    }

    /** Links again what the snapshot records. Every state keeps the range, unless a name
        stands in both records and the lock has no original version for it, or the range is
        empty and its name is linked again. In the first case a restore that goes through keeps
        the range exactly when package.json held it, in the second it never does. */
    method Restore(fails: Faults, ghost name: string, ghost range: string) returns (restored: bool)
      requires !IsReference(range) && IsKept(disk, name, range)
      modifies this
      ensures old(history) <= history
      ensures restored <==> forall p :: p in Held(old(disk).snapshot) ==> IsRestorable(old(disk), fails, p)
      ensures restored && !fails(RemovingSnapshot, "") ==> disk.snapshot.None?
      ensures restored ==> IsRelinked(old(disk), disk, {}, fails, name)
      ensures name in Held(old(disk).lock) || name !in Held(old(disk).snapshot) ==>
                Agree(disk.pkg, old(disk).pkg, name) && SameEntry(old(disk), disk, name)
      ensures IsSpared(old(disk), fails, name, range) ==>
                AllKept(history[|old(history)|..], name, range) && IsKept(disk, name, range)
      ensures IsSpared(old(disk), fails, name, range) && restored && name in Held(old(disk).snapshot) ==>
                name in Held(disk.lock) && Held(disk.lock)[name].original == range
      ensures range != "" && IsAtRisk(old(disk), name) ==>
                (IsPresent(disk, name, range) <==> name in Held(disk.snapshot) || old(disk).pkg.Holds(name, range))
      ensures range != "" && IsAtRisk(old(disk), name) && restored && !fails(SavingSnapshot, name) ==>
                name !in Held(disk.snapshot)
      ensures range == "" && !IsSpared(old(disk), fails, name, range)
              && (restored || forall p :: !fails(SavingLock, p)) ==>
                !IsPresent(disk, name, range)
    {
      hide IsKept, AllKept, IsPresent, Agree, IsUnrecorded, IsSafe, IsRestored, IsForgotten, IsErased, IsPartOf,
           LockStays, IsSkipped, IsSpared, IsTallied, IsRestorable, IsRelinked, WithReference, SameEntry;
      ghost var start, before, safe := |history|, disk, IsSpared(disk, fails, name, range);
      RecordedInBoth(disk, name, range);
      RiskBegins(disk, name);
      RiskEnds(before, disk, name, range);
      SparedMeans(before, fails, name, range);
      BeginsSafe(if disk.snapshot.None? then map[] else disk.snapshot.value, name, range);
      RelinkedBegins(disk, fails, name);
      if disk.snapshot.None? {
        SafeIsKept(start, map[], name, range);
        return true;
      }
      var snapshot := disk.snapshot.value;
      var left, failed: set<string> := snapshot.Keys, {};
      RestoreBegins(disk, name, range, fails);
      TallyBegins(disk, fails);
      while left != {}
        invariant old(history) <= history && left <= snapshot.Keys <= left + failed
        invariant IsPartOf(snapshot, disk.snapshot)
        invariant IsTallied(before, disk, left, failed, fails)
        invariant left <= Held(before.snapshot).Keys && IsRelinked(before, disk, left, fails, name)
        invariant safe ==> IsSafe(start, snapshot, name, range)
        invariant safe ==> IsRestored(before, disk, snapshot, left, failed, name, range)
        invariant !safe && range != "" ==> IsForgotten(before, disk, snapshot, left, failed, fails, name)
        invariant !safe && range == "" ==> IsErased(disk, left, name)
        decreases |left|
      {
        var p :| p in left;
        ghost var prior, todo, ours, bad := disk, left, snapshot, failed;
        left := left - {p};
        var listed := p in Held(disk.lock);
        if safe {
          RestoredIsLocked(before, disk, snapshot, todo, failed, name, range);
          SparedIsSkipped(before, disk, snapshot, todo, failed, fails, name, range);
        } else if range != "" {
          ForgottenIsUnrecorded(before, disk, snapshot, todo, failed, fails, name);
        }
        var stop, gone := RestoreNext(p, snapshot, fails, start, before, name, range);
        TallyNext(before, prior, disk, todo, left, bad, p, stop, gone, fails);
        RelinkedNext(before, prior, disk, todo, left, fails, p, name);
        if stop {
          RiskEnds(before, disk, name, range);
          RelinkedEnds(before, disk, disk, left, fails, name);
          if safe { SafeIsKept(start, snapshot, name, range); }
          return false;
        }
        if gone {
          snapshot := snapshot - {p};
        }
        if !gone || (!listed && fails(Recording, p)) {
          failed := failed + {p};
        }
        if safe {
          RestoredNext(before, prior, disk, ours, snapshot, todo, left, bad, failed, p, name, range);
        } else if range != "" {
          ForgottenNext(before, prior, disk, ours, snapshot, todo, left, bad, failed, p, fails, name);
        } else {
          ErasedNext(prior, disk, todo, left, p, fails, name);
        }
      }
      RiskEnds(before, disk, name, range);
      RelinkedEnds(before, disk, disk, {}, fails, name);
      RelinkedEnds(before, disk, disk.(snapshot := None), {}, fails, name);
      if safe { SafeIsKept(start, snapshot, name, range); }
      RestoreEnds(before, disk, snapshot, failed, fails, safe, name, range);
      TallyEnds(before, disk, failed, fails);
      if failed == {} && !fails(RemovingSnapshot, "") {
        if !safe && range != "" { RiskStaysWithout(before, disk, name); }
        RiskEnds(before, disk.(snapshot := None), name, range);
        Write(disk.(snapshot := None), start, name, range);
      }
      if !safe && range == "" { EmptyIsGone(disk, name); }
      restored := failed == {};
    }

    lemma BeginsSafe(snapshot: Lock, name: string, range: string)
      requires IsKept(disk, name, range) && snapshot == Held(disk.snapshot)
      ensures IsSafe(|history|, snapshot, name, range)
    {
      hide IsKept, AllKept;
      NoneYet(history, name, range);
      SameSnapshot(disk, name, range);
    }
  }

  lemma SameSnapshot(d: Disk, name: string, range: string)
    requires IsKept(d, name, range)
    ensures IsKept(d.(snapshot := Some(Held(d.snapshot))), name, range)
  {
  }

  lemma RiskStaysWithout(before: Disk, d: Disk, name: string)
    requires IsUnrecorded(before, d, name)
    ensures IsUnrecorded(before, d.(snapshot := None), name)
  {
  }

  /** A step for one package leaves the lock entries there were, and adds none but its own. */
  predicate LockStays(prior: Disk, d: Disk, package: string, name: string) {
    && (name in Held(prior.lock) ==> name in Held(d.lock) && Held(d.lock)[name] == Held(prior.lock)[name])
    && (package != name && name in Held(d.lock) ==> name in Held(prior.lock))
  }

  /** Of a name that is not at risk: once dealt with, the lock records its range. */
  predicate IsRestored(before: Disk, d: Disk, snapshot: Lock, left: set<string>, failed: set<string>, name: string,
                       range: string) {
    && (name in snapshot && name in Held(d.lock) ==> Held(d.lock)[name].original == range)
    && (name in Held(before.lock) ==> name in Held(d.lock)) && (name in snapshot ==> name in Held(before.snapshot))
    && (name in Held(before.snapshot) && name !in left && name !in failed ==>
          name in Held(d.lock) && Held(d.lock)[name].original == range)
  }

  /** Of a name at risk: once dealt with, it has left the snapshot. */
  predicate IsForgotten(before: Disk, d: Disk, snapshot: Lock, left: set<string>, failed: set<string>, fails: Faults,
                        name: string) {
    && IsUnrecorded(before, d, name) && name in Held(d.lock) && name !in failed
    && (name !in left ==> name !in snapshot && (!fails(SavingSnapshot, name) ==> name !in Held(d.snapshot)))
  }

  /** What package.json and the lock hold of a name in a restore under way: a name of the snapshot
      that the lock did not have is pointed at the linked copy once dealt with, unless it is
      skipped, and any other is as it was. */
  predicate IsRelinked(before: Disk, d: Disk, left: set<string>, fails: Faults, name: string) {
    if name !in Held(before.snapshot) || name in Held(before.lock) then
      Agree(d.pkg, before.pkg, name) && SameEntry(before, d, name)
    else if name in left || IsSkipped(fails, name) then Agree(d.pkg, before.pkg, name) && name !in Held(d.lock)
    else Agree(d.pkg, WithReference(before.pkg, name, false, false), name)
  }

  lemma RelinkedBegins(d: Disk, fails: Faults, name: string)
    ensures IsRelinked(d, d, Held(d.snapshot).Keys, fails, name)
  {
  }

  lemma RelinkedNext(before: Disk, prior: Disk, d: Disk, todo: set<string>, left: set<string>, fails: Faults,
                     p: string, name: string)
    requires IsRelinked(before, prior, todo, fails, name) && p in todo && left == todo - {p}
    requires p in Held(before.snapshot) && LockStays(prior, d, p, name)
    requires if p != name then Agree(d.pkg, prior.pkg, name)
             else if name in Held(prior.lock) || IsSkipped(fails, name) then d.pkg == prior.pkg
             else d.pkg == WithReference(prior.pkg, name, false, false)
    requires p == name && IsSkipped(fails, name) && name !in Held(prior.lock) ==> d == prior
    ensures IsRelinked(before, d, left, fails, name)
  {
    hide IsSkipped;
  }

  lemma RelinkedEnds(before: Disk, d: Disk, after: Disk, left: set<string>, fails: Faults, name: string)
    requires IsRelinked(before, d, left, fails, name) && after.pkg == d.pkg && after.lock == d.lock
    ensures IsRelinked(before, after, left, fails, name)
    ensures name in Held(before.lock) || name !in Held(before.snapshot) ==>
              Agree(after.pkg, before.pkg, name) && SameEntry(before, after, name)
  {
    hide Agree, IsSkipped, WithReference;
  }

  /** A name of the snapshot that a restore deals with: in the lock already, or linked again. */
  predicate IsRestorable(d: Disk, fails: Faults, name: string) {
    name in Held(d.lock)
    || (!IsSkipped(fails, name) && !fails(SavingLock, name) && !fails(Recording, name))
  }

  /** The names that failed are those dealt with that cannot be restored; the rest are as listed
      as they were. */
  ghost predicate IsTallied(before: Disk, d: Disk, left: set<string>, failed: set<string>, fails: Faults) {
    && (forall p :: p in failed ==> p in Held(before.snapshot))
    && left <= Held(before.snapshot).Keys
    && (forall p :: p in Held(before.snapshot) && p !in left ==> (p in failed <==> !IsRestorable(before, fails, p)))
    && (forall p :: p in left ==> p !in failed && (p in Held(d.lock) <==> p in Held(before.lock)))
  }

  lemma TallyBegins(d: Disk, fails: Faults)
    ensures IsTallied(d, d, Held(d.snapshot).Keys, {}, fails)
  {
  }

  lemma TallyNext(before: Disk, prior: Disk, d: Disk, todo: set<string>, left: set<string>, bad: set<string>, p: string,
                  stop: bool, gone: bool, fails: Faults)
    requires IsTallied(before, prior, todo, bad, fails) && p in todo && left == todo - {p}
    requires stop <==> p !in Held(prior.lock) && !IsSkipped(fails, p) && fails(SavingLock, p)
    requires gone <==> p in Held(prior.lock) || (!IsSkipped(fails, p) && !fails(SavingLock, p))
    requires forall q :: q != p ==> (q in Held(d.lock) <==> q in Held(prior.lock))
    ensures stop ==> p in Held(before.snapshot) && !IsRestorable(before, fails, p)
    ensures !stop ==>
              IsTallied(before, d, left,
                if !gone || (p !in Held(prior.lock) && fails(Recording, p)) then bad + {p} else bad, fails)
  {
    hide IsSkipped;
  }

  lemma TallyEnds(before: Disk, d: Disk, failed: set<string>, fails: Faults)
    requires IsTallied(before, d, {}, failed, fails)
    ensures failed == {} <==> forall p :: p in Held(before.snapshot) ==> IsRestorable(before, fails, p)
  {
    hide IsRestorable;
  }

  /** Of an empty range whose name is linked again: once dealt with, package.json has lost it. */
  predicate IsErased(d: Disk, left: set<string>, name: string) {
    if name in left then name !in Held(d.lock) else !d.pkg.Holds(name, "")
  }

  /** A name of the snapshot that a restore leaves alone. */
  predicate IsSkipped(fails: Faults, name: string) {
    fails(LookingUp, name) || fails(ReadingPackage, name) || fails(Linking, name) || fails(WritingPackage, name)
  }

  /** What a restore keeps: an empty range unless its name is linked again, any other unless
      it is at risk. */
  predicate IsSpared(d: Disk, fails: Faults, name: string, range: string) {
    if range != "" then !IsAtRisk(d, name)
    else name in Held(d.snapshot) && name !in Held(d.lock) ==> IsSkipped(fails, name)
  }

  lemma SparedMeans(d: Disk, fails: Faults, name: string, range: string)
    ensures range != "" ==> (IsSpared(d, fails, name, range) <==> !IsAtRisk(d, name))
    ensures d.snapshot.None? ==> IsSpared(d, fails, name, range)
  {
  }

  lemma SparedIsSkipped(before: Disk, d: Disk, snapshot: Lock, left: set<string>, failed: set<string>, fails: Faults,
                        name: string, range: string)
    requires IsSpared(before, fails, name, range) && IsRestored(before, d, snapshot, left, failed, name, range)
    ensures range == "" && name in snapshot && name !in Held(d.lock) ==> IsSkipped(fails, name)
  {
  }

  lemma ErasedNext(prior: Disk, d: Disk, todo: set<string>, left: set<string>, p: string, fails: Faults, name: string)
    requires IsErased(prior, todo, name) && p in todo && left == todo - {p} && LockStays(prior, d, p, name)
    requires if p != name then Agree(d.pkg, prior.pkg, name)
             else name !in Held(prior.lock) ==> !d.pkg.Holds(name, "")
    ensures IsErased(d, left, name)
  {
  }

  lemma RestoredIsLocked(before: Disk, d: Disk, snapshot: Lock, left: set<string>, failed: set<string>, name: string,
                         range: string)
    requires IsRestored(before, d, snapshot, left, failed, name, range)
    ensures name in snapshot && name in Held(d.lock) ==> Held(d.lock)[name].original == range
  {
  }

  lemma ForgottenIsUnrecorded(before: Disk, d: Disk, snapshot: Lock, left: set<string>, failed: set<string>,
                              fails: Faults, name: string)
    requires IsForgotten(before, d, snapshot, left, failed, fails, name)
    ensures IsUnrecorded(before, d, name)
  {
  }

  lemma RestoredNext(before: Disk, prior: Disk, d: Disk, ours: Lock, snapshot: Lock, todo: set<string>,
                     left: set<string>, bad: set<string>, failed: set<string>, p: string, name: string, range: string)
    requires IsRestored(before, prior, ours, todo, bad, name, range) && LockStays(prior, d, p, name)
    requires p in todo && p in ours && left == todo - {p} && bad <= failed
    requires snapshot == ours - {p} || (snapshot == ours && d == prior && p in failed)
    requires snapshot != ours && p == name ==> name in Held(d.lock) && Held(d.lock)[name].original == range
    ensures IsRestored(before, d, snapshot, left, failed, name, range)
  {
  }

  lemma ForgottenNext(before: Disk, prior: Disk, d: Disk, ours: Lock, snapshot: Lock, todo: set<string>,
                      left: set<string>, bad: set<string>, failed: set<string>, p: string, fails: Faults, name: string)
    requires IsForgotten(before, prior, ours, todo, bad, fails, name) && LockStays(prior, d, p, name)
    requires IsUnrecorded(before, d, name) && p in todo && p in ours && left == todo - {p} && failed <= bad + {p}
    requires p in Held(prior.lock) ==> failed == bad && snapshot == ours - {p}
    requires snapshot == ours - {p} || (snapshot == ours && d == prior)
    requires d.snapshot == if snapshot != ours && !fails(SavingSnapshot, p) then Some(snapshot) else prior.snapshot
    ensures IsForgotten(before, d, snapshot, left, failed, fails, name)
  {
  }

  lemma RestoreEnds(before: Disk, d: Disk, snapshot: Lock, failed: set<string>, fails: Faults, safe: bool, name: string,
                    range: string)
    requires if safe then IsRestored(before, d, snapshot, {}, failed, name, range)
             else if range != "" then IsForgotten(before, d, snapshot, {}, failed, fails, name)
             else IsErased(d, {}, name)
    ensures safe && failed == {} && name in Held(before.snapshot) ==>
              name in Held(d.lock) && Held(d.lock)[name].original == range
    ensures !safe && range == "" ==> !d.pkg.Holds(name, "")
    ensures !safe && range != "" ==>
              IsUnrecorded(before, d, name) && (!fails(SavingSnapshot, name) ==> name !in Held(d.snapshot))
  {
  }

  lemma RestoreBegins(d: Disk, name: string, range: string, fails: Faults)
    requires d.snapshot.Some? && IsKept(d, name, range)
    ensures if IsSpared(d, fails, name, range) then
              IsRestored(d, d, d.snapshot.value, d.snapshot.value.Keys, {}, name, range)
            else if range != "" then IsForgotten(d, d, d.snapshot.value, d.snapshot.value.Keys, {}, fails, name)
            else IsErased(d, d.snapshot.value.Keys, name) && !IsSkipped(fails, name)
    ensures IsPartOf(d.snapshot.value, d.snapshot)
  {
  }

  predicate IsPartOf(some: Lock, all: Option<Lock>) {
    forall p :: p in some ==> p in Held(all) && Held(all)[p] == some[p]
  }

  /** A name that both records hold, and whose lock entry records no original version. */
  predicate IsAtRisk(d: Disk, name: string) {
    name in Held(d.lock) && name in Held(d.snapshot) && Held(d.lock)[name].original == ""
  }

  lemma AgreesWithItself(pkg: Manifest, name: string)
    ensures Agree(pkg, pkg, name)
  {
  }

  /** The lock still records no original version for the name, package.json says of it what it
      said, and the snapshot says no more than it did. */
  predicate IsUnrecorded(before: Disk, d: Disk, name: string) {
    && name in Held(d.lock) && Held(d.lock)[name].original == "" && Agree(d.pkg, before.pkg, name)
    && (name in Held(d.snapshot) ==>
          name in Held(before.snapshot) && Held(d.snapshot)[name] == Held(before.snapshot)[name])
  }

  lemma UnrecordedIsLocked(before: Disk, d: Disk, name: string)
    requires IsUnrecorded(before, d, name)
    ensures name in Held(d.lock)
  {
  }

  lemma RiskBegins(d: Disk, name: string)
    ensures IsAtRisk(d, name) ==> IsUnrecorded(d, d, name)
  {
  }

  lemma RiskStays(before: Disk, prior: Disk, d: Disk, name: string)
    requires IsUnrecorded(before, prior, name) && Agree(d.pkg, prior.pkg, name)
    requires name in Held(d.lock) && Held(d.lock)[name] == Held(prior.lock)[name]
    requires name in Held(d.snapshot) ==>
               name in Held(prior.snapshot) && Held(d.snapshot)[name] == Held(prior.snapshot)[name]
    ensures IsUnrecorded(before, d, name)
  {
  }

  /** What is left of a range at risk once the snapshot may have lost the name. */
  lemma RiskEnds(before: Disk, d: Disk, name: string, range: string)
    requires !IsReference(range) && IsKept(before, name, range)
    ensures range != "" && IsUnrecorded(before, d, name) ==>
              (IsPresent(d, name, range) <==> name in Held(d.snapshot) || before.pkg.Holds(name, range))
  {
  }

  lemma NoneYet(history: seq<Disk>, name: string, range: string)
    ensures AllKept(history[|history|..], name, range)
  {
  }

  lemma NoLock(d: Disk, name: string, range: string)
    requires IsKept(d, name, range) && d.lock == Some(map[])
    ensures IsKept(d.(lock := None), name, range)
  {
  }

  lemma NoSnapshot(d: Disk, snapshot: Lock, name: string, range: string)
    requires IsKept(d.(snapshot := Some(snapshot)), name, range) && snapshot.Keys == {}
    ensures IsKept(d.(snapshot := None), name, range)
  {
    assert snapshot == map[];
  }

  /** What package.json says of a name in a retreat under way: what was put back for it, where
      the lock has it and it was dealt with, and otherwise what it said. */
  predicate IsRecalled(before: Disk, pkg: Manifest, left: set<string>, valid: string -> bool, fails: Faults,
                       name: string) {
    if name in Held(before.lock) && name !in left && valid(name) && !fails(WritingPackage, name) then
      var original := Held(before.lock)[name].original;
      Agree(pkg, Unlinked(before.pkg, name, if IsReference(original) then "" else original), name)
    else Agree(pkg, before.pkg, name)
  }

  lemma RecalledBegins(d: Disk, valid: string -> bool, fails: Faults, name: string)
    ensures IsRecalled(d, d.pkg, Held(d.lock).Keys, valid, fails, name)
  {
  }

  lemma RecalledNext(before: Disk, pkg: Manifest, left: set<string>, valid: string -> bool, fails: Faults, p: string,
                     name: string)
    requires IsRecalled(before, pkg, left, valid, fails, name) && p in left && p in Held(before.lock)
    ensures var original := Held(before.lock)[p].original;
            var next := if valid(p) && !fails(WritingPackage, p) then
                          Unlinked(pkg, p, if IsReference(original) then "" else original) else pkg;
            IsRecalled(before, next, left - {p}, valid, fails, name)
  {
    hide IsReference;
  }

  /** What a retreat under way keeps: a lost range is gone from package.json. */
  predicate IsRetreating(d: Disk, lost: bool, name: string, range: string) {
    if lost then !d.pkg.Holds(name, "") else IsKept(d, name, range)
  }

  /** A name that package.json has been put right for. */
  predicate IsPutBack(d: Disk, loses: bool, name: string, range: string) {
    !loses && name in Held(d.lock) && Held(d.lock)[name].original == range ==> d.pkg.Holds(name, range)
  }

  lemma RetreatingBegins(d: Disk, loses: bool, name: string, range: string)
    requires IsKept(d, name, range)
    ensures IsRetreating(d, false, name, range) && (name !in Held(d.lock) ==> IsPutBack(d, loses, name, range))
  {
  }

  lemma RetreatingNext(d: Disk, p: string, original: string, lost: bool, loses: bool, name: string, range: string)
    requires !IsReference(range) && IsRetreating(d, lost, name, range) && p in Held(d.lock)
    requires original == if IsReference(Held(d.lock)[p].original) then "" else Held(d.lock)[p].original
    requires (lost ==> loses && p != name) && (loses ==> range == "") && (range == "" && p == name ==> loses)
    ensures var after := d.(pkg := Unlinked(d.pkg, p, original));
            && IsRetreating(after, lost || (loses && p == name), name, range)
            && (!(lost || (loses && p == name)) ==> IsKept(after, name, range))
            && (p == name || IsPutBack(d, loses, name, range) ==> IsPutBack(after, loses, name, range))
  {
    hide IsKept, Unlinked;
    if lost {
      UnlinkedIsGone(d, p, original, name);
    } else if loses && p == name {
      RecordsNothing(d, name);
      UnlinkedIsGone(d, p, original, name);
    } else {
      RetreatedKeeps(d, p, original, name, range);
    }
  }

  lemma RetreatingEnds(before: Disk, d: Disk, loses: bool, name: string, range: string)
    requires IsRetreating(d, loses, name, range) && (loses ==> range == "")
    ensures if loses then !d.pkg.Holds(name, "") else IsKept(d, name, range)
    ensures IsPresent(d, name, range) <==> !loses
    ensures IsPutBack(d, loses, name, range) && d.lock == before.lock &&
            name in Held(before.lock) && Held(before.lock)[name].original == range && !loses ==>
              d.pkg.Holds(name, range)
  {
    if loses { EmptyIsGone(d, name); } else { KeptIsPresent(d, name, range); }
  }

  lemma RetreatedKeeps(d: Disk, package: string, original: string, name: string, range: string)
    requires !IsReference(range) && IsKept(d, name, range) && package in Held(d.lock)
    requires package == name ==> range != ""
    requires original == if IsReference(Held(d.lock)[package].original) then "" else Held(d.lock)[package].original
    ensures var after := d.(pkg := Unlinked(d.pkg, package, original));
            && IsKept(after, name, range)
            && (package == name && Held(d.lock)[name].original == range ==> after.pkg.Holds(name, range))
            && (package != name && d.pkg.Holds(name, range) ==> after.pkg.Holds(name, range))
  {
    if package != name {
      OtherNameKeeps(d, name, range, package, false, false, original, Entry(""));
    } else {
      UnlinkingKeeps(d, name, range);
      assert original == Held(d.lock)[name].original;
    }
  }

  /** A merge under way: the entries dealt with are merged, the rest the snapshot's. */
  ghost predicate IsMerging(prior: Lock, lock: Lock, left: set<string>, merged: Lock) {
    && (forall p :: p in merged <==> p in prior || (p in lock && p !in left))
    && (forall p :: p in merged ==>
          merged[p] == if p in left || p !in lock then prior[p] else MergedEntry(prior, lock, p))
  }

  lemma MergingBegins(prior: Lock, lock: Lock)
    ensures IsMerging(prior, lock, lock.Keys, prior)
  {
  }

  lemma MergingNext(prior: Lock, lock: Lock, left: set<string>, merged: Lock, p: string)
    requires IsMerging(prior, lock, left, merged) && p in left && p in lock
    ensures var entry := if lock[p].original == "" && p in merged then Entry(merged[p].original) else lock[p];
            IsMerging(prior, lock, left - {p}, merged[p := entry])
  {
  }

  lemma MergingEnds(prior: Lock, lock: Lock, merged: Lock)
    requires IsMerging(prior, lock, {}, merged)
    ensures merged == Merged(prior, lock)
  {
  }

  lemma MergedWithNone(lock: Lock)
    ensures Merged(map[], lock) == lock
  {
  }

  /** Moved or merged, the lock leaves the range of each of its names in the snapshot. */
  lemma StashedHolds(before: Disk, d: Disk, name: string, range: string)
    requires IsKept(before, name, range) && name in Held(before.lock)
    requires d.lock == before.lock && d.snapshot == before.snapshot
    ensures name in Held(StashedDisk(d).snapshot) && Held(StashedDisk(d).snapshot)[name].original == range
  {
  }

  /** A write of the records alone leaves a lost range lost and a kept one present. */
  lemma Settled(prior: Disk, d: Disk, loses: bool, name: string, range: string)
    requires d.pkg == prior.pkg
    requires if loses then range == "" && !prior.pkg.Holds(name, "") else IsKept(d, name, range)
    ensures IsPresent(d, name, range) <==> !loses
  {
    hide IsKept;
    if !loses { KeptIsPresent(d, name, range); }
  }

  /** Taking a name out of the snapshot once the lock records the same range. */
  lemma ConsumedKeeps(d: Disk, package: string, name: string, range: string)
    requires IsKept(d, name, range)
    requires package == name ==> name in Held(d.lock) && Held(d.lock)[name].original == range
    ensures IsKept(d.(snapshot := Some(Held(d.snapshot) - {package})), name, range)
  {
  }

  lemma RecordedInBoth(d: Disk, name: string, range: string)
    requires IsKept(d, name, range)
    ensures name in Held(d.lock) && Held(d.lock)[name].original != "" ==> Held(d.lock)[name].original == range
  {
  }

  /** Pointing package.json at a package of the snapshot, then recording it in the lock. */
  lemma RelinkedKeeps(d: Disk, package: string, original: string, name: string, range: string)
    requires !IsReference(range) && IsKept(d, name, range) && package in Held(d.snapshot)
    requires package == name ==> range != ""
    requires original == if ReadOriginal(d.pkg, package, false) == "" then Held(d.snapshot)[package].original
              else ReadOriginal(d.pkg, package, false)
    ensures var after := d.(pkg := WithReference(d.pkg, package, false, false));
            IsKept(after, name, range) &&
                IsKept(after.(lock := Some(Held(d.lock)[package := Entry(original)])), name, range)
  {
    ReferencedKeeps(d, package, name, range, false, false);
    var after := d.(pkg := WithReference(d.pkg, package, false, false));
    if package != name {
      OtherNameKeeps(after, name, range, package, false, false, "", Entry(original));
    } else {
      ReadsRange(d, package, name, range);
    }
  }

  lemma ReadsRange(d: Disk, package: string, name: string, range: string)
    requires !IsReference(range) && IsKept(d, name, range)
    ensures package == name ==> ReadOriginal(d.pkg, package, false) in {range, ""}
    ensures package == name && name in Held(d.snapshot) ==> Held(d.snapshot)[name].original == range
  {
  }

  lemma NothingReferenced(pkg: Manifest, name: string, dev: bool, useLink: bool)
    ensures Agree(pkg, pkg, name) && ReferencedAll(pkg, [], dev, useLink) == pkg
  {
  }

  lemma ReferencedNext(pkg: Manifest, packages: seq<string>, kept: seq<nat>, i: nat, dev: bool, useLink: bool)
    requires AreIndices(packages, kept) && i < |kept|
    ensures ReferencedAll(pkg, Named(packages, kept[..i + 1]), dev, useLink)
         == WithReference(ReferencedAll(pkg, Named(packages, kept[..i]), dev, useLink), packages[kept[i]], dev, useLink)
  {
    hide WithReference;
    var all := Named(packages, kept[..i + 1]);
    assert all[..i] == Named(packages, kept[..i]);
    assert |all| == i + 1 && all[i] == packages[kept[i]];
  }

  lemma OneLock(d: Disk, name: string, range: string)
    requires IsKept(d, name, range)
    ensures IsKept(d.(lock := Some(Held(d.lock))), name, range)
  {
  }
}
