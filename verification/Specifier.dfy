/** The user's own version range of a linked package, held in package.json, in lnpm.lock or
    in the retreat snapshot: what each command writes, and what keeps the range from being lost. */
module Specifier {
  import opened Wrappers
  import opened Paths

  /** The two dependency fields, as readers of package.json see them. */
  datatype Manifest = Manifest(deps: map<string, string>, dev: map<string, string>) {
    predicate Has(name: string) {
      name in deps || name in dev
    }

    predicate Holds(name: string, range: string) {
      (name in deps && deps[name] == range) || (name in dev && dev[name] == range)
    }
  }

  /** A lock entry, of which only the original version matters here: "" when none is recorded. */
  datatype Entry = Entry(original: string)

  type Lock = map<string, Entry>

  /** The three files, each written atomically. */
  datatype Disk = Disk(pkg: Manifest, lock: Option<Lock>, snapshot: Option<Lock>)

  function Held(lock: Option<Lock>): Lock {
    if lock.Some? then lock.value else map[]
  }

  predicate IsReference(range: string) {
    HasPrefix(range, "file:.lnpm/") || HasPrefix(range, "link:.lnpm/")
  }

  function Reference(name: string, useLink: bool): (r: string)
    ensures IsReference(r)
  {
    var r := (if useLink then "link:.lnpm/" else "file:.lnpm/") + name;
    assert r[..11] == if useLink then "link:.lnpm/" else "file:.lnpm/";
    r
  }

  /** A range that add reads as one and a record can hold. A user may also write the empty
      range, any version to npm, which add and the records cannot tell from none. */
  predicate IsRecordable(range: string) {
    range != "" && !IsReference(range)
  }

  // ---------------------------------------------------------------- edits of package.json

  predicate InDevField(pkg: Manifest, name: string, dev: bool) {
    dev || (name !in pkg.deps && name in pkg.dev)
  }

  function OwnRange(field: map<string, string>, name: string): string {
    if name in field && !IsReference(field[name]) then field[name] else ""
  }

  /** The user's range as add reads it: the field to be written first, then the other. */
  function ReadOriginal(pkg: Manifest, name: string, dev: bool): string {
    var (target, other) := if InDevField(pkg, name, dev) then (pkg.dev, pkg.deps) else (pkg.deps, pkg.dev);
    if OwnRange(target, name) != "" then OwnRange(target, name) else OwnRange(other, name)
  }

  /** package.json pointing at the linked copy, in one field only. */
  function WithReference(pkg: Manifest, name: string, dev: bool, useLink: bool): Manifest {
    if InDevField(pkg, name, dev) then Manifest(pkg.deps - {name}, pkg.dev[name := Reference(name, useLink)])
    else Manifest(pkg.deps[name := Reference(name, useLink)], pkg.dev - {name})
  }

  /** package.json with a range put back where the name stands; untouched where it stands nowhere. */
  function Restored(pkg: Manifest, name: string, range: string): Manifest {
    if name in pkg.deps then pkg.(deps := pkg.deps[name := range])
    else if name in pkg.dev then pkg.(dev := pkg.dev[name := range])
    else pkg
  }

  function Dropped(pkg: Manifest, name: string): Manifest {
    Manifest(pkg.deps - {name}, pkg.dev - {name})
  }

  /** The entry add writes: the range read, or the one an earlier add recorded. */
  function AddedEntry(lock: Lock, name: string, read: string): Entry {
    Entry(if read == "" && name in lock then lock[name].original else read)
  }

  /** What remove and retreat do to package.json for one name. */
  function Unlinked(pkg: Manifest, name: string, original: string): Manifest {
    if original != "" then Restored(pkg, name, original) else Dropped(pkg, name)
  }

  // ---------------------------------------------------------------- the invariant

  /** A record holds the range: an entry whose original version is "" holds none. */
  predicate Records(lock: Lock, name: string, range: string) {
    range != "" && name in lock && lock[name].original == range
  }

  /** Some file still holds the range. */
  predicate IsPresent(d: Disk, name: string, range: string) {
    d.pkg.Holds(name, range) || Records(Held(d.lock), name, range) || Records(Held(d.snapshot), name, range)
  }

  predicate IsRecorded(d: Disk, name: string) {
    name in Held(d.lock) || name in Held(d.snapshot)
  }

  /** What the order of writes keeps true of a name and the user's range for it. Only
      package.json can hold the empty range. */
  predicate IsKept(d: Disk, name: string, range: string) {
    var lock, snapshot := Held(d.lock), Held(d.snapshot);
    && (name in snapshot ==> snapshot[name].original == range)
    && (name in lock ==> lock[name].original == range || (lock[name].original == "" && name in snapshot))
    && (name in lock && lock[name].original == range ==> d.pkg.Has(name))
    && (range == "" || !IsRecorded(d, name) ==> d.pkg.Holds(name, range))
    && (name in d.pkg.deps ==> d.pkg.deps[name] == range || IsReference(d.pkg.deps[name]))
    && (name in d.pkg.dev ==> d.pkg.dev[name] == range || IsReference(d.pkg.dev[name]))
  }

  lemma KeptIsPresent(d: Disk, name: string, range: string)
    requires IsKept(d, name, range)
    ensures IsPresent(d, name, range)
  {
  }

  /** A project that uses a package and has never linked it. */
  lemma UntouchedIsKept(d: Disk, name: string, range: string)
    requires name !in Held(d.lock) && name !in Held(d.snapshot) && d.pkg.Holds(name, range)
    requires (name in d.pkg.deps ==> d.pkg.deps[name] == range) && (name in d.pkg.dev ==> d.pkg.dev[name] == range)
    ensures IsKept(d, name, range)
  {
  }

  // ---------------------------------------------------------------- one write at a time

  /** Recording a name in the lock before package.json is rewritten. */
  lemma LockingKeeps(d: Disk, name: string, range: string, dev: bool)
    requires !IsReference(range) && IsKept(d, name, range)
    ensures var entry := AddedEntry(Held(d.lock), name, ReadOriginal(d.pkg, name, dev));
            && IsKept(d.(lock := Some(Held(d.lock)[name := entry])), name, range)
            && entry.original in {range, ""}
  {
  }

  /** Pointing package.json at the linked copy keeps the range exactly when it can be recorded
      and the lock or the snapshot holds the name. */
  lemma ReferencingKeeps(d: Disk, name: string, range: string, dev: bool, useLink: bool)
    requires !IsReference(range) && IsKept(d, name, range)
    ensures var after := d.(pkg := WithReference(d.pkg, name, dev, useLink));
            && (IsKept(after, name, range) <==> range != "" && IsRecorded(d, name))
            && (IsPresent(after, name, range) <==> range != "" && IsRecorded(d, name))
  {
  }

  /** Undoing the link in package.json, and then dropping the lock entry, keeps the range
      exactly when it is not empty. */
  lemma UnlinkingKeeps(d: Disk, name: string, range: string)
    requires !IsReference(range) && IsKept(d, name, range) && name in Held(d.lock)
    ensures var original := Held(d.lock)[name].original; var after := d.(pkg := Unlinked(d.pkg, name, original));
            && (IsKept(after, name, range) <==> range != "") && (IsPresent(after, name, range) <==> range != "")
            && (IsKept(after.(lock := Some(Held(d.lock) - {name})), name, range) <==> range != "")
            && (original == range != "" ==> after.pkg.Holds(name, range))
            && (range == "" ==> !after.pkg.Has(name))
  {
  }

  /** Edits for another name do not touch this one. */
  lemma OtherNameKeeps(d: Disk, name: string, range: string, other: string, dev: bool, useLink: bool, original: string,
                       entry: Entry)
    requires IsKept(d, name, range) && other != name
    ensures IsKept(d.(pkg := WithReference(d.pkg, other, dev, useLink)), name, range)
    ensures IsKept(d.(pkg := Unlinked(d.pkg, other, original)), name, range)
    ensures IsKept(d.(lock := Some(Held(d.lock)[other := entry])), name, range)
    ensures IsKept(d.(lock := Some(Held(d.lock) - {other})), name, range)
    ensures IsKept(d.(snapshot := Some(Held(d.snapshot) - {other})), name, range)
  {
  }

  /** The snapshot a retreat writes over an earlier one: newer entries win, but an empty
      original version does not displace a recorded one. */
  function Merged(prior: Lock, lock: Lock): Lock {
    map name | name in prior.Keys + lock.Keys :: MergedEntry(prior, lock, name)
  }

  function MergedEntry(prior: Lock, lock: Lock, name: string): Entry
    requires name in prior || name in lock
  {
    if name !in lock then prior[name]
    else if lock[name].original == "" && name in prior then prior[name]
    else lock[name]
  }

  lemma MergingKeeps(d: Disk, name: string, range: string)
    requires IsKept(d, name, range)
    ensures var after := d.(snapshot := Some(Merged(Held(d.snapshot), Held(d.lock))));
            IsKept(after, name, range) && IsKept(after.(lock := None), name, range)
    ensures d.snapshot.None? ==> IsKept(d.(snapshot := d.lock, lock := None), name, range)
  {
  }
}
