/** A pin is the user's to move: no publish, tag, other project, pull or collection
    moves a pinned link or collects its build. */
module PinSafety {
  import opened Wrappers
  import opened LinkStore
  import opened LinkIndexes
  import opened StoreInvariant
  import opened TagMoves
  import opened LinkMoves
  import opened AddSpec
  import opened StoreRuns
  import Gc
  import GcExact

  /** The row pins a project to one recorded build of a package. */
  ghost predicate PinRow(st: State, l: nat, proj: nat, name: string, id: nat) {
    Holds(st, l, proj, name) && st.links[l].value.pkg == id && st.links[l].value.pinned && id in st.packages
  }

  ghost predicate Pinned(st: State, path: string, name: string, id: nat) {
    path in st.byPath && exists l :: PinRow(st, l, st.byPath[path], name, id)
  }

  /** The commands a pin answers to: its own project's on that package, forgetting the
      project, and a collection that judges its directory gone. */
  predicate Ends(command: Command, path: string, name: string) {
    match command
    case Add(p, _, n, _, _) => p == path && n == name
    case Restore(p, _, n, _, _, _) => p == path && n == name
    case Remove(p, n) => p == path && n == name
    case Forget(p) => p == path
    case Collect(_, opts) => path in opts.gone
    case _ => false
  }

  /** An add that names a build, by version or by hash, pins it. */
  lemma PinningAddPins(st: State, path: string, manager: string, name: string, requested: string, kind: string)
    requires Valid(st) && LegalName(name)
    requires ResolveAddSpec(st, name, requested).Ok? && ResolveAddSpec(st, name, requested).value.Some?
    requires PinsTheLink(ResolveAddSpec(st, name, requested).value.value.kind)
    ensures Pinned(AddOne(st, path, manager, name, requested, kind), path, name,
              ResolveAddSpec(st, name, requested).value.value.pkg.id)
  {
    hide Valid, ResolveAddSpec, Consume;
    ResolvedBuild(st, name, requested);
    ConsumePins(st, path, manager, LinkFor(ResolveAddSpec(st, name, requested).value.value, 0, kind), name);
  }

  lemma ConsumePins(st: State, path: string, manager: string, link: Link, name: string)
    requires Valid(st) && Retained(st.packages, link.pkg, name) && link.pinned
    ensures Pinned(Consume(st, path, manager, link), path, name, link.pkg)
  {
    hide Valid, Consume;
    ConsumeShape(st, path, manager, link);
    var st', proj := Consume(st, path, manager, link), InsertProject(st, path, manager).1;
    var l :| Holds(st', l, proj, name) && Asks(st'.links[l].value, link);
    assert PinRow(st', l, proj, name, link.pkg);
  }

  // ---------------------------------------------------------------- one command

  lemma SameElsewhereKeepsPin(st: State, st': State, l: nat, proj: nat, name: string, id: nat, proj': nat,
                              name': string)
    requires PinRow(st, l, proj, name, id) && SameElsewhere(st, st', proj', name')
    requires st'.packages == st.packages && (proj' != proj || name' != name)
    ensures PinRow(st', l, proj, name, id)
  {
    assert !Holds(st, l, proj', name');
  }

  lemma DistinctPaths(st: State, path: string, path': string)
    requires Valid(st) && path in st.byPath && path' != path
    ensures path' in st.byPath ==> st.byPath[path'] != st.byPath[path]
    ensures st.byPath[path] < st.nextID
  {
  }

  lemma ConsumeKeepsPin(st: State, path': string, manager: string, link: Link, path: string, name: string, id: nat)
    requires Valid(st) && link.pkg in st.packages && Pinned(st, path, name, id)
    requires path' != path || PackageName(st.packages, link.pkg) != name
    ensures Pinned(Consume(st, path', manager, link), path, name, id)
  {
    if path' != path { DistinctPaths(st, path, path'); }
    ConsumeShape(st, path', manager, link);
    hide Valid, Consume, InsertProject, Pinned, PackageName;
    ConsumedKeepsPin(st, Consume(st, path', manager, link), path', InsertProject(st, path', manager).1, link, path,
                     name, id);
  }

  lemma ConsumedKeepsPin(st: State, st': State, path': string, proj': nat, link: Link, path: string, name: string,
                         id: nat)
    requires ConsumedBy(st, st', path', proj', link) && Pinned(st, path, name, id)
    requires PackageName(st.packages, link.pkg) != name || (path' != path && proj' != st.byPath[path])
    ensures Pinned(st', path, name, id)
  {
    var l :| PinRow(st, l, st.byPath[path], name, id);
    SameElsewhereKeepsPin(st, st', l, st.byPath[path], name, id, proj', PackageName(st.packages, link.pkg));
  }

  lemma TagMoveKeepsPin(st: State, tagged: string, tag: string, hash: string, moved: nat, l: nat, proj: nat,
                        name: string, id: nat)
    requires Valid(st) && Records(st.packages, moved, tagged, hash) && PinRow(st, l, proj, name, id)
    ensures SetTagTx(st, tagged, tag, hash, moved).Ok?
    ensures PinRow(SetTagTx(st, tagged, tag, hash, moved).value, l, proj, name, id)
    ensures SetTagTx(st, tagged, tag, hash, moved).value.byPath == st.byPath
  {
    SetTagShape(st, tagged, tag, hash, moved);
    hide Valid, SetTagTx;
    assert MovedLinks(st, tagged, NamedTag(tag), hash, moved)[l] == st.links[l];
  }

  lemma PublishKeepsPin(st: State, pkg: Package, rows: seq<FileRow>, tag: string, path: string, name: string, id: nat)
    requires Valid(st) && LegalName(pkg.name) && Pinned(st, path, name, id)
    ensures Pinned(Apply(st, Publish(pkg, rows, tag)), path, name, id)
  {
    hide Valid, Recorded, InsertPackageWithFiles;
    var l :| PinRow(st, l, st.byPath[path], name, id);
    RecordedIsValid(st, pkg);
    var (recorded, published) := Recorded(st, pkg);
    RecordedKeepsPin(st, pkg, l, st.byPath[path], name, id);
    PublishTags(st, pkg, rows, tag);
    TagMoveKeepsPin(recorded, pkg.name, tag, pkg.hash, published, l, st.byPath[path], name, id);
    hide SetTagTx;
    var tagged := SetTagTx(recorded, pkg.name, tag, pkg.hash, published).value;
    assert PinRow(InsertFilesTx(tagged, published, rows), l, st.byPath[path], name, id);
  }

  lemma RecordedKeepsPin(st: State, pkg: Package, l: nat, proj: nat, name: string, id: nat)
    requires Valid(st) && LegalName(pkg.name) && PinRow(st, l, proj, name, id)
    ensures PinRow(Recorded(st, pkg).0, l, proj, name, id)
    ensures Recorded(st, pkg).0.byPath == st.byPath
  {
    hide Valid, Recorded;
    RecordedIsValid(st, pkg);
    RecordIsKeyed(st, id);
    assert Records(st.packages, id, name, st.packages[id].value.hash);
  }

  lemma SetTagKeepsPin(st: State, tagged: string, tag: string, hash: string, path: string, name: string, id: nat)
    requires Valid(st) && Pinned(st, path, name, id)
    ensures Pinned(Apply(st, SetTag(tagged, tag, hash)), path, name, id)
  {
    hide Valid, FindByHash, SetTagTx;
    ContentLookup(st, tagged, hash);
    var found := FindByHash(st.packages, tagged, hash);
    if found.Some? {
      var l :| PinRow(st, l, st.byPath[path], name, id);
      TagMoveKeepsPin(st, tagged, tag, hash, found.value.id, l, st.byPath[path], name, id);
    }
  }

  lemma RemoveKeepsPin(st: State, path': string, name': string, path: string, name: string, id: nat)
    requires Valid(st) && Pinned(st, path, name, id) && !(path' == path && name' == name)
    ensures Pinned(RemoveOne(st, path', name'), path, name, id)
  {
    hide Valid, Core, HeldRow, DeleteLink;
    var held := HeldRow(st, path', name');
    if held.Some? {
      HeldRowIsHeld(st, path', name');
      if path' != path { DistinctPaths(st, path, path'); }
      ValidIsCore(st);
      DeleteLinkShape(st, held.value.pkg, st.byPath[path']);
      var l :| PinRow(st, l, st.byPath[path], name, id);
      assert PinRow(DeleteLink(st, held.value.pkg, st.byPath[path']).value, l, st.byPath[path], name, id);
    }
  }

  lemma ForgetKeepsPin(st: State, path': string, path: string, name: string, id: nat)
    requires Valid(st) && Pinned(st, path, name, id) && path' != path
    ensures Pinned(ForgetOne(st, path'), path, name, id)
  {
    hide Valid, Core, DeleteProject, Unpathed;
    if path' in st.byPath {
      DistinctPaths(st, path, path');
      ValidIsCore(st);
      DeleteProjectShape(st, st.byPath[path']);
      UnpathedKeeps(st, path', path);
      var l :| PinRow(st, l, st.byPath[path], name, id);
      assert PinRow(DeleteProject(st, st.byPath[path']).value, l, st.byPath[path], name, id);
    }
  }

  lemma UnpathedKeeps(st: State, path': string, path: string)
    requires Valid(st) && path in st.byPath && path' in st.byPath && path' != path
    ensures path in Unpathed(st, st.byPath[path']).byPath
    ensures Unpathed(st, st.byPath[path']).byPath[path] == st.byPath[path]
  {
  }

  lemma PullKeepsPin(st: State, path': string, name': string, version: string, hash: string, path: string,
                     name: string, id: nat)
    requires Valid(st) && LegalName(name') && Pinned(st, path, name, id)
    ensures Pinned(PullOne(st, path', name', version, hash), path, name, id)
  {
    hide Valid, Core, HeldRow, ResolveTag, GetPackageByName, InsertLink;
    var held := HeldRow(st, path', name');
    if held.Some? && !held.value.pinned {
      HeldRowIsHeld(st, path', name');
      NameLookup(st, name');
      TagLookup(st, name', held.value.tag);
      ValidIsCore(st);
      if path' != path { DistinctPaths(st, path, path'); }
      var l :| PinRow(st, l, st.byPath[path], name, id);
      if path' == path && name' == name { PinIsTheRow(st, l, st.byPath[path], name, held.value); }
      var found :=
        if held.value.Channel() != DEFAULT_TAG then ResolveTag(st, name', held.value.tag)
        else GetPackageByName(st, name').value;
      if found.Some? {
        var link := held.value.(pkg := found.value.id);
        InsertLinkShape(st, link);
        InsertLinkRecords(st, link);
        SameElsewhereKeepsPin(st, InsertLink(st, link).value, l, st.byPath[path], name, id, link.proj, name');
      }
    }
  }

  lemma PinIsTheRow(st: State, l: nat, proj: nat, name: string, row: Link)
    requires Core(st) && Holds(st, l, proj, name)
    requires exists m :: Holds(st, m, proj, name) && st.links[m].value == row
    ensures row == st.links[l].value
  {
    RivalIsUnique(st, st.links[l].value, name, l);
  }

  // ---------------------------------------------------------------- a collection

  lemma {:induction false} RemovingKeepsRow(st: State, ids: seq<nat>, stuck: set<nat>, l: nat)
    requires Core(st) && l in st.links && st.links[l].value.pkg !in ids
    ensures l in Gc.RemovePackages(st, ids, stuck).links && Gc.RemovePackages(st, ids, stuck).links[l] == st.links[l]
    ensures st.links[l].Readable?
    ensures var id := st.links[l].value.pkg; var st' := Gc.RemovePackages(st, ids, stuck);
            && id in st.packages && id in st'.packages && st'.packages[id] == st.packages[id]
            && st'.byPath == st.byPath
    decreases |ids|
  {
    hide Core, DeletePackage;
    CoreReadsRows(st, l);
    GcExact.RowNamesVersion(st, l);
    if ids != [] {
      DeletePackageShape(st, ids[0]);
      assert ids == [ids[0]] + ids[1..];
      RemovingKeepsRow(if ids[0] !in stuck then DeletePackage(st, ids[0]).value else st, ids[1..], stuck, l);
    }
  }

  lemma CollectKeepsPin(st: State, ids: seq<nat>, opts: Gc.Options, path: string, name: string, id: nat)
    requires Valid(st) && Gc.Listing(st, ids) && Pinned(st, path, name, id) && path !in opts.gone
    ensures Pinned(Committed(st, Gc.Run(st, ids, opts)), path, name, id)
  {
    hide Valid, Core, Gc.Scan;
    var proj := st.byPath[path];
    var l :| PinRow(st, l, proj, name, id);
    PathOfProject(st, path);
    ValidIsCore(st);
    Gc.ScanDecides(st, Gc.Plan([], []), ids, opts);
    RecordIsKeyed(st, id);
    var plan := Gc.Scan(st, Gc.Plan([], []), ids, opts).value;
    assert Gc.Present(st.projects, proj, opts.gone);
    assert Owns(st.links, ByPackage, id, l);
    assert Gc.Reached(st, id, opts);
    assert !Gc.OrphanJoin(st, Gc.Join(id, proj), opts.gone);
    SweepKeepsRow(st, plan, opts, l, proj, name, id);
  }

  lemma SweepKeepsRow(st: State, plan: Gc.Plan, opts: Gc.Options, l: nat, proj: nat, name: string, id: nat)
    requires Core(st) && PinRow(st, l, proj, name, id) && id !in plan.packages && Gc.Join(id, proj) !in plan.links
    ensures PinRow(Gc.Sweep(st, plan, opts), l, proj, name, id)
    ensures Gc.Sweep(st, plan, opts).byPath == st.byPath
  {
    hide Core, Gc.RemoveOrphanedLinks;
    GcExact.RemoveOrphanedExact(st, plan.links);
    var unlinked := if opts.fixLinks && opts.confirmLinks then Gc.RemoveOrphanedLinks(st, plan.links) else st;
    assert PinRow(unlinked, l, proj, name, id);
    RemovingKeepsRow(unlinked, plan.packages, opts.stuck, l);
  }

  lemma PathOfProject(st: State, path: string)
    requires Valid(st) && path in st.byPath
    ensures st.byPath[path] in st.projects && st.projects[st.byPath[path]].Readable?
    ensures st.projects[st.byPath[path]].value.path == path
  {
  }

  // ---------------------------------------------------------------- whole runs

  lemma ApplyKeepsPin(st: State, command: Command, path: string, name: string, id: nat)
    requires Valid(st) && Legal(command) && Pinned(st, path, name, id) && !Ends(command, path, name)
    ensures Pinned(Apply(st, command), path, name, id)
  {
    hide Valid, Pinned, LegalName;
    match command {
      case Publish(pkg, rows, tag) => PublishKeepsPin(st, pkg, rows, tag, path, name, id);
      case SetTag(n, tag, hash) => SetTagKeepsPin(st, n, tag, hash, path, name, id);
      case DeleteTag(n, tag) => DeleteTagKeepsPin(st, n, tag, path, name, id);
      case Add(p, manager, n, requested, kind) => AddKeepsPin(st, p, manager, n, requested, kind, path, name, id);
      case Restore(p, manager, n, hash, kind, pinned) =>
        RestoreKeepsPin(st, p, manager, n, hash, kind, pinned, path, name, id);
      case Remove(p, n) => RemoveKeepsPin(st, p, n, path, name, id);
      case Forget(p) => ForgetKeepsPin(st, p, path, name, id);
      case Pull(p, n, version, hash) => PullKeepsPin(st, p, n, version, hash, path, name, id);
      case Collect(ids, opts) => if Gc.Listing(st, ids) { CollectKeepsPin(st, ids, opts, path, name, id); }
    }
  }

  lemma DeleteTagKeepsPin(st: State, n: string, tag: string, path: string, name: string, id: nat)
    requires Pinned(st, path, name, id)
    ensures Pinned(Apply(st, DeleteTag(n, tag)), path, name, id)
  {
    var l :| PinRow(st, l, st.byPath[path], name, id);
    assert PinRow(Apply(st, DeleteTag(n, tag)), l, st.byPath[path], name, id);
  }

  lemma AddKeepsPin(st: State, p: string, manager: string, n: string, requested: string, kind: string, path: string,
                    name: string, id: nat)
    requires Valid(st) && LegalName(n) && Pinned(st, path, name, id) && !(p == path && n == name)
    ensures Pinned(AddOne(st, p, manager, n, requested, kind), path, name, id)
  {
    hide Valid, ResolveAddSpec, Consume, Pinned;
    var found := ResolveAddSpec(st, n, requested);
    if found.Ok? && found.value.Some? {
      ResolvedBuild(st, n, requested);
      ConsumeKeepsPin(st, p, manager, LinkFor(found.value.value, 0, kind), path, name, id);
    }
  }

  lemma RestoreKeepsPin(st: State, p: string, manager: string, n: string, hash: string, kind: string, pinned: bool,
                        path: string, name: string, id: nat)
    requires Valid(st) && LegalName(n) && Pinned(st, path, name, id) && !(p == path && n == name)
    ensures Pinned(RestoreOne(st, p, manager, n, hash, kind, pinned), path, name, id)
  {
    hide Valid, RestoredBuild, Consume, Pinned;
    RestoredLookup(st, n, hash);
    var found := RestoredBuild(st, n, hash);
    if found.Some? {
      ConsumeKeepsPin(st, p, manager, Link(0, found.value.id, 0, kind, "", pinned), path, name, id);
    }
  }

  /** From a pinning add on, until the project itself moves the pin, is forgotten or is
      judged gone, no run of other commands moves the link or collects its build. */
  lemma {:induction false} PinsSurviveRuns(st: State, commands: seq<Command>, path: string, name: string, id: nat)
    requires Valid(st) && AllLegal(commands) && Pinned(st, path, name, id)
    requires forall command :: command in commands ==> !Ends(command, path, name)
    ensures Pinned(Run(st, commands), path, name, id)
    decreases |commands|
  {
    if commands != [] {
      ApplyKeepsValid(st, commands[0]);
      ApplyKeepsPin(st, commands[0], path, name, id);
      hide Valid, Apply, Legal, Ends, Pinned;
      PinsSurviveRuns(Apply(st, commands[0]), commands[1..], path, name, id);
    }
  }
}
