/** The one counter every bucket draws its IDs from: over any run, records, links, projects
    and file rows never share an ID, and every ID in use lies below the counter. */
module IssuedIDs {
  import opened Wrappers
  import opened LinkStore
  import opened StoreInvariant
  import opened TagMoves
  import opened LinkMoves
  import opened AddSpec
  import opened StoreRuns
  import Gc

  type FileMap = map<nat, seq<FileRow>>

  predicate IsFileID(files: FileMap, pkg: nat, i: nat, id: nat) {
    pkg in files && i < |files[pkg]| && files[pkg][i].id == id
  }

  predicate IsRecordID(st: State, id: nat) {
    id in st.packages || id in st.links || id in st.projects
  }

  /** No file row's ID names anything else, and each lies below the counter. */
  ghost predicate FilesApart(st: State) {
    && (forall p: nat, i: nat, id: nat :: IsFileID(st.files, p, i, id) ==> 0 < id < st.nextID && !IsRecordID(st, id))
    && (forall p: nat, i: nat, q: nat, j: nat, id: nat ::
          IsFileID(st.files, p, i, id) && IsFileID(st.files, q, j, id) ==> p == q && i == j)
  }

  /** A step that adds no file rows, and gives nothing an ID the counter has passed. */
  ghost predicate Quiet(st: State, st': State) {
    && st.nextID <= st'.nextID
    && (forall id: nat :: IsRecordID(st', id) ==> IsRecordID(st, id) || st.nextID <= id)
    && (forall p :: p in st'.files ==> p in st.files && st'.files[p] == st.files[p])
  }

  lemma QuietTrans(a: State, b: State, c: State)
    requires Quiet(a, b) && Quiet(b, c)
    ensures Quiet(a, c)
  {
  }

  lemma QuietKeepsApart(st: State, st': State)
    requires FilesApart(st) && Quiet(st, st')
    ensures FilesApart(st')
  {
    forall p: nat, i: nat, id: nat | IsFileID(st'.files, p, i, id) ensures IsFileID(st.files, p, i, id) {}
  }

  /** A publish numbers its files from the counter, past every ID in use. */
  lemma NumberedApart(st: State, pkg: nat, rows: seq<FileRow>)
    requires FilesApart(st) && Readables(st) && StoreInvariant.Keyed(st)
    ensures FilesApart(InsertFilesTx(st, pkg, rows))
  {
    var st' := InsertFilesTx(st, pkg, rows);
    forall p: nat, i: nat, id: nat | IsFileID(st'.files, p, i, id)
      ensures if p == pkg then id == st.nextID + i && i < |rows| else IsFileID(st.files, p, i, id)
    {
    }
  }

  // ---------------------------------------------------------------- the counter only moves on

  predicate IsUsed(st: State, id: nat) {
    IsRecordID(st, id) || exists p, i: nat :: p in st.files && i < |st.files[p]| && IsFileID(st.files, p, i, id)
  }

  /** The counter never falls, and an ID that comes into use was not yet passed by it. */
  ghost predicate IsOnward(st: State, st': State) {
    st.nextID <= st'.nextID && forall id: nat :: IsUsed(st', id) ==> IsUsed(st, id) || st.nextID <= id
  }

  lemma OnwardTrans(a: State, b: State, c: State)
    requires IsOnward(a, b) && IsOnward(b, c)
    ensures IsOnward(a, c)
  {
    hide IsUsed;
  }

  lemma QuietIsOnward(st: State, st': State)
    requires Quiet(st, st')
    ensures IsOnward(st, st')
  {
    hide IsRecordID;
    forall id: nat | IsUsed(st', id) ensures IsUsed(st, id) || st.nextID <= id {
      if p, i: nat :| p in st'.files && i < |st'.files[p]| && IsFileID(st'.files, p, i, id) {
        assert IsFileID(st.files, p, i, id);
      }
    }
  }

  lemma NumberedOnward(st: State, pkg: nat, rows: seq<FileRow>)
    ensures IsOnward(st, InsertFilesTx(st, pkg, rows))
  {
    var st' := InsertFilesTx(st, pkg, rows);
    forall id: nat | IsUsed(st', id) ensures IsUsed(st, id) || st.nextID <= id {
      if p, i: nat :| p in st'.files && i < |st'.files[p]| && IsFileID(st'.files, p, i, id) {
        if p == pkg { assert id == st.nextID + i; } else { assert IsFileID(st.files, p, i, id); }
      } else {
        assert IsRecordID(st, id);
      }
    }
  }

  // ---------------------------------------------------------------- each command

  lemma {:induction false} SupersedeKeepsCounter(st: State, ids: seq<nat>, link: Link, name: string, updated: bool)
    requires Supersede(st, ids, link, name, updated).Ok?
    ensures Supersede(st, ids, link, name, updated).value.0.nextID == st.nextID
    decreases |ids|
  {
    if ids != [] {
      if ids[0] !in st.links || st.links[ids[0]].Damaged? {
        SupersedeKeepsCounter(st, ids[1..], link, name, updated);
      } else {
        var row := st.links[ids[0]].value;
        if row.pkg == link.pkg {
          var row' := row.(kind := link.kind, tag := link.tag, pinned := link.pinned);
          SupersedeKeepsCounter(st.(links := st.links[row.id := Readable(row')]), ids[1..], link, name, true);
        } else if name != "" && PackageName(st.packages, row.pkg) == name {
          SupersedeKeepsCounter(DeleteLinkRow(st, row.id, row.pkg, row.proj).value, ids[1..], link, name, updated);
        } else {
          SupersedeKeepsCounter(st, ids[1..], link, name, updated);
        }
      }
    }
  }

  lemma InsertLinkIsQuiet(st: State, link: Link)
    requires Core(st) && link.pkg in st.packages && link.proj in st.projects
    ensures InsertLink(st, link).Ok? && Quiet(st, InsertLink(st, link).value)
  {
    hide Core, Supersede;
    InsertLinkShape(st, link);
    var ids := IndexIDs(st.linksByProject, link.proj).value;
    SupersedeKeepsCounter(st, ids, link, PackageName(st.packages, link.pkg), false);
    ConsumedKeys(st, link);
  }

  lemma ConsumedKeys(st: State, link: Link)
    ensures forall id :: id in LinkMoves.Consumed(st, link) ==> id in st.links || id == st.nextID
  {
  }

  lemma InsertProjectIsQuiet(st: State, path: string, manager: string)
    requires Readables(st) && StoreInvariant.Keyed(st)
    ensures Quiet(st, InsertProject(st, path, manager).0)
  {
  }

  lemma ConsumeIsQuiet(st: State, path: string, manager: string, link: Link)
    requires Valid(st) && link.pkg in st.packages
    ensures Quiet(st, Consume(st, path, manager, link))
  {
    InsertProjectIsQuiet(st, path, manager);
    InsertProjectShape(st, path, manager);
    InsertProjectKeepsValid(st, path, manager);
    var (registered, proj) := InsertProject(st, path, manager);
    ValidIsCore(registered);
    hide Valid, InsertProject, InsertLink, Core, Quiet;
    InsertLinkIsQuiet(registered, link.(proj := proj));
    QuietTrans(st, registered, Consume(st, path, manager, link));
  }

  lemma MovedLinksKeys(st: State, name: string, named: string, hash: string, id: nat)
    ensures MovedLinks(st, name, named, hash, id).Keys == st.links.Keys
  {
  }

  lemma SetTagTxIsQuiet(st: State, name: string, tag: string, hash: string, id: nat)
    requires Core(st) && TagsNameVersions(st.packages, st.tags)
    requires NameIndexMirrorsLatest(st.packages, st.byName, st.tags)
    requires Records(st.packages, id, name, hash)
    ensures SetTagTx(st, name, tag, hash, id).Ok? && Quiet(st, SetTagTx(st, name, tag, hash, id).value)
  {
    hide Core, SetTagTx, TagsNameVersions, NameIndexMirrorsLatest;
    SetTagShape(st, name, tag, hash, id);
    MovedLinksKeys(st, name, NamedTag(tag), hash, id);
  }

  lemma PublishKeepsApart(st: State, pkg: Package, rows: seq<FileRow>, tag: string)
    requires Valid(st) && FilesApart(st) && LegalName(pkg.name)
    ensures FilesApart(Committed(st, InsertPackageWithFiles(st, pkg, rows, tag)))
    ensures IsOnward(st, Committed(st, InsertPackageWithFiles(st, pkg, rows, tag)))
  {
    hide Valid, Recorded, SetTagTx, InsertPackageWithFiles, Quiet, FilesApart, InsertFilesTx, Core, IsOnward;
    RecordedIsValid(st, pkg);
    RecordedIsQuiet(st, pkg);
    PublishTags(st, pkg, rows, tag);
    var (recorded, id) := Recorded(st, pkg);
    var tagged := SetTagTx(recorded, pkg.name, tag, pkg.hash, id).value;
    ValidParts(recorded);
    ValidParts(tagged);
    SetTagTxIsQuiet(recorded, pkg.name, tag, pkg.hash, id);
    QuietTrans(st, recorded, tagged);
    QuietKeepsApart(st, tagged);
    QuietIsOnward(st, tagged);
    NumberedApart(tagged, id, rows);
    NumberedOnward(tagged, id, rows);
    OnwardTrans(st, tagged, InsertFilesTx(tagged, id, rows));
  }

  lemma RecordedIsQuiet(st: State, pkg: Package)
    requires Valid(st)
    ensures Quiet(st, Recorded(st, pkg).0)
  {
    hide Valid, FindByHash, Quiet, Records;
    ContentLookup(st, pkg.name, pkg.hash);
    var found := FindByHash(st.packages, pkg.name, pkg.hash);
    if found.Some? {
      RewritingIsQuiet(st, found.value.id, found.value.(version := pkg.version, updatedAt := pkg.updatedAt), st.nextID);
    } else {
      RewritingIsQuiet(st, st.nextID, pkg.(id := st.nextID), st.nextID + 1);
    }
  }

  lemma RewritingIsQuiet(st: State, id: nat, row: Package, next: nat)
    requires id in st.packages || st.nextID <= id
    requires st.nextID <= next
    ensures Quiet(st, st.(packages := st.packages[id := Readable(row)], nextID := next))
  {
  }

  lemma ValidParts(st: State)
    requires Valid(st)
    ensures Core(st) && TagsNameVersions(st.packages, st.tags)
    ensures NameIndexMirrorsLatest(st.packages, st.byName, st.tags)
    ensures Readables(st) && StoreInvariant.Keyed(st)
  {
  }

  lemma DeleteLinkIsQuiet(st: State, pkg: nat, proj: nat)
    requires Core(st)
    ensures DeleteLink(st, pkg, proj).Ok? && Quiet(st, DeleteLink(st, pkg, proj).value)
  {
    hide Core;
    DeleteLinkShape(st, pkg, proj);
  }

  lemma DeletePackageIsQuiet(st: State, id: nat)
    requires Core(st)
    ensures DeletePackage(st, id).Ok? && Quiet(st, DeletePackage(st, id).value)
  {
    hide Core;
    DeletePackageShape(st, id);
  }

  lemma DeleteProjectIsQuiet(st: State, id: nat)
    requires Core(st)
    ensures DeleteProject(st, id).Ok? && Quiet(st, DeleteProject(st, id).value)
  {
    hide Core, DeleteProject;
    DeleteProjectShape(st, id);
  }

  lemma {:induction false} UnlinkingIsQuiet(st: State, joins: seq<Gc.Join>)
    requires Valid(st)
    ensures Quiet(st, Gc.RemoveOrphanedLinks(st, joins)) && Valid(Gc.RemoveOrphanedLinks(st, joins))
    decreases |joins|
  {
    hide Valid, DeleteLink, Quiet;
    if joins == [] {
      QuietSelf(st);
    } else {
      ValidIsCore(st);
      DeleteLinkIsQuiet(st, joins[0].pkg, joins[0].proj);
      DeleteLinkKeepsValid(st, joins[0].pkg, joins[0].proj);
      var next := DeleteLink(st, joins[0].pkg, joins[0].proj).value;
      UnlinkingIsQuiet(next, joins[1..]);
      QuietTrans(st, next, Gc.RemoveOrphanedLinks(next, joins[1..]));
    }
  }

  lemma QuietSelf(st: State)
    ensures Quiet(st, st)
  {
  }

  lemma {:induction false} CollectingIsQuiet(st: State, ids: seq<nat>, stuck: set<nat>)
    requires Valid(st)
    ensures Quiet(st, Gc.RemovePackages(st, ids, stuck))
    decreases |ids|
  {
    hide Valid, DeletePackage, Quiet;
    QuietSelf(st);
    if ids != [] {
      ValidIsCore(st);
      DeletePackageIsQuiet(st, ids[0]);
      DeletePackageKeepsValid(st, ids[0]);
      var next := if ids[0] !in stuck then DeletePackage(st, ids[0]).value else st;
      CollectingIsQuiet(next, ids[1..], stuck);
      QuietTrans(st, next, Gc.RemovePackages(next, ids[1..], stuck));
    }
  }

  lemma CollectIsQuiet(st: State, ids: seq<nat>, opts: Gc.Options)
    requires Valid(st) && Gc.Listing(st, ids)
    ensures Quiet(st, Committed(st, Gc.Run(st, ids, opts)))
  {
    hide Valid, Quiet, Gc.RemovePackages, Gc.RemoveOrphanedLinks, Gc.Scan;
    QuietSelf(st);
    var plan := Gc.Scan(st, Gc.Plan([], []), ids, opts);
    if plan.Ok? && !opts.dryRun {
      var unlinked := if opts.fixLinks && opts.confirmLinks then Gc.RemoveOrphanedLinks(st, plan.value.links) else st;
      UnlinkingIsQuiet(st, plan.value.links);
      CollectingIsQuiet(unlinked, plan.value.packages, opts.stuck);
      var swept := if opts.confirmPackages then Gc.RemovePackages(unlinked, plan.value.packages, opts.stuck)
          else unlinked;
      QuietSelf(unlinked);
      QuietTrans(st, unlinked, swept);
    }
  }

  lemma PullIsQuiet(st: State, path: string, name: string, version: string, hash: string)
    requires Valid(st) && LegalName(name)
    ensures Quiet(st, PullOne(st, path, name, version, hash))
  {
    hide Valid, Core, ResolveTag, GetPackageByName, HeldRow, Quiet, InsertLink;
    QuietSelf(st);
    var held := HeldRow(st, path, name);
    if held.Some? && !held.value.pinned {
      HeldRowIsHeld(st, path, name);
      NameLookup(st, name);
      TagLookup(st, name, held.value.tag);
      ValidIsCore(st);
      var found :=
        if held.value.Channel() != DEFAULT_TAG then ResolveTag(st, name, held.value.tag)
        else GetPackageByName(st, name).value;
      if found.Some? { InsertLinkIsQuiet(st, held.value.(pkg := found.value.id)); }
    }
  }

  lemma LinkCommandsAreQuiet(st: State, command: Command)
    requires Valid(st) && Legal(command) && (command.Add? || command.Restore? || command.Remove? || command.Forget?)
    ensures Quiet(st, Apply(st, command))
  {
    hide Valid, Core, Quiet, ResolveAddSpec, Consume, RestoredBuild, HeldRow, DeleteLink, DeleteProject;
    QuietSelf(st);
    ValidIsCore(st);
    match command {
      case Add(path, manager, name, requested, kind) =>
        var found := ResolveAddSpec(st, name, requested);
        if found.Ok? && found.value.Some? {
          ResolvedBuild(st, name, requested);
          ConsumeIsQuiet(st, path, manager, LinkFor(found.value.value, 0, kind));
        }
      case Restore(path, manager, name, hash, kind, pinned) =>
        RestoredLookup(st, name, hash);
        var found := RestoredBuild(st, name, hash);
        if found.Some? { ConsumeIsQuiet(st, path, manager, Link(0, found.value.id, 0, kind, "", pinned)); }
      case Remove(path, name) =>
        var held := HeldRow(st, path, name);
        if held.Some? { HeldRowIsHeld(st, path, name); DeleteLinkIsQuiet(st, held.value.pkg, st.byPath[path]); }
      case Forget(path) =>
        if path in st.byPath { DeleteProjectIsQuiet(st, st.byPath[path]); }
      case _ =>
    }
    hide *;
  }

  lemma SetTagCommandIsQuiet(st: State, name: string, tag: string, hash: string)
    requires Valid(st)
    ensures Quiet(st, Committed(st, LinkStore.SetTag(st, name, tag, hash)))
  {
    hide Valid, Core, FindByHash, SetTagTx, Quiet;
    QuietSelf(st);
    ContentLookup(st, name, hash);
    var found := FindByHash(st.packages, name, hash);
    if found.Some? {
      ValidParts(st);
      SetTagTxIsQuiet(st, name, tag, hash, found.value.id);
    }
  }

  lemma ApplyKeepsApart(st: State, command: Command)
    requires Valid(st) && FilesApart(st) && Legal(command)
    ensures FilesApart(Apply(st, command)) && IsOnward(st, Apply(st, command))
  {
    hide Valid, FilesApart, Quiet, IsOnward;
    QuietSelf(st);
    match command {
      case Publish(pkg, rows, tag) => PublishKeepsApart(st, pkg, rows, tag);
      case SetTag(name, tag, hash) => SetTagCommandIsQuiet(st, name, tag, hash);
      case DeleteTag(name, tag) => DeleteTagIsQuiet(st, name, tag);
      case Pull(path, name, version, hash) => PullIsQuiet(st, path, name, version, hash);
      case Collect(ids, opts) => if Gc.Listing(st, ids) { CollectIsQuiet(st, ids, opts); }
      case _ => LinkCommandsAreQuiet(st, command);
    }
    hide *;
    if !command.Publish? {
      QuietKeepsApart(st, Apply(st, command));
      QuietIsOnward(st, Apply(st, command));
    }
  }

  lemma DeleteTagIsQuiet(st: State, name: string, tag: string)
    ensures Quiet(st, Committed(st, LinkStore.DeleteTag(st, name, tag)))
  {
  }

  /** Over any run every ID is issued once: the records' IDs differ from each other and from
      every file row's, file rows' IDs differ from each other, all lie below the counter, the
      counter never falls, and an ID that comes into use lies at or past where it stood. */
  lemma {:induction false} EveryIDIsIssuedOnce(st: State, commands: seq<Command>)
    requires Valid(st) && FilesApart(st) && AllLegal(commands)
    ensures Valid(Run(st, commands)) && FilesApart(Run(st, commands))
    ensures IsOnward(st, Run(st, commands))
    decreases |commands|
  {
    hide Valid, FilesApart, Apply, Legal, IsOnward;
    if commands == [] {
      QuietSelf(st);
      QuietIsOnward(st, st);
    } else {
      ApplyKeepsValid(st, commands[0]);
      ApplyKeepsApart(st, commands[0]);
      EveryIDIsIssuedOnce(Apply(st, commands[0]), commands[1..]);
      OnwardTrans(st, Apply(st, commands[0]), Run(Apply(st, commands[0]), commands[1..]));
    }
  }

  lemma EmptyStoreIsApart()
    ensures Valid(EMPTY) && FilesApart(EMPTY)
  {
    EmptyStoreIsValid();
  }

  lemma UsedIsBelow(st: State, id: nat)
    requires Valid(st) && FilesApart(st) && IsUsed(st, id)
    ensures id < st.nextID
  {
  }

  /** An ID a deletion frees is never issued again, whatever runs follow. */
  lemma FreedIDsStayFree(st: State, before: seq<Command>, after: seq<Command>, id: nat)
    requires Valid(st) && FilesApart(st) && AllLegal(before) && AllLegal(after)
    requires IsUsed(st, id) && !IsUsed(Run(st, before), id)
    ensures !IsUsed(Run(Run(st, before), after), id)
  {
    hide Valid, FilesApart, Run, AllLegal, IsUsed;
    UsedIsBelow(st, id);
    EveryIDIsIssuedOnce(st, before);
    EveryIDIsIssuedOnce(Run(st, before), after);
  }
}
