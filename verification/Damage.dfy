/** A store with unreadable link rows and index entries: no command widens the damage. */
module Damage {
  import opened Wrappers
  import opened LinkStore
  import opened LinkIndexes
  import opened StoreRuns
  import AddSpec
  import Gc

  /** All that is asked of a damaged store: a row that decodes is stored under its own
      ID, and the counter is ahead of every row. */
  ghost predicate Numbered(st: State) {
    forall id :: id in st.links ==> id < st.nextID && (st.links[id].Readable? ==> st.links[id].value.id == id)
  }

  predicate Unreadable(links: LinkMap, id: nat) {
    id in links && links[id].Damaged?
  }

  /** Every unreadable entry stays as it was, and every entry that lists an unreadable
      row goes on listing it. */
  ghost predicate IndexKept(links: LinkMap, index: Index, index': Index) {
    && (forall key :: key in index && index[key].Damaged? ==> key in index' && index'[key] == index[key])
    && (forall key, id :: Unreadable(links, id) && Lists(index, key, id) ==> Lists(index', key, id))
  }

  ghost predicate RowsKept(links: LinkMap, links': LinkMap) {
    forall id :: Unreadable(links, id) ==> id in links' && links'[id] == links[id]
  }

  ghost predicate DamageKept(st: State, st': State) {
    && RowsKept(st.links, st'.links)
    && IndexKept(st.links, st.linksByPackage, st'.linksByPackage)
    && IndexKept(st.links, st.linksByProject, st'.linksByProject)
  }

  lemma DamageKeptThrough(a: State, b: State, c: State)
    requires DamageKept(a, b) && DamageKept(b, c)
    ensures DamageKept(a, c)
  {
    forall id | Unreadable(a.links, id) ensures Unreadable(b.links, id) {}
  }

  lemma SameRowsKeepDamage(st: State, st': State)
    requires Numbered(st) && st'.nextID == st.nextID && st'.links == st.links
    requires st'.linksByPackage == st.linksByPackage && st'.linksByProject == st.linksByProject
    ensures Numbered(st') && DamageKept(st, st')
  {
  }

  // ---------------------------------------------------------------- rows and entries

  lemma ScrubKeepsIndex(links: LinkMap, index: Index, key: nat, id: nat)
    requires !Unreadable(links, id) && RemoveIDFromIndex(index, key, id).Ok?
    ensures IndexKept(links, index, RemoveIDFromIndex(index, key, id).value)
  {
    WithoutSpec(IndexIDs(index, key).value, id);
  }

  lemma DeleteRowKeepsDamage(st: State, id: nat, pkg: nat, proj: nat)
    requires Numbered(st) && !Unreadable(st.links, id) && DeleteLinkRow(st, id, pkg, proj).Ok?
    ensures Numbered(DeleteLinkRow(st, id, pkg, proj).value)
    ensures DamageKept(st, DeleteLinkRow(st, id, pkg, proj).value)
  {
    ScrubKeepsIndex(st.links, st.linksByPackage, pkg, id);
    ScrubKeepsIndex(st.links, st.linksByProject, proj, id);
  }

  lemma PutKeepsIndex(links: LinkMap, index: Index, key: nat, ids: seq<nat>)
    requires IndexIDs(index, key).Ok?
    requires forall id :: Unreadable(links, id) && id in IndexIDs(index, key).value ==> id in ids
    ensures IndexKept(links, index, PutIndexIDs(index, key, ids))
  {
  }

  // ---------------------------------------------------------------- a tag move

  /** The unreadable rows of the source stay on it, and those already on the
      destination stay there. */
  ghost predicate MoveKeeps(m: Moving, ids: seq<nat>, m': Moving) {
    && RowsKept(m.links, m'.links)
    && IndexKept(m.links, m.byProject, m'.byProject)
    && (forall id :: id in m.stay ==> id in m'.stay)
    && (forall id :: id in m.arrived ==> id in m'.arrived)
    && (forall id :: id in ids && Unreadable(m.links, id) ==> id in m'.stay)
    && (forall id :: id in m'.links ==> id in m.links)
    && (forall id | id in m'.links && m'.links[id].Readable? ::
          m.links[id].Readable? && m'.links[id].value.id == m.links[id].value.id)
  }

  lemma MoveOneKeeps(m: Moving, id: nat, to: nat, tag: string)
    requires MoveOne(m, id, to, tag).Ok?
    ensures MoveKeeps(m, [id], MoveOne(m, id, to, tag).value)
  {
    if Carried(m.links, id, tag) && m.links[id].value.proj in m.taken {
      ScrubKeepsIndex(m.links, m.byProject, m.links[id].value.proj, id);
    }
  }

  lemma {:induction false} MoveAllKeeps(m: Moving, ids: seq<nat>, to: nat, tag: string)
    requires MoveAll(m, ids, to, tag).Ok?
    ensures MoveKeeps(m, ids, MoveAll(m, ids, to, tag).value)
    decreases |ids|
  {
    if ids != [] {
      var m1 := MoveOne(m, ids[0], to, tag).value;
      MoveOneKeeps(m, ids[0], to, tag);
      MoveAllKeeps(m1, ids[1..], to, tag);
      hide MoveOne, MoveAll;
      assert ids == [ids[0]] + ids[1..];
      forall id | Unreadable(m.links, id) ensures Unreadable(m1.links, id) {}
    }
  }

  lemma MoveLinksKeepsDamage(st: State, from: nat, to: nat, tag: string)
    requires Numbered(st) && from != to && MoveLinks(st, from, to, tag).Ok?
    ensures Numbered(MoveLinks(st, from, to, tag).value)
    ensures DamageKept(st, MoveLinks(st, from, to, tag).value)
  {
    var fromIDs := IndexIDs(st.linksByPackage, from).value;
    if fromIDs != [] {
      var toIDs := IndexIDs(st.linksByPackage, to).value;
      var m := Moving(st.links, st.linksByProject, ProjectsOf(st.links, toIDs), [], toIDs);
      MoveAllKeeps(m, fromIDs, to, tag);
      var m' := MoveAll(m, fromIDs, to, tag).value;
      hide MoveAll;
      PutKeepsIndex(st.links, st.linksByPackage, from, m'.stay);
      var half := PutIndexIDs(st.linksByPackage, from, m'.stay);
      PutKeepsIndex(st.links, half, to, m'.arrived);
    }
  }

  lemma SetTagKeepsDamage(st: State, name: string, tag: string, hash: string, id: nat)
    requires Numbered(st) && SetTagTx(st, name, tag, hash, id).Ok?
    ensures Numbered(SetTagTx(st, name, tag, hash, id).value)
    ensures DamageKept(st, SetTagTx(st, name, tag, hash, id).value)
    decreases if NamedTag(tag) == DEFAULT_TAG then 0 else 1
  {
    var named := NamedTag(tag);
    var tagged := st.(tags := st.tags[TagKey(name, named) := hash]);
    var indexed := tagged;
    if named == DEFAULT_TAG {
      indexed := tagged.(byName := tagged.byName[name := id]);
    } else if name !in tagged.byName {
      SetTagKeepsDamage(tagged, name, DEFAULT_TAG, hash, id);
      indexed := SetTagTx(tagged, name, DEFAULT_TAG, hash, id).value;
    }
    var previous := Superseded(st, name, named, hash);
    if previous.Some? && previous.value.id != id {
      assert SetTagTx(st, name, tag, hash, id) == MoveLinks(indexed, previous.value.id, id, named);
      hide SetTagTx, MoveLinks, Superseded;
      MoveLinksKeepsDamage(indexed, previous.value.id, id, named);
      DamageKeptThrough(st, indexed, MoveLinks(indexed, previous.value.id, id, named).value);
    }
  }

  // ---------------------------------------------------------------- deletions

  lemma {:induction false} DropRowsKeepsDamage(st: State, ids: seq<nat>)
    requires Numbered(st) && DropRows(st, ids).Ok?
    ensures Numbered(DropRows(st, ids).value)
    ensures DamageKept(st, DropRows(st, ids).value)
    ensures DropRows(st, ids).value.linksByPackage == st.linksByPackage
    ensures forall id :: id in ids ==> !Unreadable(st.links, id)
    decreases |ids|
  {
    if ids != [] {
      var proj := st.links[ids[0]].value.proj;
      ScrubKeepsIndex(st.links, st.linksByProject, proj, ids[0]);
      var st1 := st.(links := st.links - {ids[0]},
          linksByProject := RemoveIDFromIndex(st.linksByProject, proj, ids[0]).value);
      DropRowsKeepsDamage(st1, ids[1..]);
      DamageKeptThrough(st, st1, DropRows(st1, ids[1..]).value);
      assert ids == [ids[0]] + ids[1..];
    }
  }

  lemma DeletePackageKeepsDamage(st: State, id: nat)
    requires Numbered(st) && DeletePackage(st, id).Ok?
    ensures Numbered(DeletePackage(st, id).value)
    ensures DamageKept(st, DeletePackage(st, id).value)
  {
    hide DropRows;
    var ids := IndexIDs(st.linksByPackage, id).value;
    var named := Unnamed(st, id);
    assert named == st.(tags := named.tags, byName := named.byName);
    DropRowsKeepsDamage(named, ids);
  }

  lemma {:induction false} DropProjectRowsKeepsDamage(st: State, ids: seq<nat>, proj: nat)
    requires Numbered(st) && DropProjectRows(st, ids, proj).Ok?
    ensures Numbered(DropProjectRows(st, ids, proj).value)
    ensures DamageKept(st, DropProjectRows(st, ids, proj).value)
    ensures forall id :: id in ids ==> !Unreadable(st.links, id)
    decreases |ids|
  {
    if ids != [] {
      assert ids == [ids[0]] + ids[1..];
      if ids[0] !in st.links {
        DropProjectRowsKeepsDamage(st, ids[1..], proj);
      } else {
        var pkg := st.links[ids[0]].value.pkg;
        DeleteRowKeepsDamage(st, ids[0], pkg, proj);
        var st1 := DeleteLinkRow(st, ids[0], pkg, proj).value;
        assert st1.links == st.links - {ids[0]};
        hide DeleteLinkRow;
        DropProjectRowsKeepsDamage(st1, ids[1..], proj);
        DamageKeptThrough(st, st1, DropProjectRows(st1, ids[1..], proj).value);
      }
    }
  }

  lemma DeleteProjectKeepsDamage(st: State, id: nat)
    requires Numbered(st) && DeleteProject(st, id).Ok?
    ensures Numbered(DeleteProject(st, id).value)
    ensures DamageKept(st, DeleteProject(st, id).value)
  {
    hide DropProjectRows;
    var ids := IndexIDs(st.linksByProject, id).value;
    var unpathed := Unpathed(st, id);
    assert unpathed == st.(byPath := unpathed.byPath);
    DropProjectRowsKeepsDamage(unpathed, ids, id);
    var dropped := DropProjectRows(unpathed, ids, id).value;
    ForgottenKeyListsNothing(st.links, st.linksByProject, dropped.linksByProject, id);
  }

  lemma ForgottenKeyListsNothing(links: LinkMap, index: Index, index': Index, id: nat)
    requires IndexIDs(index, id).Ok? && IndexKept(links, index, index')
    requires forall l :: l in IndexIDs(index, id).value ==> !Unreadable(links, l)
    ensures IndexKept(links, index, index' - {id})
  {
  }

  lemma DeleteLinkKeepsDamage(st: State, pkg: nat, proj: nat)
    requires Numbered(st) && DeleteLink(st, pkg, proj).Ok?
    ensures Numbered(DeleteLink(st, pkg, proj).value)
    ensures DamageKept(st, DeleteLink(st, pkg, proj).value)
  {
    if FindLink(st.links, pkg, proj).Some? {
      var id: nat :| LastJoin(st.links, id, pkg, proj) && FindLink(st.links, pkg, proj).value == st.links[id].value;
      hide FindLink;
      DeleteRowKeepsDamage(st, id, pkg, proj);
    }
  }

  // ---------------------------------------------------------------- inserts

  lemma {:induction false} SupersedeKeepsDamage(st: State, ids: seq<nat>, link: Link, name: string, updated: bool)
    requires Numbered(st) && Supersede(st, ids, link, name, updated).Ok?
    ensures Numbered(Supersede(st, ids, link, name, updated).value.0)
    ensures DamageKept(st, Supersede(st, ids, link, name, updated).value.0)
    decreases |ids|
  {
    if ids != [] {
      if ids[0] !in st.links || st.links[ids[0]].Damaged? {
        SupersedeKeepsDamage(st, ids[1..], link, name, updated);
      } else {
        var row := st.links[ids[0]].value;
        if row.pkg == link.pkg {
          var row' := row.(kind := link.kind, tag := link.tag, pinned := link.pinned);
          var st1 := st.(links := st.links[row.id := Readable(row')]);
          assert DamageKept(st, st1) && Numbered(st1);
          SupersedeKeepsDamage(st1, ids[1..], link, name, true);
          DamageKeptThrough(st, st1, Supersede(st1, ids[1..], link, name, true).value.0);
        } else if name != "" && PackageName(st.packages, row.pkg) == name {
          DeleteRowKeepsDamage(st, row.id, row.pkg, row.proj);
          var st1 := DeleteLinkRow(st, row.id, row.pkg, row.proj).value;
          hide DeleteLinkRow;
          SupersedeKeepsDamage(st1, ids[1..], link, name, updated);
          DamageKeptThrough(st, st1, Supersede(st1, ids[1..], link, name, updated).value.0);
        } else {
          SupersedeKeepsDamage(st, ids[1..], link, name, updated);
        }
      }
    }
  }

  lemma AppendKeepsDamage(st: State, link: Link)
    requires Numbered(st) && AppendLink(st, link).Ok?
    ensures Numbered(AppendLink(st, link).value)
    ensures DamageKept(st, AppendLink(st, link).value)
  {
    assert st.nextID !in st.links;
  }

  lemma InsertLinkKeepsDamage(st: State, link: Link)
    requires Numbered(st) && InsertLink(st, link).Ok?
    ensures Numbered(InsertLink(st, link).value)
    ensures DamageKept(st, InsertLink(st, link).value)
  {
    var ids := IndexIDs(st.linksByProject, link.proj).value;
    var name := PackageName(st.packages, link.pkg);
    SupersedeKeepsDamage(st, ids, link, name, false);
    var (st1, updated) := Supersede(st, ids, link, name, false).value;
    if !updated {
      AppendKeepsDamage(st1, link);
      hide Supersede, AppendLink;
      DamageKeptThrough(st, st1, AppendLink(st1, link).value);
    }
  }

  lemma PublishKeepsDamage(st: State, pkg: Package, rows: seq<FileRow>, tag: string)
    requires Numbered(st) && InsertPackageWithFiles(st, pkg, rows, tag).Ok?
    ensures Numbered(InsertPackageWithFiles(st, pkg, rows, tag).value)
    ensures DamageKept(st, InsertPackageWithFiles(st, pkg, rows, tag).value)
  {
    var found := FindByHash(st.packages, pkg.name, pkg.hash);
    var id := if found.Some? then found.value.id else st.nextID;
    var recorded :=
      if found.Some? then
        st.(packages := st.packages[id := Readable(found.value.(version := pkg.version, updatedAt := pkg.updatedAt))])
      else st.(nextID := id + 1, packages := st.packages[id := Readable(pkg.(id := id))]);
    assert Numbered(recorded) && DamageKept(st, recorded);
    assert SetTagTx(recorded, pkg.name, tag, pkg.hash, id).Ok?;
    assert InsertPackageWithFiles(st, pkg, rows, tag)
      == Ok(InsertFilesTx(SetTagTx(recorded, pkg.name, tag, pkg.hash, id).value, id, rows));
    hide SetTagTx, FindByHash, InsertPackageWithFiles;
    SetTagKeepsDamage(recorded, pkg.name, tag, pkg.hash, id);
    DamageKeptThrough(st, recorded, SetTagTx(recorded, pkg.name, tag, pkg.hash, id).value);
  }

  // ---------------------------------------------------------------- whole runs

  lemma ConsumeKeepsDamage(st: State, path: string, manager: string, link: Link)
    requires Numbered(st)
    ensures Numbered(Consume(st, path, manager, link)) && DamageKept(st, Consume(st, path, manager, link))
  {
    var (registered, proj) := InsertProject(st, path, manager);
    assert Numbered(registered) && DamageKept(st, registered);
    var outcome := InsertLink(registered, link.(proj := proj));
    if outcome.Ok? {
      InsertLinkKeepsDamage(registered, link.(proj := proj));
      hide InsertLink, InsertProject;
      DamageKeptThrough(st, registered, outcome.value);
    }
  }

  lemma {:induction false} UnlinkingKeepsDamage(st: State, joins: seq<Gc.Join>)
    requires Numbered(st)
    ensures Numbered(Gc.RemoveOrphanedLinks(st, joins)) && DamageKept(st, Gc.RemoveOrphanedLinks(st, joins))
    decreases |joins|
  {
    hide DeleteLink;
    if joins != [] {
      var deleted := DeleteLink(st, joins[0].pkg, joins[0].proj);
      if deleted.Ok? { DeleteLinkKeepsDamage(st, joins[0].pkg, joins[0].proj); }
      var st1 := Committed(st, deleted);
      UnlinkingKeepsDamage(st1, joins[1..]);
      DamageKeptThrough(st, st1, Gc.RemoveOrphanedLinks(st1, joins[1..]));
    }
  }

  lemma {:induction false} CollectingKeepsDamage(st: State, ids: seq<nat>, stuck: set<nat>)
    requires Numbered(st)
    ensures Numbered(Gc.RemovePackages(st, ids, stuck)) && DamageKept(st, Gc.RemovePackages(st, ids, stuck))
    decreases |ids|
  {
    hide DeletePackage;
    if ids != [] {
      var deleted := DeletePackage(st, ids[0]);
      if deleted.Ok? { DeletePackageKeepsDamage(st, ids[0]); }
      var st1 := if ids[0] !in stuck && deleted.Ok? then deleted.value else st;
      CollectingKeepsDamage(st1, ids[1..], stuck);
      DamageKeptThrough(st, st1, Gc.RemovePackages(st1, ids[1..], stuck));
    }
  }

  lemma CollectKeepsDamage(st: State, ids: seq<nat>, opts: Gc.Options)
    requires Numbered(st) && Gc.Listing(st, ids)
    ensures Numbered(Committed(st, Gc.Run(st, ids, opts))) && DamageKept(st, Committed(st, Gc.Run(st, ids, opts)))
  {
    hide DamageKept, Numbered, Gc.RemovePackages, Gc.RemoveOrphanedLinks, Gc.Scan;
    SameRowsKeepDamage(st, st);
    var plan := Gc.Scan(st, Gc.Plan([], []), ids, opts);
    if plan.Ok? && !opts.dryRun {
      var unlinked := if opts.fixLinks && opts.confirmLinks then Gc.RemoveOrphanedLinks(st, plan.value.links) else st;
      UnlinkingKeepsDamage(st, plan.value.links);
      CollectingKeepsDamage(unlinked, plan.value.packages, opts.stuck);
      DamageKeptThrough(st, unlinked, Gc.RemovePackages(unlinked, plan.value.packages, opts.stuck));
    }
  }

  lemma PullKeepsDamage(st: State, path: string, name: string, version: string, hash: string)
    requires Numbered(st)
    ensures Numbered(PullOne(st, path, name, version, hash)) && DamageKept(st, PullOne(st, path, name, version, hash))
  {
    hide HeldRow, ResolveTag, GetPackageByName, InsertLink;
    var held := HeldRow(st, path, name);
    if held.Some? && !held.value.pinned {
      var found :=
        if held.value.Channel() != DEFAULT_TAG then ResolveTag(st, name, held.value.tag)
        else if GetPackageByName(st, name).Ok? then GetPackageByName(st, name).value else None;
      if found.Some? && InsertLink(st, held.value.(pkg := found.value.id)).Ok? {
        InsertLinkKeepsDamage(st, held.value.(pkg := found.value.id));
      }
    }
  }

  lemma AddKeepsDamage(st: State, path: string, manager: string, name: string, requested: string, kind: string)
    requires Numbered(st)
    ensures Numbered(AddOne(st, path, manager, name, requested, kind))
    ensures DamageKept(st, AddOne(st, path, manager, name, requested, kind))
  {
    hide Consume, AddSpec.ResolveAddSpec;
    var found := AddSpec.ResolveAddSpec(st, name, requested);
    if found.Ok? && found.value.Some? {
      ConsumeKeepsDamage(st, path, manager, AddSpec.LinkFor(found.value.value, 0, kind));
    }
  }

  lemma RestoreKeepsDamage(st: State, path: string, manager: string, name: string, hash: string, kind: string,
                           pinned: bool)
    requires Numbered(st)
    ensures Numbered(RestoreOne(st, path, manager, name, hash, kind, pinned))
    ensures DamageKept(st, RestoreOne(st, path, manager, name, hash, kind, pinned))
  {
    hide Consume, RestoredBuild;
    var found := RestoredBuild(st, name, hash);
    if found.Some? { ConsumeKeepsDamage(st, path, manager, Link(0, found.value.id, 0, kind, "", pinned)); }
  }

  lemma RemoveKeepsDamage(st: State, path: string, name: string)
    requires Numbered(st)
    ensures Numbered(RemoveOne(st, path, name)) && DamageKept(st, RemoveOne(st, path, name))
  {
    var held := HeldRow(st, path, name);
    if held.Some? {
      hide DeleteLink;
      if DeleteLink(st, held.value.pkg, st.byPath[path]).Ok? {
        DeleteLinkKeepsDamage(st, held.value.pkg, st.byPath[path]);
      }
    }
  }

  lemma ForgetKeepsDamage(st: State, path: string)
    requires Numbered(st)
    ensures Numbered(ForgetOne(st, path)) && DamageKept(st, ForgetOne(st, path))
  {
    hide DeleteProject;
    if path in st.byPath && DeleteProject(st, st.byPath[path]).Ok? { DeleteProjectKeepsDamage(st, st.byPath[path]); }
  }

  lemma RetagKeepsDamage(st: State, name: string, tag: string, hash: string)
    requires Numbered(st)
    ensures Numbered(Committed(st, LinkStore.SetTag(st, name, tag, hash)))
    ensures DamageKept(st, Committed(st, LinkStore.SetTag(st, name, tag, hash)))
  {
    hide SetTagTx, FindByHash;
    var found := FindByHash(st.packages, name, hash);
    if found.Some? && SetTagTx(st, name, tag, hash, found.value.id).Ok? {
      SetTagKeepsDamage(st, name, tag, hash, found.value.id);
    }
  }

  lemma RepublishKeepsDamage(st: State, pkg: Package, rows: seq<FileRow>, tag: string)
    requires Numbered(st)
    ensures Numbered(Committed(st, InsertPackageWithFiles(st, pkg, rows, tag)))
    ensures DamageKept(st, Committed(st, InsertPackageWithFiles(st, pkg, rows, tag)))
  {
    hide InsertPackageWithFiles;
    if InsertPackageWithFiles(st, pkg, rows, tag).Ok? { PublishKeepsDamage(st, pkg, rows, tag); }
  }

  lemma UntagKeepsDamage(st: State, name: string, tag: string)
    requires Numbered(st)
    ensures Numbered(Committed(st, LinkStore.DeleteTag(st, name, tag)))
    ensures DamageKept(st, Committed(st, LinkStore.DeleteTag(st, name, tag)))
  {
    hide Numbered, DamageKept, TagKey;
    SameRowsKeepDamage(st, Committed(st, LinkStore.DeleteTag(st, name, tag)));
  }

  /** One command, whether it commits or is refused, leaves every unreadable row and
      entry as it was and every unreadable row as indexed as it was. */
  lemma ApplyKeepsDamage(st: State, command: Command)
    requires Numbered(st)
    ensures Numbered(Apply(st, command))
    ensures DamageKept(st, Apply(st, command))
  {
    hide DamageKept, Numbered, AddOne, RestoreOne, RemoveOne, ForgetOne, PullOne, Gc.Run, LinkStore.SetTag,
         LinkStore.DeleteTag, InsertPackageWithFiles;
    SameRowsKeepDamage(st, st);
    match command {
      case Publish(pkg, rows, tag) => RepublishKeepsDamage(st, pkg, rows, tag);
      case SetTag(name, tag, hash) => RetagKeepsDamage(st, name, tag, hash);
      case DeleteTag(name, tag) => UntagKeepsDamage(st, name, tag);
      case Add(path, manager, name, requested, kind) => AddKeepsDamage(st, path, manager, name, requested, kind);
      case Restore(path, manager, name, hash, kind, pinned) =>
        RestoreKeepsDamage(st, path, manager, name, hash, kind, pinned);
      case Remove(path, name) => RemoveKeepsDamage(st, path, name);
      case Forget(path) => ForgetKeepsDamage(st, path);
      case Pull(path, name, version, hash) => PullKeepsDamage(st, path, name, version, hash);
      case Collect(ids, opts) => if Gc.Listing(st, ids) { CollectKeepsDamage(st, ids, opts); }
    }
  }

  /** No run of commands loses an unreadable row or entry, or stops indexing one. */
  lemma {:induction false} DamageIsNeverWidened(st: State, commands: seq<Command>)
    requires Numbered(st)
    ensures DamageKept(st, Run(st, commands))
    decreases |commands|
  {
    if commands != [] {
      ApplyKeepsDamage(st, commands[0]);
      hide Apply, Numbered;
      DamageIsNeverWidened(Apply(st, commands[0]), commands[1..]);
      DamageKeptThrough(st, Apply(st, commands[0]), Run(st, commands));
    }
  }
}
