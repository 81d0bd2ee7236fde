/** How far damage reaches: for any store, however damaged, exactly which deletions and listings
    go through. */
module DamageLimits {
  import opened Wrappers
  import opened LinkStore
  import opened LinkIndexes
  import opened AddSpec
  import Gc

  predicate CanRead(index: Index, key: nat) {
    key !in index || index[key].Readable?
  }

  lemma ScrubGoesThrough(index: Index, key: nat, id: nat)
    ensures RemoveIDFromIndex(index, key, id).Ok? <==> CanRead(index, key)
    ensures CanRead(index, key) ==>
              forall k :: CanRead(RemoveIDFromIndex(index, key, id).value, k) <==> CanRead(index, k)
  {
    hide Without;
  }

  // ---------------------------------------------------------------- forgetting a project

  /** A listed row that stops nothing: it is not there, or it and the entries naming it are read. */
  predicate IsForgettable(st: State, id: nat, proj: nat) {
    id !in st.links
    || (st.links[id].Readable? && CanRead(st.linksByPackage, st.links[id].value.pkg)
        && CanRead(st.linksByProject, proj))
  }

  lemma {:induction false} RowsAreForgotten(st: State, ids: seq<nat>, proj: nat)
    ensures DropProjectRows(st, ids, proj).Ok? <==> forall id :: id in ids ==> IsForgettable(st, id, proj)
    decreases |ids|
  {
    hide RemoveIDFromIndex;
    if ids != [] {
      assert ids == [ids[0]] + ids[1..] && ids[0] in ids;
      if ids[0] !in st.links {
        RowsAreForgotten(st, ids[1..], proj);
      } else if IsForgettable(st, ids[0], proj) {
        var pkg := st.links[ids[0]].value.pkg;
        ScrubGoesThrough(st.linksByPackage, pkg, ids[0]);
        ScrubGoesThrough(st.linksByProject, proj, ids[0]);
        var next := DeleteLinkRow(st, ids[0], pkg, proj).value;
        RowsAreForgotten(next, ids[1..], proj);
        assert forall id :: id != ids[0] ==> (IsForgettable(next, id, proj) <==> IsForgettable(st, id, proj));
        assert IsForgettable(next, ids[0], proj);
      } else {
        if st.links[ids[0]].Readable? {
          ScrubGoesThrough(st.linksByPackage, st.links[ids[0]].value.pkg, ids[0]);
          ScrubGoesThrough(st.linksByProject, proj, ids[0]);
        }
      }
    }
  }

  /** A project is forgotten exactly when its entry can be read and so can every row the entry
      names that is there, and the entry of the build each such row is on. */
  lemma ProjectIsForgotten(st: State, id: nat)
    ensures DeleteProject(st, id).Ok? <==>
              CanRead(st.linksByProject, id)
              && forall l :: l in IndexIDs(st.linksByProject, id).Extract() ==> IsForgettable(st, l, id)
  {
    hide DropProjectRows;
    if CanRead(st.linksByProject, id) {
      var ids := IndexIDs(st.linksByProject, id).value;
      RowsAreForgotten(Unpathed(st, id), ids, id);
      assert forall l :: IsForgettable(Unpathed(st, id), l, id) <==> IsForgettable(st, l, id);
    }
  }

  // ---------------------------------------------------------------- collecting a build

  /** A listed row that stops nothing: it is there and read, and so is its project's entry. */
  predicate IsDroppable(st: State, id: nat) {
    id in st.links && st.links[id].Readable? && CanRead(st.linksByProject, st.links[id].value.proj)
  }

  lemma {:induction false} RowsAreDropped(st: State, ids: seq<nat>)
    ensures DropRows(st, ids).Ok? <==> NoDuplicates(ids) && forall id :: id in ids ==> IsDroppable(st, id)
    decreases |ids|
  {
    hide RemoveIDFromIndex;
    if ids != [] {
      assert ids == [ids[0]] + ids[1..] && ids[0] in ids;
      if IsDroppable(st, ids[0]) {
        var proj := st.links[ids[0]].value.proj;
        ScrubGoesThrough(st.linksByProject, proj, ids[0]);
        var byProject := RemoveIDFromIndex(st.linksByProject, proj, ids[0]).value;
        var next := st.(links := st.links - {ids[0]}, linksByProject := byProject);
        RowsAreDropped(next, ids[1..]);
        assert forall id :: id != ids[0] ==> (IsDroppable(next, id) <==> IsDroppable(st, id));
        assert !IsDroppable(next, ids[0]);
      } else if ids[0] in st.links && st.links[ids[0]].Readable? {
        ScrubGoesThrough(st.linksByProject, st.links[ids[0]].value.proj, ids[0]);
      }
    }
  }

  /** A build is collected exactly when its entry can be read, names no row twice, and names only
      rows that are there and can be read, each of a project whose entry can be. */
  lemma BuildIsCollected(st: State, id: nat)
    ensures DeletePackage(st, id).Ok? <==>
              CanRead(st.linksByPackage, id) && NoDuplicates(IndexIDs(st.linksByPackage, id).Extract())
              && forall l :: l in IndexIDs(st.linksByPackage, id).Extract() ==> IsDroppable(st, l)
  {
    hide DropRows;
    if CanRead(st.linksByPackage, id) {
      var ids := IndexIDs(st.linksByPackage, id).value;
      RowsAreDropped(Unnamed(st, id), ids);
      assert forall l :: IsDroppable(Unnamed(st, id), l) <==> IsDroppable(st, l);
    }
  }

  // ---------------------------------------------------------------- listing

  /** A project's rows are listed unless its entry, or a row it names, is there and unreadable. */
  lemma {:induction false} HeldRowsAreListed(links: LinkMap, ids: seq<nat>)
    ensures HeldRows(links, ids).Ok? <==> forall id :: id in ids && id in links ==> links[id].Readable?
  {
    if ids != [] {
      HeldRowsAreListed(links, ids[1..]);
      assert ids == [ids[0]] + ids[1..];
    }
  }

  // ---------------------------------------------------------------- moving a tag

  lemma {:induction false} RowsAreMoved(m: Moving, ids: seq<nat>, to: nat, tag: string)
    requires forall proj :: CanRead(m.byProject, proj)
    ensures var moved := MoveAll(m, ids, to, tag);
            && moved.Ok? && (forall id :: id in m.stay ==> id in moved.value.stay)
            && (forall id :: id in m.links && m.links[id].Damaged? ==>
                  id in moved.value.links && moved.value.links[id] == m.links[id]
                  && (id in ids ==> id in moved.value.stay))
    decreases |ids|
  {
    hide RemoveIDFromIndex, CanRead;
    if ids != [] {
      assert ids == [ids[0]] + ids[1..];
      if Carried(m.links, ids[0], tag) {
        ScrubGoesThrough(m.byProject, m.links[ids[0]].value.proj, ids[0]);
      }
      RowsAreMoved(MoveOne(m, ids[0], to, tag).value, ids[1..], to, tag);
    }
  }

  lemma StaysListed(index: Index, from: nat, to: nat, stay: seq<nat>, arrived: seq<nat>)
    requires from != to
    ensures IndexIDs(PutIndexIDs(PutIndexIDs(index, from, stay), to, arrived), from) == Ok(stay)
  {
  }

  /** The row is as it was, and still listed under the build. */
  predicate IsStill(st: State, st': State, pkg: nat, id: nat) {
    && id in st.links && id in st'.links && st'.links[id] == st.links[id]
    && IndexIDs(st'.linksByPackage, pkg).Ok? && id in IndexIDs(st'.linksByPackage, pkg).value
  }

  /** With the projects' entries read, a tag moves exactly when the entry of the build it leaves
      can be read and, if it names any row, that of the build it goes to. A row that cannot be
      read stops nothing: it stays where it is, still listed. */
  lemma TagIsMoved(st: State, from: nat, to: nat, tag: string)
    requires from != to && forall proj :: CanRead(st.linksByProject, proj)
    ensures MoveLinks(st, from, to, tag).Ok? <==>
              CanRead(st.linksByPackage, from)
              && (IndexIDs(st.linksByPackage, from) == Ok([]) || CanRead(st.linksByPackage, to))
    ensures MoveLinks(st, from, to, tag).Ok? ==>
              forall id :: id in IndexIDs(st.linksByPackage, from).value && id in st.links && st.links[id].Damaged? ==>
                IsStill(st, MoveLinks(st, from, to, tag).value, from, id)
  {
    hide MoveAll, ProjectsOf, PutIndexIDs;
    if CanRead(st.linksByPackage, from) && CanRead(st.linksByPackage, to) {
      var ids, toIDs := IndexIDs(st.linksByPackage, from).value, IndexIDs(st.linksByPackage, to).value;
      var m := Moving(st.links, st.linksByProject, ProjectsOf(st.links, toIDs), [], toIDs);
      RowsAreMoved(m, ids, to, tag);
      var moved := MoveAll(m, ids, to, tag).value;
      StaysListed(st.linksByPackage, from, to, moved.stay, moved.arrived);
    }
  }

  // ---------------------------------------------------------------- recording a link

  lemma {:induction false} RowsAreSuperseded(st: State, ids: seq<nat>, link: Link, name: string, updated: bool)
    requires (forall pkg :: CanRead(st.linksByPackage, pkg)) && forall proj :: CanRead(st.linksByProject, proj)
    ensures var superseded := Supersede(st, ids, link, name, updated);
            && superseded.Ok? && (forall pkg :: CanRead(superseded.value.0.linksByPackage, pkg))
            && (forall proj :: CanRead(superseded.value.0.linksByProject, proj))
    decreases |ids|
  {
    hide RemoveIDFromIndex, CanRead, PackageName;
    if ids != [] {
      if ids[0] in st.links && st.links[ids[0]].Readable? {
        var row := st.links[ids[0]].value;
        ScrubGoesThrough(st.linksByPackage, row.pkg, row.id);
        ScrubGoesThrough(st.linksByProject, row.proj, row.id);
        var row' := row.(kind := link.kind, tag := link.tag, pinned := link.pinned);
        RowsAreSuperseded(st.(links := st.links[row.id := Readable(row')]), ids[1..], link, name, true);
        if DeleteLinkRow(st, row.id, row.pkg, row.proj).Ok? {
          RowsAreSuperseded(DeleteLinkRow(st, row.id, row.pkg, row.proj).value, ids[1..], link, name, updated);
        }
      }
      RowsAreSuperseded(st, ids[1..], link, name, updated);
    }
  }

  /** With the other entries read, a link is recorded exactly when its project's entry can be
      read, whatever rows and records cannot. */
  lemma LinkIsRecorded(st: State, link: Link)
    requires (forall pkg :: CanRead(st.linksByPackage, pkg))
    requires forall proj :: proj != link.proj ==> CanRead(st.linksByProject, proj)
    ensures InsertLink(st, link).Ok? <==> CanRead(st.linksByProject, link.proj)
  {
    hide Supersede, PackageName;
    if CanRead(st.linksByProject, link.proj) {
      var ids := IndexIDs(st.linksByProject, link.proj).value;
      RowsAreSuperseded(st, ids, link, PackageName(st.packages, link.pkg), false);
      var (next, _) := Supersede(st, ids, link, PackageName(st.packages, link.pkg), false).value;
      assert CanRead(next.linksByPackage, link.pkg) && CanRead(next.linksByProject, link.proj);
    }
  }

  // ---------------------------------------------------------------- a gc run

  /** A version a scan can answer for: its entry can be read, and every row the entry names is
      there and can be read, and so can the record of that row's project, if it has one. */
  predicate IsScannable(st: State, id: nat) {
    CanRead(st.linksByPackage, id) && forall l :: l in IndexIDs(st.linksByPackage, id).value ==> IsAnswered(st, l)
  }

  predicate IsAnswered(st: State, l: nat) {
    && l in st.links && st.links[l].Readable?
    && (st.links[l].value.proj in st.projects ==> st.projects[st.links[l].value.proj].Readable?)
  }

  lemma {:induction false} RowsAreAnswered(st: State, pkg: nat, ids: seq<nat>, gone: set<string>)
    ensures (RowsOf(st.links, ids).Ok? && Gc.OrphansOf(st.projects, pkg, RowsOf(st.links, ids).value, gone).Ok?) <==>
              forall l :: l in ids ==> IsAnswered(st, l)
  {
    if ids != [] {
      RowsAreAnswered(st, pkg, ids[1..], gone);
      assert ids == [ids[0]] + ids[1..] && ids[0] in ids;
      if RowsOf(st.links, ids).Ok? {
        assert RowsOf(st.links, ids).value[1..] == RowsOf(st.links, ids[1..]).value;
      }
    }
  }

  lemma {:induction false} VersionsAreScanned(st: State, plan: Gc.Plan, ids: seq<nat>, opts: Gc.Options)
    requires forall id :: id in ids ==> id in st.packages && st.packages[id].Readable?
    ensures Gc.Scan(st, plan, ids, opts).Ok? <==> forall id :: id in ids ==> IsScannable(st, id)
    decreases |ids|
  {
    hide Gc.OrphansOf, RowsOf, Gc.CountLinksForPackage, Gc.PinnedByTag, Gc.Young, TagsForPackage, IsAnswered;
    if ids != [] {
      assert ids == [ids[0]] + ids[1..] && ids[0] in ids;
      if CanRead(st.linksByPackage, ids[0]) {
        RowsAreAnswered(st, ids[0], IndexIDs(st.linksByPackage, ids[0]).value, opts.gone);
      }
      assert Gc.ScanOne(st, plan, ids[0], opts).Ok? <==> IsScannable(st, ids[0]);
      if IsScannable(st, ids[0]) { VersionsAreScanned(st, Gc.ScanOne(st, plan, ids[0], opts).value, ids[1..], opts); }
    }
  }

  /** A gc run goes through exactly when it can answer for every version it lists. */
  lemma RunGoesThrough(st: State, ids: seq<nat>, opts: Gc.Options)
    requires forall id :: id in ids ==> id in st.packages && st.packages[id].Readable?
    ensures Gc.Run(st, ids, opts).Ok? <==> forall id :: id in ids ==> IsScannable(st, id)
  {
    VersionsAreScanned(st, Gc.Plan([], []), ids, opts);
  }

  // ---------------------------------------------------------------- resolving a spec

  /** A spec is refused for damage when the record its name stands for cannot be read, or, if it
      asks for more than the name and is no tag of it, when any record cannot. */
  lemma SpecIsRefused(st: State, name: string, requested: string)
    ensures var found := ResolveAddSpec(st, name, requested);
            (found.Err? && found.error.RecordUnreadable?) <==>
              if requested == "" then
                name in st.byName && st.byName[name] in st.packages && st.packages[st.byName[name]].Damaged?
              else ResolveTag(st, name, requested).None?
                   && exists id :: id in st.packages && st.packages[id].Damaged?
  {
    hide ResolveTag, WithVersion, WithHash, Retained;
  }
}
