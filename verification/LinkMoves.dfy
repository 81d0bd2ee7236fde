/** Linking and unlinking: what an insert, a replacement and a delete of rows and
    records change, and that they keep every invariant of an undamaged store. */
module LinkMoves {
  import opened Wrappers
  import opened LinkStore
  import opened LinkIndexes
  import opened StoreInvariant

  // ---------------------------------------------------------------- one row

  lemma DeleteLinkRowKeepsCore(st: State, id: nat)
    requires Core(st) && id in st.links
    ensures DeleteLinkRow(st, id, st.links[id].value.pkg, st.links[id].value.proj).Ok?
    ensures var st' := DeleteLinkRow(st, id, st.links[id].value.pkg, st.links[id].value.proj).value;
            && st' == st.(links := st.links - {id}, linksByPackage := st'.linksByPackage,
                linksByProject := st'.linksByProject)
            && Core(st')
  {
    RemoveKeepsExact(st.linksByPackage, st.links, ByPackage, id);
    RemoveKeepsExact(st.linksByProject, st.links, ByProject, id);
  }

  ghost predicate Holds(st: State, id: nat, proj: nat, name: string) {
    && id in st.links && st.links[id].Readable?
    && st.links[id].value.proj == proj && PackageName(st.packages, st.links[id].value.pkg) == name
  }

  lemma AppendLinkKeepsCore(st: State, link: Link)
    requires Core(st) && link.pkg in st.packages && link.proj in st.projects
    requires forall id :: !Holds(st, id, link.proj, PackageName(st.packages, link.pkg))
    ensures AppendLink(st, link).Ok?
    ensures var st' := AppendLink(st, link).value;
            && st' == st.(nextID := st.nextID + 1, links := st.links[st.nextID := Readable(link.(id := st.nextID))],
                          linksByPackage := st'.linksByPackage, linksByProject := st'.linksByProject)
            && Core(st')
  {
    hide Core, Exact, OneRowPerName, AppendLink;
    var row := link.(id := st.nextID);
    CoreIsFresh(st);
    AppendKeepsExact(st.linksByPackage, st.links, ByPackage, st.nextID, row);
    AppendKeepsExact(st.linksByProject, st.links, ByProject, st.nextID, row);
    forall a | a in st.links
      ensures !(st.links[a].value.proj == row.proj &&
                PackageName(st.packages, st.links[a].value.pkg) == PackageName(st.packages, row.pkg))
    {
      assert !Holds(st, a, link.proj, PackageName(st.packages, link.pkg));
    }
    AppendKeepsOneRow(st.packages, st.links, st.nextID, row);
    AppendUnfolds(st, link);
    AppendedCore(st, link, AppendLink(st, link).value);
  }

  lemma CoreIsFresh(st: State)
    requires Core(st)
    ensures st.nextID !in st.links && st.nextID !in st.packages && st.nextID !in st.projects
    ensures AllReadable(st.links) && OneRowPerName(st.packages, st.links)
    ensures Exact(st.linksByPackage, st.links, ByPackage) && Exact(st.linksByProject, st.links, ByProject)
  {
    hide Exact, OneRowPerName, Versions;
  }

  lemma AppendUnfolds(st: State, link: Link)
    requires IndexIDs(st.linksByPackage, link.pkg).Ok? && IndexIDs(st.linksByProject, link.proj).Ok?
    ensures AppendLink(st, link) == Ok(st.(nextID := st.nextID + 1,
              links := st.links[st.nextID := Readable(link.(id := st.nextID))],
              linksByPackage := st.linksByPackage[link.pkg := Readable(IndexIDs(st.linksByPackage, link.pkg).value +
                  [st.nextID])],
              linksByProject := st.linksByProject[link.proj := Readable(IndexIDs(st.linksByProject, link.proj).value +
                  [st.nextID])]))
  {
  }

  lemma AppendedCore(st: State, link: Link, st': State)
    requires Core(st) && link.pkg in st.packages && link.proj in st.projects
    requires st' == st.(nextID := st.nextID + 1, links := st.links[st.nextID := Readable(link.(id := st.nextID))],
                        linksByPackage := st'.linksByPackage, linksByProject := st'.linksByProject)
    requires Exact(st'.linksByPackage, st'.links, ByPackage) && Exact(st'.linksByProject, st'.links, ByProject)
    requires AllReadable(st'.links) && OneRowPerName(st'.packages, st'.links)
    ensures Core(st')
  {
    hide Exact, OneRowPerName, Versions;
  }

  lemma AppendKeepsOneRow(packages: PackageMap, links: LinkMap, id: nat, row: Link)
    requires AllReadable(links) && OneRowPerName(packages, links) && id !in links
    requires forall a | a in links :: !(links[a].value.proj == row.proj &&
              PackageName(packages, links[a].value.pkg) == PackageName(packages, row.pkg))
    ensures OneRowPerName(packages, links[id := Readable(row)])
  {
  }

  // ---------------------------------------------------------------- InsertLink

  lemma {:induction false} SupersedeNothing(st: State, ids: seq<nat>, link: Link, name: string, updated: bool)
    requires name == PackageName(st.packages, link.pkg)
    requires forall id :: id in ids ==> !Holds(st, id, link.proj, name)
    requires forall id :: id in ids && id in st.links && st.links[id].Readable? ==> st.links[id].value.proj == link.proj
    ensures Supersede(st, ids, link, name, updated) == Ok((st, updated))
    decreases |ids|
  {
    if ids != [] {
      assert !Holds(st, ids[0], link.proj, name);
      SupersedeNothing(st, ids[1..], link, name, updated);
    }
  }

  /** The state the walk leaves, given the one row the project holds under the name. */
  ghost function Replaced(st: State, rival: nat, link: Link): Result<(State, bool), Error>
    requires rival in st.links && st.links[rival].Readable?
  {
    var row := st.links[rival].value;
    if row.pkg == link.pkg then
      Ok((st.(links := st.links[rival := Readable(row.(kind := link.kind, tag := link.tag, pinned := link.pinned))]),
          true))
    else
      var st' :- DeleteLinkRow(st, rival, row.pkg, row.proj);
      Ok((st', false))
  }

  lemma {:induction false} SupersedeOne(st: State, ids: seq<nat>, link: Link, name: string, rival: nat)
    requires name == PackageName(st.packages, link.pkg) && name != ""
    requires NoDuplicates(ids) && rival in ids
    requires forall id :: id in ids ==>
               && id in st.links && st.links[id].Readable?
               && st.links[id].value.id == id && st.links[id].value.proj == link.proj
    requires forall id :: id in ids ==> (Holds(st, id, link.proj, name) <==> id == rival)
    requires Replaced(st, rival, link).Ok?
    ensures Supersede(st, ids, link, name, false) == Replaced(st, rival, link)
    decreases |ids|
  {
    assert Holds(st, ids[0], link.proj, name) <==> ids[0] == rival;
    if ids[0] == rival {
      SupersedeHead(st, ids, link, name);
    } else {
      SupersedeOne(st, ids[1..], link, name, rival);
    }
  }

  lemma SupersedeHead(st: State, ids: seq<nat>, link: Link, name: string)
    requires name == PackageName(st.packages, link.pkg) && name != ""
    requires ids != [] && ids[0] !in ids[1..] && Holds(st, ids[0], link.proj, name)
    requires st.links[ids[0]].value.id == ids[0]
    requires forall id :: id in ids[1..] ==>
              id in st.links && st.links[id].Readable? && st.links[id].value.proj == link.proj
    requires forall id :: id in ids[1..] ==> !Holds(st, id, link.proj, name)
    requires Replaced(st, ids[0], link).Ok?
    ensures Supersede(st, ids, link, name, false) == Replaced(st, ids[0], link)
  {
    hide Replaced, DeleteLinkRow;
    var (st', updated) := Replaced(st, ids[0], link).value;
    ReplacedKeepsOthers(st, ids[0], link);
    forall id | id in ids[1..] ensures !Holds(st', id, link.proj, name) {
      assert !Holds(st, id, link.proj, name);
    }
    SupersedeNothing(st', ids[1..], link, name, updated);
    SupersedeUnfolds(st, ids, link, name);
  }

  lemma ReplacedKeepsOthers(st: State, rival: nat, link: Link)
    requires rival in st.links && st.links[rival].Readable? && Replaced(st, rival, link).Ok?
    ensures var st' := Replaced(st, rival, link).value.0;
            && st'.packages == st.packages
            && forall id :: id != rival ==>
                (id in st'.links <==> id in st.links) && (id in st.links ==> st'.links[id] == st.links[id])
  {
    hide DeleteLinkRow;
    var row := st.links[rival].value;
    if row.pkg != link.pkg { DeletedRowShape(st, rival, row.pkg, row.proj); }
  }

  lemma DeletedRowShape(st: State, id: nat, pkg: nat, proj: nat)
    requires DeleteLinkRow(st, id, pkg, proj).Ok?
    ensures var st' := DeleteLinkRow(st, id, pkg, proj).value;
            st' == st.(links := st.links - {id}, linksByPackage := st'.linksByPackage,
                linksByProject := st'.linksByProject)
  {
    hide RemoveIDFromIndex;
  }

  lemma SupersedeUnfolds(st: State, ids: seq<nat>, link: Link, name: string)
    requires name == PackageName(st.packages, link.pkg) && name != ""
    requires ids != [] && Holds(st, ids[0], link.proj, name) && st.links[ids[0]].value.id == ids[0]
    requires Replaced(st, ids[0], link).Ok?
    ensures var (st', updated) := Replaced(st, ids[0], link).value;
            Supersede(st, ids, link, name, false) == Supersede(st', ids[1..], link, name, updated)
  {
  }

  /** The rows after a project came to consume a version: the row it held on that
      version rewritten in place, or the row it held under the name replaced. */
  ghost function Consumed(st: State, link: Link): LinkMap {
    if rival: nat :| Holds(st, rival, link.proj, PackageName(st.packages, link.pkg)) then
      var row := st.links[rival].value;
      if row.pkg == link.pkg then st.links[rival := Readable(row.(kind := link.kind, tag := link.tag,
          pinned := link.pinned))]
      else (st.links - {rival})[st.nextID := Readable(link.(id := st.nextID))]
    else st.links[st.nextID := Readable(link.(id := st.nextID))]
  }

  ghost predicate OnlyLinksMoved(st: State, st': State) {
    st' == st.(links := st'.links, linksByPackage := st'.linksByPackage, linksByProject := st'.linksByProject,
        nextID := st'.nextID)
  }

  /** A project ends with one row for the name, and it is the row it asked for. */
  lemma InsertLinkShape(st: State, link: Link)
    requires Core(st) && link.pkg in st.packages && link.proj in st.projects
    ensures InsertLink(st, link).Ok?
    ensures OnlyLinksMoved(st, InsertLink(st, link).value)
    ensures Core(InsertLink(st, link).value)
    ensures InsertLink(st, link).value.links == Consumed(st, link)
  {
    hide Core, Consumed;
    var name := PackageName(st.packages, link.pkg);
    if rival: nat :| Holds(st, rival, link.proj, name) {
      InsertOverRival(st, link, rival);
    } else {
      InsertAfresh(st, link);
    }
  }

  lemma InsertAfresh(st: State, link: Link)
    requires Core(st) && link.pkg in st.packages && link.proj in st.projects
    requires forall id: nat :: !Holds(st, id, link.proj, PackageName(st.packages, link.pkg))
    ensures InsertLink(st, link) == AppendLink(st, link) && AppendLink(st, link).Ok?
    ensures OnlyLinksMoved(st, AppendLink(st, link).value) && Core(AppendLink(st, link).value)
    ensures AppendLink(st, link).value.links == Consumed(st, link)
  {
    EntryOf(st.linksByProject, st.links, ByProject, link.proj);
    SupersedeNothing(st, IndexIDs(st.linksByProject, link.proj).value, link, PackageName(st.packages, link.pkg), false);
    AppendLinkKeepsCore(st, link);
  }

  lemma InsertOverRival(st: State, link: Link, rival: nat)
    requires Core(st) && link.pkg in st.packages && link.proj in st.projects
    requires Holds(st, rival, link.proj, PackageName(st.packages, link.pkg))
    ensures InsertLink(st, link).Ok?
    ensures OnlyLinksMoved(st, InsertLink(st, link).value)
    ensures Core(InsertLink(st, link).value)
    ensures InsertLink(st, link).value.links == Consumed(st, link)
  {
    hide Core;
    var name := PackageName(st.packages, link.pkg);
    RivalIsUnique(st, link, name, rival);
    WalkFindsRival(st, link, name, rival);
    if st.links[rival].value.pkg == link.pkg {
      RewriteKeepsCore(st, rival, link);
    } else {
      DropRivalThenAppend(st, link, rival);
    }
  }

  lemma WalkFindsRival(st: State, link: Link, name: string, rival: nat)
    requires Core(st) && link.pkg in st.packages && name == PackageName(st.packages, link.pkg)
    requires Holds(st, rival, link.proj, name)
    ensures IndexIDs(st.linksByProject, link.proj).Ok?
    ensures Replaced(st, rival, link).Ok?
    ensures Supersede(st, IndexIDs(st.linksByProject, link.proj).value, link, name, false) == Replaced(st, rival, link)
    ensures st.links[rival].value.proj == link.proj
  {
    EntryOf(st.linksByProject, st.links, ByProject, link.proj);
    RivalIsUnique(st, link, name, rival);
    DeleteLinkRowKeepsCore(st, rival);
    SupersedeOne(st, IndexIDs(st.linksByProject, link.proj).value, link, name, rival);
  }

  lemma DropRivalThenAppend(st: State, link: Link, rival: nat)
    requires Core(st) && link.pkg in st.packages && link.proj in st.projects
    requires Holds(st, rival, link.proj, PackageName(st.packages, link.pkg))
    requires forall id :: Holds(st, id, link.proj, PackageName(st.packages, link.pkg)) <==> id == rival
    ensures var dropped := DeleteLinkRow(st, rival, st.links[rival].value.pkg, st.links[rival].value.proj);
            && dropped.Ok? && AppendLink(dropped.value, link).Ok?
            && OnlyLinksMoved(st, AppendLink(dropped.value, link).value)
            && Core(AppendLink(dropped.value, link).value)
            && AppendLink(dropped.value, link).value.links ==
                (st.links - {rival})[st.nextID := Readable(link.(id := st.nextID))]
  {
    hide Core;
    CoreReadsRows(st, rival);
    DeleteLinkRowKeepsCore(st, rival);
    var dropped := DeleteLinkRow(st, rival, st.links[rival].value.pkg, st.links[rival].value.proj).value;
    forall id ensures !Holds(dropped, id, link.proj, PackageName(st.packages, link.pkg)) {
      assert Holds(st, id, link.proj, PackageName(st.packages, link.pkg)) <==> id == rival;
    }
    AppendLinkKeepsCore(dropped, link);
  }

  lemma CoreReadsRows(st: State, id: nat)
    requires Core(st) && id in st.links
    ensures st.links[id].Readable? && st.links[id].value.id == id
  {
  }

  lemma RivalIsUnique(st: State, link: Link, name: string, rival: nat)
    requires Core(st) && Holds(st, rival, link.proj, name)
    ensures forall id :: Holds(st, id, link.proj, name) <==> id == rival
    ensures rival in IndexIDs(st.linksByProject, link.proj).Extract()
  {
    EntryOf(st.linksByProject, st.links, ByProject, link.proj);
    assert Owns(st.links, ByProject, link.proj, rival);
  }

  lemma RewriteKeepsCore(st: State, rival: nat, link: Link)
    requires Core(st) && rival in st.links
    ensures var row := st.links[rival].value.(kind := link.kind, tag := link.tag, pinned := link.pinned);
            Core(st.(links := st.links[rival := Readable(row)]))
  {
    hide Exact, Versions;
    var links' := st.links[rival := Readable(st.links[rival].value.(kind := link.kind, tag := link.tag,
        pinned := link.pinned))];
    SameOwnersKeepExact(st.linksByPackage, st.links, links', ByPackage);
    SameOwnersKeepExact(st.linksByProject, st.links, links', ByProject);
  }

  /** An add or a pull of a version its channel names, or a pin, keeps every invariant. */
  lemma InsertLinkKeepsValid(st: State, link: Link)
    requires Valid(st) && link.pkg in st.packages && link.proj in st.projects
    ensures InsertLink(st, link).Ok?
    ensures Valid(InsertLink(st, link).value)
    ensures FollowersTrack(st) && (link.pinned || Follows(st.packages, st.tags, link)) ==>
              FollowersTrack(InsertLink(st, link).value)
  {
    InsertLinkShape(st, link);
    if FollowersTrack(st) && (link.pinned || Follows(st.packages, st.tags, link)) {
      ConsumedFollow(st, link);
    }
  }

  lemma ConsumedFollow(st: State, link: Link)
    requires FollowersTrack(st) && (link.pinned || Follows(st.packages, st.tags, link))
    ensures AllFollow(st.packages, st.tags, Consumed(st, link))
  {
  }

  /** Afterwards the project holds exactly one row for the name, on the version asked
      for, with the channel and the pin asked for; every other row is untouched. */
  lemma InsertLinkRecords(st: State, link: Link)
    requires Core(st) && link.pkg in st.packages && link.proj in st.projects
    ensures InsertLink(st, link).Ok?
    ensures var st' := InsertLink(st, link).value; var name := PackageName(st.packages, link.pkg);
            && (exists id :: Holds(st', id, link.proj, name))
            && (forall id :: Holds(st', id, link.proj, name) ==> Asks(st'.links[id].value, link))
            && SameElsewhere(st, st', link.proj, name)
  {
    InsertLinkShape(st, link);
    if rival: nat :| Holds(st, rival, link.proj, PackageName(st.packages, link.pkg)) {
      RivalIsUnique(st, link, PackageName(st.packages, link.pkg), rival);
    }
    CoreNumbersRows(st);
    ConsumedRecords(st, InsertLink(st, link).value, link);
  }

  /** The row records the version, the channel, the pin and the kind of link asked for. */
  predicate Asks(row: Link, link: Link) {
    row.pkg == link.pkg && row.tag == link.tag && row.pinned == link.pinned && row.kind == link.kind
  }

  /** Every row but the one a project holds under a name is as it was. */
  ghost predicate SameElsewhere(st: State, st': State, proj: nat, name: string) {
    && (forall id :: id in st.links && !Holds(st, id, proj, name) ==> id in st'.links && st'.links[id] == st.links[id])
    && (forall id :: id in st'.links && !Holds(st', id, proj, name) ==> id in st.links && st'.links[id] == st.links[id])
  }

  lemma CoreNumbersRows(st: State)
    requires Core(st)
    ensures st.nextID !in st.links && AllReadable(st.links)
  {
  }

  lemma ConsumedRecords(st: State, st': State, link: Link)
    requires st'.links == Consumed(st, link) && st'.packages == st.packages
    requires st.nextID !in st.links && AllReadable(st.links)
    requires forall a, b | Holds(st, a, link.proj, PackageName(st.packages, link.pkg))
               && Holds(st, b, link.proj, PackageName(st.packages, link.pkg)) :: a == b
    ensures exists id :: Holds(st', id, link.proj, PackageName(st.packages, link.pkg))
    ensures forall id :: Holds(st', id, link.proj, PackageName(st.packages, link.pkg)) ==>
              Asks(st'.links[id].value, link)
    ensures SameElsewhere(st, st', link.proj, PackageName(st.packages, link.pkg))
  {
    var name := PackageName(st.packages, link.pkg);
    forall id | Holds(st', id, link.proj, name) ensures Asks(st'.links[id].value, link) {
      assert id in st.links && st'.links[id] == st.links[id] ==> Holds(st, id, link.proj, name);
    }
    if rival: nat :| Holds(st, rival, link.proj, name) {
      assert Holds(st', if st.links[rival].value.pkg == link.pkg then rival else st.nextID, link.proj, name);
    } else {
      assert Holds(st', st.nextID, link.proj, name);
    }
  }

  // ---------------------------------------------------------------- DeleteLink

  /** Unlinking drops exactly the row joining the version and the project. */
  lemma DeleteLinkShape(st: State, pkg: nat, proj: nat)
    requires Core(st)
    ensures DeleteLink(st, pkg, proj).Ok?
    ensures Core(DeleteLink(st, pkg, proj).value)
    ensures OnlyLinksMoved(st, DeleteLink(st, pkg, proj).value)
    ensures DeleteLink(st, pkg, proj).value.nextID == st.nextID
    ensures DeleteLink(st, pkg, proj).value.links == Unjoined(st.links, pkg, proj)
  {
    hide Core, FindLink, DeleteLinkRow, LastJoin;
    if FindLink(st.links, pkg, proj).Some? {
      var id := FoundLink(st.links, pkg, proj);
      CoreReadsRows(st, id);
      OneJoin(st, id, pkg, proj);
      DeleteLinkRowKeepsCore(st, id);
      assert st.links - {id} == Unjoined(st.links, pkg, proj);
    } else {
      NoJoin(st.links, pkg, proj);
      assert st.links == Unjoined(st.links, pkg, proj);
    }
  }

  lemma FoundLink(links: LinkMap, pkg: nat, proj: nat) returns (id: nat)
    requires FindLink(links, pkg, proj).Some?
    ensures Joins(links, id, pkg, proj) && FindLink(links, pkg, proj).value == links[id].value
  {
    id :| LastJoin(links, id, pkg, proj) && FindLink(links, pkg, proj).value == links[id].value;
  }

  lemma DeleteLinkKeepsValid(st: State, pkg: nat, proj: nat)
    requires Valid(st)
    ensures DeleteLink(st, pkg, proj).Ok?
    ensures Valid(DeleteLink(st, pkg, proj).value)
    ensures FollowersTrack(st) ==> FollowersTrack(DeleteLink(st, pkg, proj).value)
  {
    hide DeleteLink;
    DeleteLinkShape(st, pkg, proj);
  }

  /** The rows left once a project no longer consumes a version. */
  function Unjoined(links: LinkMap, pkg: nat, proj: nat): LinkMap {
    map id | id in links && !Joins(links, id, pkg, proj) :: links[id]
  }

  lemma OneJoin(st: State, id: nat, pkg: nat, proj: nat)
    requires Core(st) && Joins(st.links, id, pkg, proj)
    ensures forall j :: Joins(st.links, j, pkg, proj) ==> j == id
  {
  }

  lemma NoJoin(links: LinkMap, pkg: nat, proj: nat)
    requires FindLink(links, pkg, proj).None?
    ensures forall j :: !Joins(links, j, pkg, proj)
  {
    if j :| Joins(links, j, pkg, proj) {
      var last := GreatestJoin(links, links.Keys, pkg, proj, j);
    }
  }

  lemma GreatestJoin(links: LinkMap, above: set<nat>, pkg: nat, proj: nat, j: nat) returns (last: nat)
    requires Joins(links, j, pkg, proj)
    requires forall k: nat :: Joins(links, k, pkg, proj) && k > j ==> k in above
    ensures LastJoin(links, last, pkg, proj)
    decreases above
  {
    if k: nat :| Joins(links, k, pkg, proj) && k > j {
      last := GreatestJoin(links, above - {k}, pkg, proj, k);
    } else {
      last := j;
    }
  }

  // ---------------------------------------------------------------- DeleteProject

  function Dropped(links: LinkMap, ids: seq<nat>): LinkMap {
    map id | id in links && id !in ids :: links[id]
  }

  lemma DroppedStep(links: LinkMap, ids: seq<nat>)
    requires ids != []
    ensures Dropped(links - {ids[0]}, ids[1..]) == Dropped(links, ids)
  {
    assert ids == [ids[0]] + ids[1..];
  }

  /** The rows that do not name an owner. */
  function Disowned(links: LinkMap, side: Side, key: nat): LinkMap {
    map id | id in links && !Owns(links, side, key, id) :: links[id]
  }

  lemma DroppedIsDisowned(links: LinkMap, side: Side, key: nat, ids: seq<nat>)
    requires forall id :: id in ids <==> Owns(links, side, key, id)
    ensures Dropped(links, ids) == Disowned(links, side, key)
  {
  }

  lemma {:induction false} DropProjectRowsKeepsCore(st: State, ids: seq<nat>, proj: nat)
    requires Core(st) && NoDuplicates(ids)
    requires forall id :: id in ids ==> id in st.links && st.links[id].value.proj == proj
    ensures DropProjectRows(st, ids, proj).Ok?
    ensures Core(DropProjectRows(st, ids, proj).value)
    ensures var st' := DropProjectRows(st, ids, proj).value;
            && OnlyLinksMoved(st, st') && st'.nextID == st.nextID
            && st'.links == Dropped(st.links, ids)
    decreases |ids|
  {
    hide Core, DeleteLinkRow;
    if ids == [] {
      assert st.links == Dropped(st.links, ids);
    } else {
      CoreReadsRows(st, ids[0]);
      DeleteLinkRowKeepsCore(st, ids[0]);
      var st1 := DeleteLinkRow(st, ids[0], st.links[ids[0]].value.pkg, proj).value;
      DropProjectRowsKeepsCore(st1, ids[1..], proj);
      DroppedStep(st.links, ids);
    }
  }

  /** Forgetting a project drops its record, its path and exactly its own rows. */
  lemma DeleteProjectShape(st: State, id: nat)
    requires Core(st)
    ensures DeleteProject(st, id).Ok?
    ensures Core(DeleteProject(st, id).value)
    ensures var st' := DeleteProject(st, id).value;
            && st' == st.(links := Disowned(st.links, ByProject, id), linksByPackage := st'.linksByPackage,
                          linksByProject := st'.linksByProject, byPath := Unpathed(st, id).byPath,
                              projects := st.projects - {id})
  {
    EntryOf(st.linksByProject, st.links, ByProject, id);
    var ids := IndexIDs(st.linksByProject, id).value;
    hide Core;
    var unpathed := Unpathed(st, id);
    UnpathedCore(st, id);
    DroppedIsDisowned(st.links, ByProject, id, ids);
    DropAllThenForget(unpathed, ids, id);
  }

  lemma UnpathedCore(st: State, id: nat)
    requires Core(st)
    ensures Core(Unpathed(st, id))
    ensures Unpathed(st, id) == st.(byPath := Unpathed(st, id).byPath)
  {
  }

  lemma DropAllThenForget(st: State, ids: seq<nat>, id: nat)
    requires Core(st) && NoDuplicates(ids)
    requires forall l :: l in ids <==> Owns(st.links, ByProject, id, l)
    ensures DropProjectRows(st, ids, id).Ok?
    ensures var dropped := DropProjectRows(st, ids, id).value;
            && Core(dropped.(linksByProject := dropped.linksByProject - {id}, projects := dropped.projects - {id}))
            && dropped == st.(links := Dropped(st.links, ids), linksByPackage := dropped.linksByPackage,
                linksByProject := dropped.linksByProject)
  {
    hide DropProjectRows;
    DropProjectRowsKeepsCore(st, ids, id);
    var dropped := DropProjectRows(st, ids, id).value;
    forall l ensures !Owns(dropped.links, ByProject, id, l) {
      assert l in ids <==> Owns(st.links, ByProject, id, l);
    }
    hide Core;
    DropEmptyProject(dropped, id);
  }

  lemma DeleteProjectKeepsValid(st: State, id: nat)
    requires Valid(st)
    ensures DeleteProject(st, id).Ok?
    ensures Valid(DeleteProject(st, id).value)
    ensures FollowersTrack(st) ==> FollowersTrack(DeleteProject(st, id).value)
  {
    DeleteProjectShape(st, id);
    UnpathedExact(st, id);
    FewerFollow(st.packages, st.tags, st.links, Disowned(st.links, ByProject, id));
    hide DeleteProject, Core, AllFollow;
  }

  lemma UnpathedExact(st: State, id: nat)
    requires AllReadable(st.projects) && PathIndexExact(st.projects, st.byPath)
    ensures PathIndexExact(st.projects - {id}, Unpathed(st, id).byPath)
  {
    if id in st.projects {
      assert Unpathed(st, id).byPath == st.byPath - {st.projects[id].value.path};
    } else {
      assert Unpathed(st, id).byPath == st.byPath;
    }
    hide Unpathed;
  }

  lemma FewerFollow(packages: PackageMap, tags: map<string, string>, links: LinkMap, fewer: LinkMap)
    requires fewer.Keys <= links.Keys && forall id :: id in fewer ==> fewer[id] == links[id]
    ensures AllFollow(packages, tags, links) ==> AllFollow(packages, tags, fewer)
  {
  }

  lemma DropEmptyProject(st: State, id: nat)
    requires Core(st) && forall l :: !Owns(st.links, ByProject, id, l)
    ensures Core(st.(linksByProject := st.linksByProject - {id}, projects := st.projects - {id}))
  {
    forall l | l in st.links ensures st.links[l].value.proj != id {
      assert !Owns(st.links, ByProject, id, l);
    }
    assert id !in st.linksByProject by {
      if id in st.linksByProject {
        assert Lists(st.linksByProject, id, st.linksByProject[id].value[0]);
      }
    }
    assert st.linksByProject - {id} == st.linksByProject;
  }

  // ---------------------------------------------------------------- InsertProject

  /** A path is registered under one project, and an unknown one under a fresh ID. */
  lemma InsertProjectShape(st: State, path: string, manager: string)
    requires Valid(st)
    ensures var (st', id) := InsertProject(st, path, manager);
            && st' == st.(projects := st'.projects, byPath := st.byPath[path := id], nextID := st'.nextID)
            && id in st'.projects && st.projects.Keys <= st'.projects.Keys
            && id == if path in st.byPath then st.byPath[path] else st.nextID
  {
    var (st', id) := InsertProject(st, path, manager);
    if path in st.byPath {
      assert st.byPath == st.byPath[path := id];
    }
  }

  lemma InsertProjectKeepsValid(st: State, path: string, manager: string)
    requires Valid(st)
    ensures Valid(InsertProject(st, path, manager).0)
    ensures FollowersTrack(st) ==> FollowersTrack(InsertProject(st, path, manager).0)
  {
    hide Valid, Core, Rows, PathIndexExact, InsertProject, TagsNameVersions, NameIndexMirrorsLatest, AllFollow;
    InsertProjectShape(st, path, manager);
    var (st', id) := InsertProject(st, path, manager);
    ProjectParts(st);
    RowsUnderRecords(st.packages, st.projects, st.packages, st'.projects, st.links, st.linksByPackage,
                     st.linksByProject);
    RegisteredExact(st, path, manager);
    RegisteredKeyed(st, path, manager);
    RegisteredValid(st, st');
  }

  lemma ProjectParts(st: State)
    requires Valid(st)
    ensures Readables(st) && Keyed(st) && PathIndexExact(st.projects, st.byPath) && Core(st)
    ensures Rows(st.packages, st.projects, st.links, st.linksByPackage, st.linksByProject)
  {
    hide Rows, PathIndexExact, Versions, TagsNameVersions, NameIndexMirrorsLatest;
  }

  lemma RegisteredKeyed(st: State, path: string, manager: string)
    requires Readables(st) && Keyed(st) && PathIndexExact(st.projects, st.byPath)
    ensures Readables(InsertProject(st, path, manager).0) && Keyed(InsertProject(st, path, manager).0)
  {
    hide Readables, Keyed, PathIndexExact;
    if path in st.byPath {
      RegisteredProject(st, path);
      var row := st.projects[st.byPath[path]].value;
      KeyedWithProject(st, row.(manager := manager), st.nextID, st.byPath);
    } else {
      FreshProject(st);
      KeyedWithProject(st, Project(st.nextID, path, manager), st.nextID + 1, st.byPath[path := st.nextID]);
    }
  }

  lemma RegisteredProject(st: State, path: string)
    requires Readables(st) && Keyed(st) && PathIndexExact(st.projects, st.byPath) && path in st.byPath
    ensures var id := st.byPath[path];
            && id in st.projects && st.projects[id].Readable? && st.projects[id].value.id == id
            && 0 < id < st.nextID && id !in st.packages && id !in st.links
  {
  }

  lemma FreshProject(st: State)
    requires Readables(st) && Keyed(st)
    ensures 0 < st.nextID && st.nextID !in st.packages && st.nextID !in st.links
  {
  }

  lemma KeyedWithProject(st: State, row: Project, nextID: nat, byPath: map<string, nat>)
    requires Readables(st) && Keyed(st) && st.nextID <= nextID
    requires 0 < row.id < nextID && row.id !in st.packages && row.id !in st.links
    ensures var st' := st.(nextID := nextID, projects := st.projects[row.id := Readable(row)], byPath := byPath);
            Readables(st') && Keyed(st')
  {
  }

  lemma RegisteredValid(st: State, st': State)
    requires Valid(st) && st' == st.(projects := st'.projects, byPath := st'.byPath, nextID := st'.nextID)
    requires Readables(st') && Keyed(st') && PathIndexExact(st'.projects, st'.byPath)
    requires Rows(st'.packages, st'.projects, st'.links, st'.linksByPackage, st'.linksByProject)
    ensures Valid(st') && (FollowersTrack(st) ==> FollowersTrack(st'))
  {
    hide Readables, Keyed, Rows, PathIndexExact, Versions, TagsNameVersions, NameIndexMirrorsLatest, AllFollow;
  }

  lemma RegisteredExact(st: State, path: string, manager: string)
    requires Readables(st) && Keyed(st) && PathIndexExact(st.projects, st.byPath)
    ensures AllReadable(InsertProject(st, path, manager).0.projects)
    ensures PathIndexExact(InsertProject(st, path, manager).0.projects, InsertProject(st, path, manager).0.byPath)
  {
    if path in st.byPath {
      RegisteredAgain(st.projects, st.byPath, st.byPath[path], manager);
    } else {
      RegisteredAfresh(st.projects, st.byPath, st.nextID, path, manager);
    }
  }

  lemma RegisteredAgain(projects: ProjectMap, byPath: map<string, nat>, id: nat, manager: string)
    requires AllReadable(projects) && PathIndexExact(projects, byPath) && id in projects
    ensures PathIndexExact(projects[id := Readable(projects[id].value.(manager := manager))], byPath)
  {
  }

  lemma RegisteredAfresh(projects: ProjectMap, byPath: map<string, nat>, id: nat, path: string, manager: string)
    requires AllReadable(projects) && PathIndexExact(projects, byPath) && id !in projects && path !in byPath
    ensures PathIndexExact(projects[id := Readable(Project(id, path, manager))], byPath[path := id])
  {
  }

  // ---------------------------------------------------------------- DeletePackage

  /** Dropping rows one at a time keeps the project index exact at every step. */
  lemma {:induction false} DropRowsScrubs(st: State, ids: seq<nat>)
    requires Exact(st.linksByProject, st.links, ByProject) && NoDuplicates(ids)
    requires forall id :: id in ids ==> id in st.links && st.links[id].Readable?
    ensures DropRows(st, ids).Ok?
    ensures var st' := DropRows(st, ids).value;
            && st' == st.(links := Dropped(st.links, ids), linksByProject := st'.linksByProject)
            && Exact(st'.linksByProject, st'.links, ByProject)
    decreases |ids|
  {
    if ids == [] {
      assert st.links == Dropped(st.links, ids);
    } else {
      var proj := st.links[ids[0]].value.proj;
      RemoveKeepsExact(st.linksByProject, st.links, ByProject, ids[0]);
      var st1 := st.(links := st.links - {ids[0]},
          linksByProject := RemoveIDFromIndex(st.linksByProject, proj, ids[0]).value);
      DropRowsScrubs(st1, ids[1..]);
      DroppedStep(st.links, ids);
    }
  }

  /** Collecting a version drops its record, its files, its tags and exactly the rows
      that consume it. */
  lemma DeletePackageShape(st: State, id: nat)
    requires Core(st)
    ensures DeletePackage(st, id).Ok?
    ensures Core(DeletePackage(st, id).value)
    ensures var st' := DeletePackage(st, id).value; var named := Unnamed(st, id);
            && st'.links == Disowned(st.links, ByPackage, id)
            && st'.packages == st.packages - {id} && st'.files == st.files - {id}
            && st'.tags == named.tags && st'.byName == named.byName
            && st'.projects == st.projects && st'.byPath == st.byPath && st'.nextID == st.nextID
  {
    hide Core, Exact, DropRows, DeletePackage, Unnamed, AllReadable;
    CoreIndexes(st);
    EntryOf(st.linksByPackage, st.links, ByPackage, id);
    var ids := IndexIDs(st.linksByPackage, id).value;
    var named := Unnamed(st, id);
    UnnamedShape(st, id);
    ListedAreRows(st, ids, id);
    DropRowsScrubs(named, ids);
    DroppedIsDisowned(st.links, ByPackage, id, ids);
    CollectedIndexExact(st.linksByPackage, st.links, id);
    CollectKeepsRows(st, id);
    DeletePackageUnfolds(st, id, ids);
    CollectedCore(st, id, DeletePackage(st, id).value);
  }

  lemma CoreIndexes(st: State)
    requires Core(st)
    ensures Exact(st.linksByPackage, st.links, ByPackage) && Exact(st.linksByProject, st.links, ByProject)
    ensures forall l :: l in st.links ==> st.links[l].Readable?
  {
    hide Exact, OneRowPerName, Versions;
  }

  lemma ListedAreRows(st: State, ids: seq<nat>, id: nat)
    requires forall l :: l in ids <==> Owns(st.links, ByPackage, id, l)
    ensures forall l :: l in ids ==> l in st.links && st.links[l].Readable?
  {
  }

  lemma UnnamedShape(st: State, id: nat)
    ensures Unnamed(st, id) == st.(tags := Unnamed(st, id).tags, byName := Unnamed(st, id).byName)
  {
    hide TagsWithoutHash;
  }

  lemma DeletePackageUnfolds(st: State, id: nat, ids: seq<nat>)
    requires IndexIDs(st.linksByPackage, id) == Ok(ids) && DropRows(Unnamed(st, id), ids).Ok?
    ensures var dropped := DropRows(Unnamed(st, id), ids).value;
            DeletePackage(st, id) == Ok(dropped.(linksByPackage := dropped.linksByPackage - {id},
                                                 packages := dropped.packages - {id}, files := dropped.files - {id}))
  {
    hide Unnamed, DropRows;
  }

  lemma CollectedCore(st: State, id: nat, st': State)
    requires Core(st) && st'.projects == st.projects && st'.nextID == st.nextID && st'.packages == st.packages - {id}
    requires st'.links == Disowned(st.links, ByPackage, id) && AllReadable(st'.links)
    requires Exact(st'.linksByPackage, st'.links, ByPackage) && Exact(st'.linksByProject, st'.links, ByProject)
    requires Referential(st'.packages, st'.projects, st'.links) && OneRowPerName(st'.packages, st'.links)
    requires Versions(st'.packages)
    ensures Core(st')
  {
    hide Exact, Referential, OneRowPerName, Versions;
  }

  lemma CollectedIndexExact(index: Index, links: LinkMap, id: nat)
    requires Exact(index, links, ByPackage)
    ensures Exact(index - {id}, Disowned(links, ByPackage, id), ByPackage)
  {
    var links' := Disowned(links, ByPackage, id);
    forall key, l ensures Lists(index - {id}, key, l) <==> Owns(links', ByPackage, key, l) {
      assert Lists(index, key, l) <==> Owns(links, ByPackage, key, l);
    }
  }

  lemma CollectKeepsRows(st: State, id: nat)
    requires Core(st)
    ensures AllReadable(Disowned(st.links, ByPackage, id))
    ensures Referential(st.packages - {id}, st.projects, Disowned(st.links, ByPackage, id))
    ensures OneRowPerName(st.packages - {id}, Disowned(st.links, ByPackage, id))
    ensures Versions(st.packages - {id})
  {
    var links' := Disowned(st.links, ByPackage, id);
    forall l | l in links' ensures PackageName(st.packages - {id}, links'[l].value.pkg) ==
        PackageName(st.packages, links'[l].value.pkg) {}
  }

  lemma DeletePackageKeepsValid(st: State, id: nat)
    requires Valid(st)
    ensures DeletePackage(st, id).Ok?
    ensures Valid(DeletePackage(st, id).value)
    ensures FollowersTrack(st) ==> FollowersTrack(DeletePackage(st, id).value)
  {
    DeletePackageShape(st, id);
    if id in st.packages {
      CollectKeepsTags(st, id);
      CollectKeepsNames(st, id);
      if FollowersTrack(st) { CollectKeepsFollowers(st, id); }
    } else {
      assert st.packages - {id} == st.packages;
    }
  }

  lemma CollectKeepsTags(st: State, id: nat)
    requires Valid(st) && id in st.packages
    ensures TagsNameVersions(st.packages - {id}, Unnamed(st, id).tags)
  {
    var packages', tags' := st.packages - {id}, Unnamed(st, id).tags;
    forall key | key in tags' ensures exists p :: Tagged(packages', key, tags'[key], p) {
      var p :| Tagged(st.packages, key, st.tags[key], p);
      hide Core;
      assert Tagged(packages', key, tags'[key], p);
    }
  }

  lemma CollectKeepsNames(st: State, id: nat)
    requires Valid(st) && id in st.packages
    ensures NameIndexMirrorsLatest(st.packages - {id}, Unnamed(st, id).byName, Unnamed(st, id).tags)
  {
    var packages', tags', byName' := st.packages - {id}, Unnamed(st, id).tags, Unnamed(st, id).byName;
    forall name | name in st.byName || (LegalName(name) && TagKey(name, DEFAULT_TAG) in st.tags)
      ensures name in byName' ==> NamesLatest(packages', byName', tags', name)
      ensures TagKey(name, DEFAULT_TAG) in tags' ==> name in byName'
    {
      CollectKeepsName(st, id, name);
    }
  }

  lemma CollectKeepsName(st: State, id: nat, name: string)
    requires Core(st) && id in st.packages && name in st.byName && NamesLatest(st.packages, st.byName, st.tags, name)
    ensures name in Unnamed(st, id).byName ==>
              NamesLatest(st.packages - {id}, Unnamed(st, id).byName, Unnamed(st, id).tags, name)
    ensures TagKey(name, DEFAULT_TAG) in Unnamed(st, id).tags ==> name in Unnamed(st, id).byName
  {
    hide Core, TagKey;
    SameContentSameRecord(st, id, st.byName[name]);
    var pkg := st.packages[id].value;
    NamesAreLegal(st, id);
    NamesAreLegal(st, st.byName[name]);
    TagKeyPrefix(pkg.name, DEFAULT_TAG);
    if TagKey(pkg.name, "") <= TagKey(name, DEFAULT_TAG) { PrefixNamesPackage(pkg.name, name, DEFAULT_TAG); }
  }

  lemma NamesAreLegal(st: State, id: nat)
    requires Core(st) && id in st.packages
    ensures st.packages[id].Readable? && LegalName(st.packages[id].value.name)
  {
  }

  lemma SameContentSameRecord(st: State, p: nat, q: nat)
    requires Core(st) && p in st.packages && q in st.packages
    ensures st.packages[p].Readable? && st.packages[q].Readable?
    ensures var a, b := st.packages[p].value, st.packages[q].value;
            a.name == b.name && a.hash == b.hash ==> p == q
  {
  }

  lemma CollectKeepsFollowers(st: State, id: nat)
    requires Valid(st) && FollowersTrack(st) && id in st.packages
    ensures AllFollow(st.packages - {id}, Unnamed(st, id).tags, Disowned(st.links, ByPackage, id))
  {
    var pkg := st.packages[id].value;
    forall l | l in st.links && st.links[l].value.pkg != id && !st.links[l].value.pinned
      ensures Follows(st.packages - {id}, Unnamed(st, id).tags, st.links[l].value)
    {
      var row := st.links[l].value;
      assert Follows(st.packages, st.tags, row);
      var owner := st.packages[row.pkg].value.name;
      if TagKey(pkg.name, "") <= TagKey(owner, row.Channel()) { PrefixNamesPackage(pkg.name, owner, row.Channel()); }
    }
  }
}
