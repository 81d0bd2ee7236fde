/** What each command leaves in the store, said of the records themselves: the row a project
    holds afterwards, what a name, a tag or a build means then, and what is untouched. */
module CommandLaws {
  import opened Wrappers
  import opened LinkStore
  import opened StoreInvariant
  import opened TagMoves
  import opened LinkMoves
  import opened AddSpec
  import opened StoreRuns

  predicate IsTag(st: State, name: string, tag: string) {
    TagKey(name, NamedTag(tag)) in st.tags
  }

  /** A row with the given build, channel, kind and pin is the one row a project holds under
      a name, and every other row is as it was. */
  ghost predicate Took(st: State, st': State, proj: nat, name: string, pkg: nat, tag: string, kind: string,
                       pinned: bool) {
    && (exists l :: Holds(st', l, proj, name))
    && (forall l :: Holds(st', l, proj, name) ==>
          var row := st'.links[l].value; row.pkg == pkg && row.tag == tag && row.kind == kind && row.pinned == pinned)
    && SameElsewhere(st, st', proj, name)
  }

  /** Versions, names, tags and files are as they were. */
  predicate SameBuilds(st: State, st': State) {
    st'.packages == st.packages && st'.byName == st.byName && st'.tags == st.tags && st'.files == st.files
  }

  predicate SameProjects(st: State, st': State) {
    st'.projects == st.projects && st'.byPath == st.byPath
  }

  // ---------------------------------------------------------------- pull

  /** A version and a hash are those of the build a tag names. */
  ghost predicate IsBuildOf(st: State, name: string, tag: string, version: string, hash: string) {
    TagKey(name, tag) in st.tags && st.tags[TagKey(name, tag)] == hash
    && exists id :: Records(st.packages, id, name, hash) && st.packages[id].value.version == version
  }

  lemma OneRowHeld(st: State, path: string, name: string, l: nat)
    requires Valid(st) && path in st.byPath && Holds(st, l, st.byPath[path], name)
    ensures HeldRow(st, path, name) == Some(st.links[l].value)
    ensures forall m :: Holds(st, m, st.byPath[path], name) ==> m == l
    ensures st.links[l].value.pkg in st.packages && st.byPath[path] in st.projects
  {
    hide Valid, Core;
    ValidIsCore(st);
    RivalIsUnique(st, st.links[l].value, name, l);
    HeldRowIsHeld(st, path, name);
  }

  /** The build a pull finds is the one the row's channel names, if it names one. */
  lemma ChannelBuild(st: State, name: string, row: Link)
    requires Valid(st) && LegalName(name)
    ensures GetPackageByName(st, name).Ok?
    ensures var found := if row.Channel() != DEFAULT_TAG then ResolveTag(st, name, row.tag)
                         else GetPackageByName(st, name).value;
            && (found.Some? <==> TagKey(name, row.Channel()) in st.tags)
            && (found.Some? ==>
                  && found.value.id in st.packages && st.packages[found.value.id] == Readable(found.value)
                  && Records(st.packages, found.value.id, name, st.tags[TagKey(name, row.Channel())]))
  {
    hide ResolveTag, GetPackageByName;
    NameLookup(st, name);
    NameIsFound(st, name);
    TagLookup(st, name, row.tag);
  }

  lemma OneBuild(st: State, id: nat, other: nat, name: string, hash: string)
    requires Valid(st) && Records(st.packages, id, name, hash) && Records(st.packages, other, name, hash)
    ensures id == other
  {
  }

  /** A pull of an unpinned row puts it on the build its channel names, its channel, kind and
      pin kept, if and only if it was there already or the lock entry is of another build; a
      channel that is no tag, a pinned row or no row leaves the store as it was. */
  lemma PullTracks(st: State, path: string, name: string, version: string, hash: string, l: nat)
    requires Valid(st) && LegalName(name) && path in st.byPath && Holds(st, l, st.byPath[path], name)
    ensures var st' := Apply(st, Pull(path, name, version, hash)); var row := st.links[l].value;
            && SameBuilds(st, st') && SameProjects(st, st')
            && (row.pinned || TagKey(name, row.Channel()) !in st.tags ==> st' == st)
            && (exists pkg :: Took(st, st', st.byPath[path], name, pkg, row.tag, row.kind, row.pinned)
                              && (!row.pinned && TagKey(name, row.Channel()) in st.tags ==>
                                    (Records(st'.packages, pkg, name, st.tags[TagKey(name, row.Channel())]) <==>
                                      Follows(st.packages, st.tags, row)
                                      || !IsBuildOf(st, name, row.Channel(), version, hash))))
  {
    hide Valid, Core, HeldRow, ResolveTag, GetPackageByName, InsertLink, TagKey;
    var proj, row := st.byPath[path], st.links[l].value;
    OneRowHeld(st, path, name, l);
    ChannelBuild(st, name, row);
    ValidIsCore(st);
    var found := if row.Channel() != DEFAULT_TAG then ResolveTag(st, name, row.tag)
                 else GetPackageByName(st, name).value;
    var st' := Apply(st, Pull(path, name, version, hash));
    if row.pinned || found.None? {
      assert Took(st, st', proj, name, row.pkg, row.tag, row.kind, row.pinned);
    } else {
      var key := TagKey(name, row.Channel());
      PullMeets(st, name, row, found.value, version, hash);
      if (version == found.value.version && hash == found.value.hash) || found.value.id == row.pkg {
        assert Took(st, st', proj, name, row.pkg, row.tag, row.kind, row.pinned);
      } else {
        var link := row.(pkg := found.value.id);
        InsertLinkShape(st, link);
        InsertLinkRecords(st, link);
        assert Took(st, st', proj, name, link.pkg, row.tag, row.kind, row.pinned);
      }
    }
  }

  /** When a row is on the build found, and when the lock entry is of it. */
  lemma PullMeets(st: State, name: string, row: Link, found: Package, version: string, hash: string)
    requires Valid(st) && PackageName(st.packages, row.pkg) == name && row.pkg in st.packages
    requires TagKey(name, row.Channel()) in st.tags
    requires Records(st.packages, found.id, name, st.tags[TagKey(name, row.Channel())])
    requires st.packages[found.id] == Readable(found)
    ensures Follows(st.packages, st.tags, row) <==> row.pkg == found.id
    ensures Records(st.packages, row.pkg, name, st.tags[TagKey(name, row.Channel())]) <==> row.pkg == found.id
    ensures IsBuildOf(st, name, row.Channel(), version, hash) <==> version == found.version && hash == found.hash
  {
    var named := st.tags[TagKey(name, row.Channel())];
    if Records(st.packages, row.pkg, name, named) { OneBuild(st, row.pkg, found.id, name, named); }
    if id :| Records(st.packages, id, name, named) && st.packages[id].value.version == version {
      OneBuild(st, id, found.id, name, named);
    }
  }

  /** Only an existing row is repointed. */
  lemma PullNeedsARow(st: State, path: string, name: string, version: string, hash: string)
    requires path in st.byPath ==> forall l :: !Holds(st, l, st.byPath[path], name)
    ensures Apply(st, Pull(path, name, version, hash)) == st
  {
  }

  // ---------------------------------------------------------------- add and restore

  /** The project at a path, registered if it was not, and the row it took. */
  ghost predicate TookAt(st: State, st': State, path: string, manager: string, name: string, pkg: nat, tag: string,
                         kind: string, pinned: bool) {
    && path in st'.byPath && SameBuilds(st, st') && Took(st, st', st'.byPath[path], name, pkg, tag, kind, pinned)
    && st'.byPath[path] == (if path in st.byPath then st.byPath[path] else st.nextID)
    && st'.byPath == st.byPath[path := st'.byPath[path]]
    && st'.projects == st.projects[st'.byPath[path] := Readable(Project(st'.byPath[path], path, manager))]
  }

  lemma RegistersProject(st: State, path: string, manager: string)
    requires Valid(st)
    ensures var (st', id) := InsertProject(st, path, manager);
            st'.projects == st.projects[id := Readable(Project(id, path, manager))]
  {
  }

  lemma ConsumeTakes(st: State, path: string, manager: string, link: Link, name: string)
    requires Valid(st) && Retained(st.packages, link.pkg, name)
    ensures TookAt(st, Consume(st, path, manager, link), path, manager, name, link.pkg, link.tag, link.kind,
              link.pinned)
  {
    hide Valid, Core, InsertProject, InsertLink;
    InsertProjectShape(st, path, manager);
    InsertProjectKeepsValid(st, path, manager);
    RegistersProject(st, path, manager);
    var (registered, proj) := InsertProject(st, path, manager);
    ValidIsCore(registered);
    InsertLinkShape(registered, link.(proj := proj));
    InsertLinkRecords(registered, link.(proj := proj));
    SameElsewhereFrom(st, registered, Consume(st, path, manager, link), proj, name);
  }

  /** An add that resolves leaves the project one row on the build its spec singles out: on the
      channel named and unpinned, or pinned to the version or the hash. One that does not
      resolve leaves the store as it was. */
  lemma AddTakes(st: State, path: string, manager: string, name: string, requested: string, kind: string)
    requires Valid(st) && LegalName(name)
    ensures var st' := Apply(st, Add(path, manager, name, requested, kind));
            if CanResolve(st, name, requested) then
              exists found :: Chosen(st, name, requested, found)
                && TookAt(st, st', path, manager, name, found.pkg.id, if found.kind.TagSpec? then requested else "",
                          kind, found.kind.VersionSpec? || found.kind.HashSpec?)
            else st' == st
  {
    hide Valid, ResolveAddSpec, CanResolve, Consume, TookAt, Chosen;
    ResolvesExactly(st, name, requested);
    if CanResolve(st, name, requested) {
      ResolvedBuild(st, name, requested);
      var found := ResolveAddSpec(st, name, requested).value.value;
      ChosenTag(st, name, requested, found);
      ConsumeTakes(st, path, manager, LinkFor(found, 0, kind), name);
      assert Chosen(st, name, requested, found);
    }
  }

  lemma ChosenTag(st: State, name: string, requested: string, found: Resolved)
    requires Chosen(st, name, requested, found)
    ensures Retained(st.packages, found.pkg.id, name)
    ensures found.tag == if found.kind.TagSpec? then requested else ""
  {
  }

  /** An add by name, or by a tag of the name, leaves the project one unpinned row that follows
      that channel and sits on the build it names. */
  lemma AddFollowsItsChannel(st: State, path: string, manager: string, name: string, tag: string, kind: string)
    requires Valid(st) && LegalName(name) && IsTag(st, name, tag)
    ensures var st' := Apply(st, Add(path, manager, name, tag, kind));
            exists pkg :: TookAt(st, st', path, manager, name, pkg, tag, kind, false)
                          && Records(st.packages, pkg, name, st.tags[TagKey(name, NamedTag(tag))])
  {
    hide Valid, ResolveTag, GetPackageByName, Consume, TookAt, TagKey;
    NameLookup(st, name);
    NameIsFound(st, name);
    TagLookup(st, name, tag);
    if tag == "" { LatestIsIndexed(st, name); }
    var found := ResolveAddSpec(st, name, tag).value.value;
    ConsumeTakes(st, path, manager, LinkFor(found, 0, kind), name);
    assert Records(st.packages, found.pkg.id, name, st.tags[TagKey(name, NamedTag(tag))]);
  }

  lemma LatestIsIndexed(st: State, name: string)
    requires Valid(st) && LegalName(name)
    ensures TagKey(name, DEFAULT_TAG) in st.tags <==> name in st.byName
  {
    if name in st.byName { assert NamesLatest(st.packages, st.byName, st.tags, name); }
  }

  /** A restore of a recorded hash takes the build of that hash, one without takes the build the
      default tag names, with the kind and the pin asked for and no channel recorded; where
      there is no such build the store is as it was. */
  lemma RestoreTakes(st: State, path: string, manager: string, name: string, hash: string, kind: string, pinned: bool)
    requires Valid(st) && LegalName(name)
    ensures var st' := Apply(st, Restore(path, manager, name, hash, kind, pinned));
            if hash != "" && exists id :: Records(st.packages, id, name, hash) then
              exists id :: Records(st.packages, id, name, hash)
                           && TookAt(st, st', path, manager, name, id, "", kind, pinned)
            else if hash == "" && name in st.byName then
              TookAt(st, st', path, manager, name, st.byName[name], "", kind, pinned)
            else st' == st
  {
    hide Valid, FindByHash, GetPackageByName, Consume, TookAt;
    NameLookup(st, name);
    NameIsFound(st, name);
    ContentLookup(st, name, hash);
    var found := RestoredBuild(st, name, hash);
    if found.Some? { ConsumeTakes(st, path, manager, Link(0, found.value.id, 0, kind, "", pinned), name); }
  }

  // ---------------------------------------------------------------- remove and forget

  /** A remove leaves the project no row under the name and nothing else changed. */
  lemma RemoveDrops(st: State, path: string, name: string)
    requires Valid(st)
    ensures var st' := Apply(st, Remove(path, name));
            && SameBuilds(st, st') && SameProjects(st, st')
            && st'.links == map l | l in st.links && !(path in st.byPath && Holds(st, l, st.byPath[path], name)) ::
                 st.links[l]
  {
    hide Valid, Core, HeldRow, DeleteLink;
    ValidIsCore(st);
    var st' := Apply(st, Remove(path, name));
    if path in st.byPath {
      var proj := st.byPath[path];
      if l :| Holds(st, l, proj, name) {
        OneRowHeld(st, path, name, l);
        DeleteLinkShape(st, st.links[l].value.pkg, proj);
        assert forall m :: Joins(st.links, m, st.links[l].value.pkg, proj) <==> m == l by {
          assert forall m :: Joins(st.links, m, st.links[l].value.pkg, proj) ==> Holds(st, m, proj, name);
        }
      } else {
        NoRowHeld(st, path, name);
      }
    } else {
      NoRowHeld(st, path, name);
    }
  }

  lemma NoRowHeld(st: State, path: string, name: string)
    requires path in st.byPath ==> forall l :: !Holds(st, l, st.byPath[path], name)
    ensures HeldRow(st, path, name) == None
  {
  }

  /** Forgetting a registered path drops the project, its path and exactly its rows. */
  lemma ForgetDrops(st: State, path: string)
    requires Valid(st)
    ensures var st' := Apply(st, Forget(path)); var gone := if path in st.byPath then {st.byPath[path]} else {};
            && SameBuilds(st, st') && st'.projects == st.projects - gone && st'.byPath == st.byPath - {path}
            && st'.links == map l | l in st.links && st.links[l].value.proj !in gone :: st.links[l]
  {
    hide Valid, Core, DeleteProject;
    ValidIsCore(st);
    ReadableRows(st);
    if path in st.byPath {
      DeleteProjectShape(st, st.byPath[path]);
      PathIsUnpathed(st, path);
    }
  }

  lemma ReadableRows(st: State)
    requires Valid(st)
    ensures forall l :: l in st.links ==> st.links[l].Readable?
  {
  }

  lemma PathIsUnpathed(st: State, path: string)
    requires Valid(st) && path in st.byPath
    ensures Unpathed(st, st.byPath[path]).byPath == st.byPath - {path}
  {
  }

  // ---------------------------------------------------------------- tags

  /** Tags after one is pointed at a hash: that one, and the default tag of a name that had none. */
  ghost predicate Pointed(st: State, st': State, name: string, tag: string, hash: string) {
    forall key :: (key in st'.tags <==> key in st.tags || key == TagKey(name, NamedTag(tag)) ||
                                        (key == TagKey(name, DEFAULT_TAG) && name !in st.byName))
                  && (key in st'.tags ==>
                        st'.tags[key] == if key == TagKey(name, NamedTag(tag)) ||
                                            (key == TagKey(name, DEFAULT_TAG) && name !in st.byName)
                                         then hash else st.tags[key])
  }

  /** Setting a tag points it at the build, gives a name without a default tag that one too, and
      moves no other; a hash of no build of the name leaves the store as it was. */
  lemma SetTagPoints(st: State, name: string, tag: string, hash: string)
    requires Valid(st)
    ensures var st' := Apply(st, SetTag(name, tag, hash));
            if exists id :: Records(st.packages, id, name, hash) then
              && Pointed(st, st', name, tag, hash) && SameProjects(st, st')
              && st'.packages == st.packages && st'.files == st.files && st'.nextID == st.nextID
            else st' == st
  {
    hide Valid, Core, FindByHash, SetTagTx, TagKey;
    ContentLookup(st, name, hash);
    ValidParts(st);
    if FindByHash(st.packages, name, hash).Some? {
      SetTagShape(st, name, tag, hash, FindByHash(st.packages, name, hash).value.id);
    }
  }

  lemma ValidParts(st: State)
    requires Valid(st)
    ensures Core(st) && TagsNameVersions(st.packages, st.tags)
    ensures NameIndexMirrorsLatest(st.packages, st.byName, st.tags)
  {
  }

  /** Deleting a tag takes that one away and nothing else; the default tag is refused. */
  lemma DeleteTagDrops(st: State, name: string, tag: string)
    ensures Apply(st, DeleteTag(name, tag)) ==
            if tag == "" || tag == DEFAULT_TAG then st else st.(tags := st.tags - {TagKey(name, tag)})
  {
  }

  // ---------------------------------------------------------------- publish

  /** A row of a published file, as recorded under a build. */
  predicate IsFileOf(row: FileRow, published: FileRow, pkg: nat) {
    row.pkg == pkg && row.path == published.path && row.hash == published.hash && row.perm == published.perm
  }

  /** A publish records the content under one build, with the version and the time published
      and the files given, in order and numbered in a row; other builds and their files are as they were, and the
      tag points at it. */
  lemma PublishRecords(st: State, pkg: Package, rows: seq<FileRow>, tag: string)
    requires Valid(st) && LegalName(pkg.name)
    ensures var st' := Apply(st, Publish(pkg, rows, tag));
            && Pointed(st, st', pkg.name, tag, pkg.hash) && SameProjects(st, st')
            && exists id ::
                 && (if exists was :: Records(st.packages, was, pkg.name, pkg.hash) then
                       Records(st.packages, id, pkg.name, pkg.hash) else id == st.nextID)
                 && st'.packages == st.packages[id := Readable(pkg.(id := id))]
                 && id in st'.files && st'.files == st.files[id := st'.files[id]] && |st'.files[id]| == |rows|
                 && (forall i :: 0 <= i < |rows| ==> IsFileOf(st'.files[id][i], rows[i], id))
                 && st'.nextID == st.nextID + |rows| + (if id == st.nextID then 1 else 0)
                 && forall i :: 0 <= i < |rows| ==> st'.files[id][i].id == st'.nextID - |rows| + i
  {
    hide Valid, Core, FindByHash, SetTagTx, TagKey, InsertPackageWithFiles;
    ContentLookup(st, pkg.name, pkg.hash);
    RecordedIsValid(st, pkg);
    var (recorded, id) := Recorded(st, pkg);
    PublishTags(st, pkg, rows, tag);
    var tagged := SetTagTx(recorded, pkg.name, tag, pkg.hash, id).value;
    RecordedAs(st, pkg);
    assert Apply(st, Publish(pkg, rows, tag)) == InsertFilesTx(tagged, id, rows);
  }

  lemma RecordedAs(st: State, pkg: Package)
    requires Valid(st)
    ensures var (recorded, id) := Recorded(st, pkg);
            && recorded.packages == st.packages[id := Readable(pkg.(id := id))]
            && recorded.nextID == st.nextID + (if id == st.nextID then 1 else 0)
            && if exists was :: Records(st.packages, was, pkg.name, pkg.hash) then
                 Records(st.packages, id, pkg.name, pkg.hash) else id == st.nextID
  {
    hide Valid, FindByHash;
    ContentLookup(st, pkg.name, pkg.hash);
  }
}
