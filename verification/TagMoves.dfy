/** Publishing and tagging: what a tag move changes, and that it keeps every
    invariant of an undamaged store. */
module TagMoves {
  import opened Wrappers
  import opened LinkStore
  import opened StoreInvariant

  /** Everything but the links, their package index, the tags and the name index is
      as it was. */
  ghost predicate OnlyTagsAndLinksMoved(st: State, st': State) {
    st' == st.(links := st'.links, linksByPackage := st'.linksByPackage, tags := st'.tags, byName := st'.byName)
  }

  /** The rows after a tag of a package moved to the version with the given ID. */
  ghost function MovedLinks(st: State, name: string, named: string, hash: string, id: nat): LinkMap {
    var previous := Superseded(st, name, named, hash);
    if previous.Some? && previous.value.id != id then Carry(st.links, previous.value.id, id, named) else st.links
  }

  function MovedTags(st: State, name: string, named: string, hash: string): map<string, string> {
    var tags := st.tags[TagKey(name, named) := hash];
    if name in st.byName then tags else tags[TagKey(name, DEFAULT_TAG) := hash]
  }

  function MovedByName(st: State, name: string, named: string, id: nat): map<string, nat> {
    if named == DEFAULT_TAG || name !in st.byName then st.byName[name := id] else st.byName
  }

  lemma SupersededRecord(st: State, name: string, named: string, hash: string)
    requires Core(st) && TagsNameVersions(st.packages, st.tags) && LegalName(name)
    ensures var key := TagKey(name, named);
            Superseded(st, name, named, hash).Some? <==> key in st.tags && st.tags[key] != hash
    ensures Superseded(st, name, named, hash).Some? ==>
              var previous := Superseded(st, name, named, hash).value;
              && Records(st.packages, previous.id, name, st.tags[TagKey(name, named)])
              && st.packages[previous.id].value == previous
  {
    var key := TagKey(name, named);
    if key in st.tags && st.tags[key] != hash {
      var p := TagNames(st, name, named);
      FindsRecord(st.packages, p, name, st.tags[key]);
    }
  }

  lemma RecordedName(st: State, name: string, hash: string, id: nat)
    requires Core(st) && Records(st.packages, id, name, hash)
    ensures LegalName(name)
  {
  }

  /** The default tag: the tag and the name index move together, and the followers
      of whatever it named before are carried. */
  lemma SetDefaultTagShape(st: State, name: string, tag: string, hash: string, id: nat)
    requires Core(st) && TagsNameVersions(st.packages, st.tags)
    requires Records(st.packages, id, name, hash) && NamedTag(tag) == DEFAULT_TAG
    ensures SetTagTx(st, name, tag, hash, id).Ok?
    ensures var st' := SetTagTx(st, name, tag, hash, id).value;
            && OnlyTagsAndLinksMoved(st, st') && Core(st')
            && st'.tags == st.tags[TagKey(name, DEFAULT_TAG) := hash]
            && st'.byName == st.byName[name := id]
            && st'.links == MovedLinks(st, name, DEFAULT_TAG, hash, id)
            && (Superseded(st, name, DEFAULT_TAG, hash).None? ==> st'.linksByPackage == st.linksByPackage)
  {
    hide Core, TagsNameVersions, MoveLinks, Superseded, TagKey, SetTagTx;
    SetDefaultTagUnfolds(st, name, tag, hash, id);
    RecordedName(st, name, hash, id);
    SupersededRecord(st, name, DEFAULT_TAG, hash);
    var previous := Superseded(st, name, DEFAULT_TAG, hash);
    var indexed := st.(tags := st.tags[TagKey(name, DEFAULT_TAG) := hash], byName := st.byName[name := id]);
    SameRowsKeepCore(st, indexed);
    if previous.Some? && previous.value.id != id {
      MoveLinksCarries(indexed, previous.value.id, id, DEFAULT_TAG);
    }
  }

  lemma SetDefaultTagUnfolds(st: State, name: string, tag: string, hash: string, id: nat)
    requires NamedTag(tag) == DEFAULT_TAG
    ensures var previous := Superseded(st, name, DEFAULT_TAG, hash);
            var indexed := st.(tags := st.tags[TagKey(name, DEFAULT_TAG) := hash], byName := st.byName[name := id]);
            SetTagTx(st, name, tag, hash, id)
            == if previous.Some? && previous.value.id != id then MoveLinks(indexed, previous.value.id, id,
                DEFAULT_TAG) else Ok(indexed)
  {
  }

  lemma SameRowsKeepCore(st: State, st': State)
    requires Core(st) && st' == st.(tags := st'.tags, byName := st'.byName)
    ensures Core(st')
  {
  }

  lemma SetTagShape(st: State, name: string, tag: string, hash: string, id: nat)
    requires Core(st) && TagsNameVersions(st.packages, st.tags)
    requires NameIndexMirrorsLatest(st.packages, st.byName, st.tags)
    requires Records(st.packages, id, name, hash)
    ensures SetTagTx(st, name, tag, hash, id).Ok?
    ensures var st' := SetTagTx(st, name, tag, hash, id).value; var named := NamedTag(tag);
            && OnlyTagsAndLinksMoved(st, st') && Core(st')
            && st'.tags == MovedTags(st, name, named, hash)
            && st'.byName == MovedByName(st, name, named, id)
            && st'.links == MovedLinks(st, name, named, hash, id)
  {
    hide Core, TagsNameVersions, NameIndexMirrorsLatest, MoveLinks, Superseded, Records, TagKey, MovedLinks, SetTagTx;
    if NamedTag(tag) == DEFAULT_TAG {
      var latest := TagKey(name, DEFAULT_TAG);
      SetDefaultTagShape(st, name, tag, hash, id);
      assert st.tags[latest := hash][latest := hash] == st.tags[latest := hash];
    } else {
      SetNamedTagShape(st, name, tag, hash, id);
    }
  }

  lemma SetNamedTagShape(st: State, name: string, tag: string, hash: string, id: nat)
    requires Core(st) && TagsNameVersions(st.packages, st.tags)
    requires NameIndexMirrorsLatest(st.packages, st.byName, st.tags)
    requires Records(st.packages, id, name, hash) && NamedTag(tag) != DEFAULT_TAG
    ensures SetTagTx(st, name, tag, hash, id).Ok?
    ensures OnlyTagsAndLinksMoved(st, SetTagTx(st, name, tag, hash, id).value)
    ensures Core(SetTagTx(st, name, tag, hash, id).value)
    ensures SetTagTx(st, name, tag, hash, id).value.tags == MovedTags(st, name, NamedTag(tag), hash)
    ensures SetTagTx(st, name, tag, hash, id).value.byName == MovedByName(st, name, NamedTag(tag), id)
    ensures SetTagTx(st, name, tag, hash, id).value.links == MovedLinks(st, name, NamedTag(tag), hash, id)
  {
    hide Core, TagsNameVersions, NameIndexMirrorsLatest, MoveLinks, Superseded, TagKey, SetTagTx, MovedTags,
         MovedByName;
    RecordedName(st, name, hash, id);
    var named := NamedTag(tag);
    SupersededRecord(st, name, named, hash);
    IndexedUnderDefault(st, name, named, hash, id);
    var indexed := st.(tags := MovedTags(st, name, named, hash), byName := MovedByName(st, name, named, id));
    SameRowsKeepCore(st, indexed);
    var previous := Superseded(st, name, named, hash);
    SetTagTxUnfolds(st, name, tag, hash, id, indexed);
    if previous.Some? && previous.value.id != id {
      MoveLinksCarries(indexed, previous.value.id, id, named);
    }
  }

  lemma SetTagTxUnfolds(st: State, name: string, tag: string, hash: string, id: nat, indexed: State)
    requires NamedTag(tag) != DEFAULT_TAG
    requires var tagged := st.(tags := st.tags[TagKey(name, NamedTag(tag)) := hash]);
             if name in st.byName then tagged == indexed
                 else SetTagTx(tagged, name, DEFAULT_TAG, hash, id) == Ok(indexed)
    ensures var previous := Superseded(st, name, NamedTag(tag), hash);
            SetTagTx(st, name, tag, hash, id)
            == if previous.Some? && previous.value.id != id then MoveLinks(indexed, previous.value.id, id,
                NamedTag(tag)) else Ok(indexed)
  {
  }

  /** A package no name reaches gains the default tag, and nothing follows it yet. */
  lemma IndexedUnderDefault(st: State, name: string, named: string, hash: string, id: nat)
    requires Core(st) && TagsNameVersions(st.packages, st.tags)
    requires NameIndexMirrorsLatest(st.packages, st.byName, st.tags)
    requires Records(st.packages, id, name, hash) && named != DEFAULT_TAG
    ensures var tagged := st.(tags := st.tags[TagKey(name, named) := hash]);
            if name in st.byName then tagged ==
                st.(tags := MovedTags(st, name, named, hash), byName := MovedByName(st, name, named, id))
            else SetTagTx(tagged, name, DEFAULT_TAG, hash, id)
                 == Ok(st.(tags := MovedTags(st, name, named, hash), byName := MovedByName(st, name, named, id)))
  {
    RecordedName(st, name, hash, id);
    if name !in st.byName {
      var key := TagKey(name, named);
      var tagged := st.(tags := st.tags[key := hash]);
      SameRowsKeepCore(st, tagged);
      TagKeyPrefix(name, named);
      TaggedVersionNames(st.packages, st.tags, key, hash, id);
      if key == TagKey(name, DEFAULT_TAG) { TagKeyInjective(name, named, name, DEFAULT_TAG); }
      assert Superseded(tagged, name, DEFAULT_TAG, hash).None?;
      SetDefaultTagShape(tagged, name, DEFAULT_TAG, hash, id);
    }
  }

  lemma TaggedVersionNames(packages: PackageMap, tags: map<string, string>, key: string, hash: string, id: nat)
    requires TagsNameVersions(packages, tags) && Tagged(packages, key, hash, id)
    ensures TagsNameVersions(packages, tags[key := hash])
  {
    var tags' := tags[key := hash];
    forall k | k in tags' ensures exists p :: Tagged(packages, k, tags'[k], p) {
      if k == key {
        assert Tagged(packages, k, tags'[k], id);
      } else {
        assert exists p :: Tagged(packages, k, tags[k], p);
      }
    }
  }

  lemma MovedTagsNameVersions(st: State, name: string, named: string, hash: string, id: nat)
    requires Core(st) && TagsNameVersions(st.packages, st.tags) && Records(st.packages, id, name, hash)
    ensures TagsNameVersions(st.packages, MovedTags(st, name, named, hash))
  {
    TagKeyPrefix(name, named);
    TagKeyPrefix(name, DEFAULT_TAG);
    TaggedVersionNames(st.packages, st.tags, TagKey(name, named), hash, id);
    TaggedVersionNames(st.packages, st.tags[TagKey(name, named) := hash], TagKey(name, DEFAULT_TAG), hash, id);
  }

  lemma MovedIndexMirrors(st: State, name: string, named: string, hash: string, id: nat)
    requires Core(st) && NameIndexMirrorsLatest(st.packages, st.byName, st.tags) && Records(st.packages, id, name, hash)
    ensures NameIndexMirrorsLatest(st.packages, MovedByName(st, name, named, id), MovedTags(st, name, named, hash))
  {
    RecordedName(st, name, hash, id);
    var byName', tags' := MovedByName(st, name, named, id), MovedTags(st, name, named, hash);
    forall other | LegalName(other)
      ensures other in byName' ==> NamesLatest(st.packages, byName', tags', other)
      ensures TagKey(other, DEFAULT_TAG) in tags' ==> other in byName'
    {
      if TagKey(other, DEFAULT_TAG) == TagKey(name, named) { TagKeyInjective(other, DEFAULT_TAG, name, named); }
      if TagKey(other, DEFAULT_TAG) == TagKey(name, DEFAULT_TAG) {
        TagKeyInjective(other, DEFAULT_TAG, name, DEFAULT_TAG);
      }
      if other in st.byName { assert NamesLatest(st.packages, st.byName, st.tags, other); }
    }
    forall other | other in byName' ensures LegalName(other) {
      if other != name { assert NamesLatest(st.packages, st.byName, st.tags, other); }
    }
  }

  lemma MovedFollowersTrack(st: State, name: string, named: string, hash: string, id: nat)
    requires Valid(st) && FollowersTrack(st) && Records(st.packages, id, name, hash)
    ensures AllFollow(st.packages, MovedTags(st, name, named, hash), MovedLinks(st, name, named, hash, id))
  {
    var links' := MovedLinks(st, name, named, hash, id);
    forall l | l in links' && links'[l].Readable? && !links'[l].value.pinned
      ensures Follows(st.packages, MovedTags(st, name, named, hash), links'[l].value)
    {
      MovedRow(st, name, named, hash, id, l);
      MovedRowFollows(st, name, named, hash, id, l);
    }
  }

  lemma MovedRow(st: State, name: string, named: string, hash: string, id: nat, l: nat)
    requires Valid(st) && Records(st.packages, id, name, hash)
    requires l in st.links && (st.links[l].value.pinned || Follows(st.packages, st.tags, st.links[l].value))
    ensures var links' := MovedLinks(st, name, named, hash, id); var row := st.links[l].value;
            && links'.Keys == st.links.Keys
            && links'[l] == if !row.pinned && row.Channel() == named && PackageName(st.packages, row.pkg) == name
                            then Readable(row.(pkg := id)) else Readable(row)
  {
    RecordedName(st, name, hash, id);
    SupersededRecord(st, name, named, hash);
    var row := st.links[l].value;
    var previous := Superseded(st, name, named, hash);
    if !row.pinned && row.Channel() == named && PackageName(st.packages, row.pkg) == name {
      SameVersion(st.packages, row.pkg, name, st.tags[TagKey(name, named)]);
      if previous.Some? {
        assert row.pkg == previous.value.id;
      } else {
        assert row.pkg == id;
      }
    }
  }

  lemma SameVersion(packages: PackageMap, id: nat, name: string, hash: string)
    requires AllReadable(packages) && UniqueVersions(packages) && Records(packages, id, name, hash)
    ensures forall p :: Records(packages, p, name, hash) ==> p == id
  {
  }

  lemma MovedRowFollows(st: State, name: string, named: string, hash: string, id: nat, l: nat)
    requires Valid(st) && Records(st.packages, id, name, hash)
    requires l in st.links && !st.links[l].value.pinned && Follows(st.packages, st.tags, st.links[l].value)
    ensures var row := st.links[l].value;
            Follows(st.packages, MovedTags(st, name, named, hash),
                    if row.Channel() == named && PackageName(st.packages, row.pkg) == name then row.(pkg := id)
                        else row)
  {
    RecordedName(st, name, hash, id);
    var row := st.links[l].value;
    var owner := st.packages[row.pkg].value.name;
    if TagKey(owner, row.Channel()) == TagKey(name, named) { TagKeyInjective(owner, row.Channel(), name, named); }
    if TagKey(owner, row.Channel()) == TagKey(name, DEFAULT_TAG) {
      TagKeyInjective(owner, row.Channel(), name, DEFAULT_TAG);
    }
  }

  /** A tag move keeps every invariant of the store, its followers included. */
  lemma SetTagKeepsValid(st: State, name: string, tag: string, hash: string, id: nat)
    requires Valid(st) && Records(st.packages, id, name, hash)
    ensures SetTagTx(st, name, tag, hash, id).Ok?
    ensures Valid(SetTagTx(st, name, tag, hash, id).value)
    ensures FollowersTrack(st) ==> FollowersTrack(SetTagTx(st, name, tag, hash, id).value)
  {
    var named := NamedTag(tag);
    SetTagShape(st, name, tag, hash, id);
    MovedTagsNameVersions(st, name, named, hash, id);
    MovedIndexMirrors(st, name, named, hash, id);
    if FollowersTrack(st) { MovedFollowersTrack(st, name, named, hash, id); }
  }

  /** A tag move changes no link that is pinned, follows another tag, or consumes
      another package; and every link it does change lands on the version tagged. */
  lemma TagMoveIsConfined(st: State, name: string, tag: string, hash: string, id: nat, l: nat)
    requires Valid(st) && FollowersTrack(st) && Records(st.packages, id, name, hash) && l in st.links
    ensures SetTagTx(st, name, tag, hash, id).Ok?
    ensures var st' := SetTagTx(st, name, tag, hash, id).value; var row := st.links[l].value;
            && st'.links.Keys == st.links.Keys
            && st'.links[l] == if !row.pinned && row.Channel() == NamedTag(tag) &&
                PackageName(st.packages, row.pkg) == name
                               then Readable(row.(pkg := id)) else Readable(row)
  {
    SetTagShape(st, name, tag, hash, id);
    assert st.links[l].value.pinned || Follows(st.packages, st.tags, st.links[l].value);
    MovedRow(st, name, NamedTag(tag), hash, id, l);
  }

  // ---------------------------------------------------------------- publish

  /** Names, tags and followers depend on the versions recorded and on nothing else
      about their records. */
  lemma SameVersionsKeepNames(st: State, packages': PackageMap)
    requires TagsNameVersions(st.packages, st.tags) && NameIndexMirrorsLatest(st.packages, st.byName, st.tags)
    requires SameVersions(st.packages, packages')
    ensures TagsNameVersions(packages', st.tags) && NameIndexMirrorsLatest(packages', st.byName, st.tags)
    ensures AllFollow(st.packages, st.tags, st.links) ==> AllFollow(packages', st.tags, st.links)
  {
    forall key | key in st.tags ensures exists id :: Tagged(packages', key, st.tags[key], id) {
      var id :| Tagged(st.packages, key, st.tags[key], id);
      assert Records(packages', id, st.packages[id].value.name, st.tags[key]);
      assert Tagged(packages', key, st.tags[key], id);
    }
    forall name | name in st.byName ensures NamesLatest(packages', st.byName, st.tags, name) {
      assert NamesLatest(st.packages, st.byName, st.tags, name);
      assert Records(st.packages, st.byName[name], name, st.packages[st.byName[name]].value.hash);
    }
    forall l | l in st.links && st.links[l].Readable? && Follows(st.packages, st.tags, st.links[l].value)
      ensures Follows(packages', st.tags, st.links[l].value)
    {
      var p := st.links[l].value.pkg;
      assert Records(st.packages, p, st.packages[p].value.name, st.packages[p].value.hash);
    }
  }

  /** Every version recorded before is recorded still, under the same content. */
  ghost predicate SameVersions(packages: PackageMap, packages': PackageMap) {
    forall p, name, hash :: Records(packages, p, name, hash) ==> Records(packages', p, name, hash)
  }

  /** Recording content a version already holds relabels that version. */
  lemma RelabelKeepsValid(st: State, existing: nat, row: Package)
    requires Valid(st) && existing in st.packages
    requires row == st.packages[existing].value.(version := row.version, updatedAt := row.updatedAt)
    ensures Valid(st.(packages := st.packages[existing := Readable(row)]))
    ensures FollowersTrack(st) ==> FollowersTrack(st.(packages := st.packages[existing := Readable(row)]))
  {
    hide Versions, Rows, PathIndexExact, TagsNameVersions, NameIndexMirrorsLatest, AllFollow;
    var packages' := st.packages[existing := Readable(row)];
    SameVersionsKeepNames(st, packages');
    RowsUnderRecords(st.packages, st.projects, packages', st.projects, st.links, st.linksByPackage, st.linksByProject);
    RelabelKeepsVersions(st.packages, existing, row);
  }

  lemma RelabelKeepsVersions(packages: PackageMap, existing: nat, row: Package)
    requires Versions(packages) && existing in packages
    requires row == packages[existing].value.(version := row.version, updatedAt := row.updatedAt)
    ensures Versions(packages[existing := Readable(row)])
  {
  }

  lemma NewVersionKeepsValid(st: State, pkg: Package)
    requires Valid(st) && LegalName(pkg.name) && pkg.id == st.nextID
    requires forall id :: !Records(st.packages, id, pkg.name, pkg.hash)
    ensures Valid(st.(nextID := st.nextID + 1, packages := st.packages[st.nextID := Readable(pkg)]))
    ensures FollowersTrack(st) ==>
              FollowersTrack(st.(nextID := st.nextID + 1, packages := st.packages[st.nextID := Readable(pkg)]))
  {
    hide Versions, Rows, PathIndexExact, TagsNameVersions, NameIndexMirrorsLatest, AllFollow;
    var packages' := st.packages[st.nextID := Readable(pkg)];
    assert st.nextID !in st.packages && st.nextID !in st.links && st.nextID !in st.projects;
    SameVersionsKeepNames(st, packages');
    RowsUnderRecords(st.packages, st.projects, packages', st.projects, st.links, st.linksByPackage, st.linksByProject);
    NewVersionKeepsVersions(st.packages, st.nextID, pkg);
  }

  lemma NewVersionKeepsVersions(packages: PackageMap, id: nat, pkg: Package)
    requires Versions(packages) && LegalName(pkg.name) && id !in packages
    requires forall id :: !Records(packages, id, pkg.name, pkg.hash)
    ensures Versions(packages[id := Readable(pkg)])
  {
    forall p | p in packages ensures !(packages[p].value.name == pkg.name && packages[p].value.hash == pkg.hash) {
      assert !Records(packages, p, pkg.name, pkg.hash);
    }
  }

  /** The state a publish sets its tag in, and the record it tags. */
  ghost function Recorded(st: State, pkg: Package): (State, nat) {
    match FindByHash(st.packages, pkg.name, pkg.hash)
    case Some(existing) =>
      var row := existing.(version := pkg.version, updatedAt := pkg.updatedAt);
      (st.(packages := st.packages[existing.id := Readable(row)]), existing.id)
    case None =>
      (st.(nextID := st.nextID + 1, packages := st.packages[st.nextID := Readable(pkg.(id := st.nextID))]), st.nextID)
  }

  lemma RecordedIsValid(st: State, pkg: Package)
    requires Valid(st) && LegalName(pkg.name)
    ensures Valid(Recorded(st, pkg).0)
    ensures Records(Recorded(st, pkg).0.packages, Recorded(st, pkg).1, pkg.name, pkg.hash)
    ensures FollowersTrack(st) ==> FollowersTrack(Recorded(st, pkg).0)
    ensures var st' := Recorded(st, pkg).0; st' == st.(packages := st'.packages, nextID := st'.nextID)
    ensures SameVersions(st.packages, Recorded(st, pkg).0.packages)
  {
    hide Valid, FollowersTrack, FindByHash, LegalName, SameVersions, Records;
    ContentLookup(st, pkg.name, pkg.hash);
    var found := FindByHash(st.packages, pkg.name, pkg.hash);
    if found.Some? {
      var row := found.value.(version := pkg.version, updatedAt := pkg.updatedAt);
      RelabelKeepsValid(st, found.value.id, row);
      RecordingKeepsVersions(st.packages, found.value.id, row);
    } else {
      NewVersionKeepsValid(st, pkg.(id := st.nextID));
      RecordingKeepsVersions(st.packages, st.nextID, pkg.(id := st.nextID));
    }
  }

  lemma RecordingKeepsVersions(packages: PackageMap, id: nat, row: Package)
    requires id in packages ==> Records(packages, id, row.name, row.hash)
    ensures SameVersions(packages, packages[id := Readable(row)])
    ensures Records(packages[id := Readable(row)], id, row.name, row.hash)
  {
  }

  /** The lookup by content gives the one version recorded, under its own ID. */
  lemma ContentLookup(st: State, name: string, hash: string)
    requires Valid(st)
    ensures var found := FindByHash(st.packages, name, hash);
            if found.Some? then
              && Records(st.packages, found.value.id, name, hash)
              && found.value.name == name && found.value.hash == hash
              && found.value.id in st.packages && st.packages[found.value.id] == Readable(found.value)
            else forall id :: !Records(st.packages, id, name, hash)
    ensures st.nextID !in st.packages
  {
    if id :| Records(st.packages, id, name, hash) {
      FindsRecord(st.packages, id, name, hash);
    }
  }

  /** A publish keeps every invariant, and leaves the published content under one
      record that the tag names. */
  lemma PublishKeepsValid(st: State, pkg: Package, rows: seq<FileRow>, tag: string)
    requires Valid(st) && LegalName(pkg.name)
    ensures InsertPackageWithFiles(st, pkg, rows, tag).Ok?
    ensures Valid(InsertPackageWithFiles(st, pkg, rows, tag).value)
    ensures FollowersTrack(st) ==> FollowersTrack(InsertPackageWithFiles(st, pkg, rows, tag).value)
    ensures var st' := InsertPackageWithFiles(st, pkg, rows, tag).value;
            && (exists id :: Records(st'.packages, id, pkg.name, pkg.hash))
            && TagKey(pkg.name, NamedTag(tag)) in st'.tags
            && st'.tags[TagKey(pkg.name, NamedTag(tag))] == pkg.hash
  {
    RecordedIsValid(st, pkg);
    var (recorded, id) := Recorded(st, pkg);
    PublishTags(st, pkg, rows, tag);
    var tagged := SetTagTx(recorded, pkg.name, tag, pkg.hash, id).value;
    assert Records(tagged.packages, id, pkg.name, pkg.hash);
    MovedTagsHold(recorded, pkg.name, NamedTag(tag), pkg.hash);
    FilesKeepValid(tagged, id, rows);
  }

  lemma MovedTagsHold(st: State, name: string, named: string, hash: string)
    ensures TagKey(name, named) in MovedTags(st, name, named, hash)
    ensures MovedTags(st, name, named, hash)[TagKey(name, named)] == hash
  {
  }

  lemma PublishTags(st: State, pkg: Package, rows: seq<FileRow>, tag: string)
    requires Valid(st) && LegalName(pkg.name)
    ensures var (recorded, id) := Recorded(st, pkg); var tagged := SetTagTx(recorded, pkg.name, tag, pkg.hash, id);
            && tagged.Ok? && InsertPackageWithFiles(st, pkg, rows, tag) == Ok(InsertFilesTx(tagged.value, id, rows))
            && Valid(tagged.value)
            && (FollowersTrack(st) ==> FollowersTrack(tagged.value))
            && OnlyTagsAndLinksMoved(recorded, tagged.value)
            && tagged.value.tags == MovedTags(recorded, pkg.name, NamedTag(tag), pkg.hash)
  {
    RecordedIsValid(st, pkg);
    var (recorded, id) := Recorded(st, pkg);
    SetTagKeepsValid(recorded, pkg.name, tag, pkg.hash, id);
    SetTagShape(recorded, pkg.name, tag, pkg.hash, id);
  }

  lemma FilesKeepValid(st: State, pkg: nat, rows: seq<FileRow>)
    requires Valid(st)
    ensures Valid(InsertFilesTx(st, pkg, rows))
    ensures FollowersTrack(st) ==> FollowersTrack(InsertFilesTx(st, pkg, rows))
  {
  }
}
