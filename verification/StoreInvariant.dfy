/** What every committed state of an undamaged store satisfies, and that each
    operation keeps it. */
module StoreInvariant {
  import opened Wrappers
  import opened LinkStore
  import opened LinkIndexes

  ghost predicate AllReadable<T(!new)>(bucket: map<nat, Slot<T>>) {
    forall id :: id in bucket ==> bucket[id].Readable?
  }

  predicate LegalName(name: string) {
    name != "" && '\0' !in name
  }

  ghost predicate Readables(st: State) {
    AllReadable(st.packages) && AllReadable(st.links) && AllReadable(st.projects)
  }

  /** Every record is stored under its own ID, below the shared counter, and no ID
      names two records. */
  ghost predicate Keyed(st: State)
    requires Readables(st)
  {
    && st.nextID > 0
    && (forall id :: id in st.packages ==> st.packages[id].value.id == id && 0 < id < st.nextID)
    && (forall id :: id in st.links ==> st.links[id].value.id == id && 0 < id < st.nextID)
    && (forall id :: id in st.projects ==> st.projects[id].value.id == id && 0 < id < st.nextID)
    && st.packages.Keys !! st.links.Keys !! st.projects.Keys
  }

  /** A project holds at most one row per package name. */
  ghost predicate OneRowPerName(packages: PackageMap, links: LinkMap)
    requires AllReadable(links)
  {
    forall a, b | a in links && b in links && a != b ::
      !(links[a].value.proj == links[b].value.proj
        && PackageName(packages, links[a].value.pkg) == PackageName(packages, links[b].value.pkg))
  }

  ghost predicate Referential(packages: PackageMap, projects: ProjectMap, links: LinkMap)
    requires AllReadable(links)
  {
    forall id :: id in links ==> links[id].value.pkg in packages && links[id].value.proj in projects
  }

  ghost predicate UniqueVersions(packages: PackageMap)
    requires AllReadable(packages)
  {
    forall p, q | p in packages && q in packages && p != q ::
      !(packages[p].value.name == packages[q].value.name && packages[p].value.hash == packages[q].value.hash)
  }

  /** Versions carry legal names, and a name and a content hash identify one record. */
  ghost predicate Versions(packages: PackageMap) {
    && AllReadable(packages)
    && (forall id :: id in packages ==> LegalName(packages[id].value.name))
    && UniqueVersions(packages)
  }

  /** The rows, their indexes and the records they name. */
  ghost predicate Rows(packages: PackageMap, projects: ProjectMap, links: LinkMap, byPackage: Index, byProject: Index) {
    && AllReadable(links)
    && Exact(byPackage, links, ByPackage)
    && Exact(byProject, links, ByProject)
    && Referential(packages, projects, links)
    && OneRowPerName(packages, links)
  }

  ghost predicate Core(st: State) {
    && Readables(st)
    && Keyed(st)
    && Versions(st.packages)
    && Rows(st.packages, st.projects, st.links, st.linksByPackage, st.linksByProject)
  }

  /** Rows stay sound when records are added, or relabelled under their own names. */
  lemma RowsUnderRecords(packages: PackageMap, projects: ProjectMap, packages': PackageMap, projects': ProjectMap,
                         links: LinkMap,
                         byPackage: Index, byProject: Index)
    requires Rows(packages, projects, links, byPackage, byProject)
    requires packages.Keys <= packages'.Keys && projects.Keys <= projects'.Keys
    requires forall id :: id in packages ==> PackageName(packages', id) == PackageName(packages, id)
    ensures Rows(packages', projects', links, byPackage, byProject)
  {
  }

  ghost predicate Tagged(packages: PackageMap, key: string, hash: string, id: nat) {
    && id in packages && packages[id].Readable?
    && TagKey(packages[id].value.name, "") <= key
    && packages[id].value.hash == hash
  }

  /** Every tag names an existing version of the package its key begins with. */
  ghost predicate TagsNameVersions(packages: PackageMap, tags: map<string, string>) {
    forall key :: key in tags ==> exists id :: Tagged(packages, key, tags[key], id)
  }

  predicate NamesLatest(packages: PackageMap, byName: map<string, nat>, tags: map<string, string>, name: string)
    requires name in byName
  {
    && byName[name] in packages && packages[byName[name]].Readable?
    && packages[byName[name]].value.name == name
    && TagKey(name, DEFAULT_TAG) in tags
    && tags[TagKey(name, DEFAULT_TAG)] == packages[byName[name]].value.hash
  }

  /** The name index names exactly the version the default tag names, and is absent
      exactly when that tag is. */
  ghost predicate NameIndexMirrorsLatest(packages: PackageMap, byName: map<string, nat>, tags: map<string, string>) {
    && (forall name :: name in byName ==> NamesLatest(packages, byName, tags, name))
    && (forall name :: LegalName(name) && TagKey(name, DEFAULT_TAG) in tags ==> name in byName)
  }

  ghost predicate PathIndexExact(projects: ProjectMap, byPath: map<string, nat>)
    requires AllReadable(projects)
  {
    && (forall path :: path in byPath ==> byPath[path] in projects && projects[byPath[path]].value.path == path)
    && (forall id :: id in projects ==> projects[id].value.path in byPath && byPath[projects[id].value.path] == id)
  }

  ghost predicate Valid(st: State) {
    && Core(st)
    && TagsNameVersions(st.packages, st.tags)
    && NameIndexMirrorsLatest(st.packages, st.byName, st.tags)
    && PathIndexExact(st.projects, st.byPath)
  }

  predicate Follows(packages: PackageMap, tags: map<string, string>, link: Link) {
    && link.pkg in packages && packages[link.pkg].Readable?
    && var key := TagKey(packages[link.pkg].value.name, link.Channel());
    && key in tags && tags[key] == packages[link.pkg].value.hash
  }

  /** Each unpinned link sits on exactly the build its channel names. */
  ghost predicate FollowersTrack(st: State) {
    AllFollow(st.packages, st.tags, st.links)
  }

  ghost predicate AllFollow(packages: PackageMap, tags: map<string, string>, links: LinkMap) {
    forall id :: id in links && links[id].Readable? && !links[id].value.pinned ==>
        Follows(packages, tags, links[id].value)
  }

  // ---------------------------------------------------------------- tag keys

  /** A legal name ends at the first NUL of a key, so a key belongs to one package
      and one tag: the prefix scan meets no other package's tags. */
  lemma TagKeyInjective(name: string, tag: string, name': string, tag': string)
    requires LegalName(name) && LegalName(name')
    requires TagKey(name, tag) == TagKey(name', tag')
    ensures name == name' && tag == tag'
  {
    var key := TagKey(name, tag);
    assert key[|name|] == '\0' && key[|name'|] == '\0';
    assert |name| >= |name'| by { assert forall i :: 0 <= i < |name'| ==> key[i] == name'[i]; }
    assert |name'| >= |name| by { assert forall i :: 0 <= i < |name| ==> key[i] == name[i]; }
    assert name == key[..|name|] == name';
    assert tag == key[|name| + 1..] == tag';
  }

  lemma PrefixNamesPackage(name: string, name': string, tag: string)
    requires LegalName(name) && LegalName(name')
    requires TagKey(name, "") <= TagKey(name', tag)
    ensures name == name'
  {
    var key := TagKey(name', tag);
    var rest := key[|TagKey(name, "")|..];
    assert key == TagKey(name, rest);
    TagKeyInjective(name, rest, name', tag);
  }

  lemma TagKeyPrefix(name: string, tag: string)
    ensures TagKey(name, "") <= TagKey(name, tag)
    ensures TagKey(name, tag)[|TagKey(name, "")|..] == tag
  {
    assert TagKey(name, tag) == TagKey(name, "") + tag;
  }

  /** The prefix scan of a legal name returns exactly that package's tags, each
      naming a version of that package. */
  lemma TagsForPackageExact(st: State, name: string)
    requires Valid(st) && LegalName(name)
    ensures forall tag :: tag in TagsForPackage(st, name) <==> TagKey(name, tag) in st.tags
    ensures forall tag :: tag in TagsForPackage(st, name) ==>
              && TagsForPackage(st, name)[tag] == st.tags[TagKey(name, tag)]
              && exists id :: Records(st.packages, id, name, st.tags[TagKey(name, tag)])
  {
    TagsForPackageScan(st, name);
    forall tag | TagKey(name, tag) in st.tags
      ensures exists id :: Records(st.packages, id, name, st.tags[TagKey(name, tag)])
    {
      var id := TagNames(st, name, tag);
    }
  }

  lemma TagsForPackageScan(st: State, name: string)
    ensures forall tag :: tag in TagsForPackage(st, name) <==> TagKey(name, tag) in st.tags
    ensures forall tag :: tag in TagsForPackage(st, name) ==>
              TagsForPackage(st, name)[tag] == st.tags[TagKey(name, tag)]
  {
    var prefix := TagKey(name, "");
    forall tag
      ensures tag in TagsForPackage(st, name) <==> TagKey(name, tag) in st.tags
      ensures tag in TagsForPackage(st, name) ==> TagsForPackage(st, name)[tag] == st.tags[TagKey(name, tag)]
    {
      TagKeyPrefix(name, tag);
      assert prefix + tag == TagKey(name, tag);
      if tag in TagsForPackage(st, name) {
        var k :| k in st.tags && prefix <= k && k[|prefix|..] == tag;
        assert k == prefix + tag;
      }
    }
  }

  lemma TagNames(st: State, name: string, tag: string) returns (id: nat)
    requires Core(st) && TagsNameVersions(st.packages, st.tags) && LegalName(name)
    requires TagKey(name, tag) in st.tags
    ensures Records(st.packages, id, name, st.tags[TagKey(name, tag)])
  {
    id :| Tagged(st.packages, TagKey(name, tag), st.tags[TagKey(name, tag)], id);
    PrefixNamesPackage(st.packages[id].value.name, name, tag);
  }

  /** A version's record is the one its name and content hash find. */
  lemma FindsRecord(packages: PackageMap, id: nat, name: string, hash: string)
    requires AllReadable(packages) && UniqueVersions(packages) && Records(packages, id, name, hash)
    ensures FindByHash(packages, name, hash) == Some(packages[id].value)
  {
  }

  // ---------------------------------------------------------------- a tag move

  /** Where every row is after a tag moved from one version to another. */
  function Carry(links: LinkMap, from: nat, to: nat, tag: string): LinkMap {
    map id | id in links :: if Owns(links, ByPackage, from, id) && Carried(links, id, tag)
                            then Readable(links[id].value.(pkg := to)) else links[id]
  }

  lemma CarryKeepsRows(st: State, from: nat, to: nat, tag: string)
    requires Core(st) && from in st.packages && to in st.packages
    requires st.packages[from].value.name == st.packages[to].value.name
    ensures AllReadable(Carry(st.links, from, to, tag))
    ensures OneRowPerName(st.packages, Carry(st.links, from, to, tag))
    ensures forall key, id :: Owns(Carry(st.links, from, to, tag), ByProject, key, id) <==>
              Owns(st.links, ByProject, key, id)
  {
  }

  /** In a sound state no project holds both versions, so moving a tag repoints its
      unpinned followers, touches no other row, and leaves the store sound. */
  lemma MoveLinksCarries(st: State, from: nat, to: nat, tag: string)
    requires Core(st) && from in st.packages && to in st.packages && from != to
    requires st.packages[from].value.name == st.packages[to].value.name
    ensures MoveLinks(st, from, to, tag).Ok?
    ensures var st' := MoveLinks(st, from, to, tag).value;
            && st' == st.(links := Carry(st.links, from, to, tag), linksByPackage := st'.linksByPackage)
            && Core(st')
  {
    EntryOf(st.linksByPackage, st.links, ByPackage, from);
    EntryOf(st.linksByPackage, st.links, ByPackage, to);
    var fromIDs := IndexIDs(st.linksByPackage, from).value;
    var toIDs := IndexIDs(st.linksByPackage, to).value;
    MoveIsUncontested(st, from, to, tag, fromIDs, toIDs);
    MoveLinksShape(st, from, to, tag, fromIDs, toIDs);
    CarryKeepsCore(st, from, to, tag, MoveLinks(st, from, to, tag).value.linksByPackage);
  }

  lemma MoveLinksShape(st: State, from: nat, to: nat, tag: string, fromIDs: seq<nat>, toIDs: seq<nat>)
    requires Exact(st.linksByPackage, st.links, ByPackage) && from != to
    requires IndexIDs(st.linksByPackage, from) == Ok(fromIDs) && IndexIDs(st.linksByPackage, to) == Ok(toIDs)
    requires forall id :: id in fromIDs <==> Owns(st.links, ByPackage, from, id)
    requires forall id :: id in toIDs <==> Owns(st.links, ByPackage, to, id)
    requires NoDuplicates(toIDs)
    requires Uncontested(Moving(st.links, st.linksByProject, ProjectsOf(st.links, toIDs), [], toIDs), fromIDs, tag)
    ensures MoveLinks(st, from, to, tag).Ok?
    ensures var st' := MoveLinks(st, from, to, tag).value;
            && st' == st.(links := Carry(st.links, from, to, tag), linksByPackage := st'.linksByPackage)
            && Exact(st'.linksByPackage, st'.links, ByPackage)
  {
    RepointedIsCarry(st.links, from, to, tag, fromIDs);
    var links' := Carry(st.links, from, to, tag);
    if fromIDs == [] {
      assert links' == st.links;
    } else {
      MoveAllRepoints(Moving(st.links, st.linksByProject, ProjectsOf(st.links, toIDs), [], toIDs), fromIDs, to, tag);
      MovedIndexExact(st, from, to, tag, fromIDs, toIDs);
      assert [] + Staying(st.links, fromIDs, tag) == Staying(st.links, fromIDs, tag);
    }
  }

  lemma RepointedIsCarry(links: LinkMap, from: nat, to: nat, tag: string, fromIDs: seq<nat>)
    requires forall id :: id in fromIDs <==> Owns(links, ByPackage, from, id)
    ensures Repointed(links, fromIDs, to, tag) == Carry(links, from, to, tag)
  {
  }

  lemma CarryKeepsCore(st: State, from: nat, to: nat, tag: string, index: Index)
    requires Core(st) && from in st.packages && to in st.packages
    requires st.packages[from].value.name == st.packages[to].value.name
    requires Exact(index, Carry(st.links, from, to, tag), ByPackage)
    ensures Core(st.(links := Carry(st.links, from, to, tag), linksByPackage := index))
  {
    CarryKeepsRows(st, from, to, tag);
    SameOwnersKeepExact(st.linksByProject, st.links, Carry(st.links, from, to, tag), ByProject);
    assert Carry(st.links, from, to, tag).Keys == st.links.Keys;
  }

  lemma MoveIsUncontested(st: State, from: nat, to: nat, tag: string, fromIDs: seq<nat>, toIDs: seq<nat>)
    requires Core(st) && from in st.packages && to in st.packages && from != to
    requires st.packages[from].value.name == st.packages[to].value.name
    requires NoDuplicates(fromIDs)
    requires forall id :: id in fromIDs <==> Owns(st.links, ByPackage, from, id)
    requires forall id :: id in toIDs <==> Owns(st.links, ByPackage, to, id)
    ensures Uncontested(Moving(st.links, st.linksByProject, ProjectsOf(st.links, toIDs), [], toIDs), fromIDs, tag)
  {
    ProjectsOfSpec(st.links, toIDs);
  }

  lemma MovedIndexExact(st: State, from: nat, to: nat, tag: string, fromIDs: seq<nat>, toIDs: seq<nat>)
    requires Exact(st.linksByPackage, st.links, ByPackage) && from != to
    requires NoDuplicates(fromIDs) && NoDuplicates(toIDs)
    requires forall id :: id in fromIDs <==> Owns(st.links, ByPackage, from, id)
    requires forall id :: id in toIDs <==> Owns(st.links, ByPackage, to, id)
    ensures Exact(PutIndexIDs(PutIndexIDs(st.linksByPackage, from, Staying(st.links, fromIDs, tag)), to, toIDs +
              Leaving(st.links, fromIDs, tag)),
                  Carry(st.links, from, to, tag), ByPackage)
  {
    var stay, leaving := Staying(st.links, fromIDs, tag), Leaving(st.links, fromIDs, tag);
    SplitSpec(st.links, fromIDs, tag);
    NoDuplicatesAppend(toIDs, leaving);
    PutSpec(st.linksByPackage, from, stay);
    var half := PutIndexIDs(st.linksByPackage, from, stay);
    PutSpec(half, to, toIDs + leaving);
    var index' := PutIndexIDs(half, to, toIDs + leaving);
    var links' := Carry(st.links, from, to, tag);
    forall key, id ensures Lists(index', key, id) <==> Owns(links', ByPackage, key, id) {
      assert Lists(st.linksByPackage, key, id) <==> Owns(st.links, ByPackage, key, id);
      CarriedOwner(st.links, from, to, tag, key, id);
      if key == to {
        assert Lists(index', key, id) <==> id in toIDs || id in leaving;
      } else if key == from {
        assert Lists(index', key, id) <==> id in stay;
      } else {
        assert Lists(index', key, id) <==> Lists(st.linksByPackage, key, id);
      }
    }
  }

  lemma CarriedOwner(links: LinkMap, from: nat, to: nat, tag: string, key: nat, id: nat)
    requires from != to
    ensures Owns(Carry(links, from, to, tag), ByPackage, key, id) <==>
            if key == to then Owns(links, ByPackage, to, id) ||
                (Owns(links, ByPackage, from, id) && Carried(links, id, tag))
            else if key == from then Owns(links, ByPackage, from, id) && !Carried(links, id, tag)
            else Owns(links, ByPackage, key, id)
  {
  }
}
