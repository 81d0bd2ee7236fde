/** The relational store behind every command: one map per bucket, and each
    operation as a function from the state before a transaction to the state it
    commits, or to the error that rolls it back (internal/db/db.go). */
module LinkStore {
  import opened Wrappers

  const DEFAULT_TAG := "latest"
  const TAG_SEPARATOR := "\0"

  /** A stored value that decodes, or bytes that do not. */
  datatype Slot<+T> = Readable(value: T) | Damaged(bytes: string)

  datatype Package = Package(id: nat, name: string, version: string, hash: string, updatedAt: int)

  datatype Project = Project(id: nat, path: string, manager: string)

  datatype Link = Link(id: nat, pkg: nat, proj: nat, kind: string, tag: string, pinned: bool) {
    /** The channel a link follows; a link that records none follows the default one. */
    function Channel(): string {
      if tag == "" then DEFAULT_TAG else tag
    }
  }

  datatype FileRow = FileRow(id: nat, pkg: nat, path: string, hash: string, perm: nat)

  type LinkMap = map<nat, Slot<Link>>
  type Index = map<nat, Slot<seq<nat>>>
  type PackageMap = map<nat, Slot<Package>>
  type ProjectMap = map<nat, Slot<Project>>

  datatype State = State(
    packages: PackageMap,
    byName: map<string, nat>,
    tags: map<string, string>,
    links: LinkMap,
    linksByPackage: Index,
    linksByProject: Index,
    projects: ProjectMap,
    byPath: map<string, nat>,
    files: map<nat, seq<FileRow>>,
    nextID: nat)

  const EMPTY := State(map[], map[], map[], map[], map[], map[], map[], map[], map[], 1)

  datatype Error =
    | IndexUnreadable(key: nat)
    | LinkMissing(id: nat)
    | LinkUnreadable(id: nat)
    | RecordUnreadable(id: nat)
    | NoSuchVersion(name: string, hash: string)
    | DefaultTagProtected
    | NewerSchema
    | NotFound
    | Ambiguous

  type Outcome = Result<State, Error>

  // ---------------------------------------------------------------- tag keys

  function TagKey(name: string, tag: string): string {
    name + TAG_SEPARATOR + tag
  }

  /** Every tag whose key starts with the name and the separator: the prefix scan. */
  function TagsForPackage(st: State, name: string): map<string, string> {
    var prefix := TagKey(name, "");
    assert forall k :: k in st.tags && prefix <= k ==> prefix + k[|prefix|..] == k;
    map tag | tag in (set k | k in st.tags && prefix <= k :: k[|prefix|..]) :: st.tags[prefix + tag]
  }

  function NamedTag(tag: string): string {
    if tag == "" then DEFAULT_TAG else tag
  }

  // ---------------------------------------------------------------- lookups

  predicate Records(packages: PackageMap, id: nat, name: string, hash: string) {
    id in packages && packages[id].Readable? && packages[id].value.name == name && packages[id].value.hash == hash
  }

  /** The first record, in key order, of one version of a package. */
  ghost function FindByHash(packages: PackageMap, name: string, hash: string): Option<Package> {
    if exists id :: Records(packages, id, name, hash) then
      var id :| Records(packages, id, name, hash);
      Some(packages[LeastKey(packages, name, hash, id)].value)
    else
      None
  }

  ghost function LeastKey(packages: PackageMap, name: string, hash: string, id: nat): (least: nat)
    requires Records(packages, id, name, hash)
    ensures Records(packages, least, name, hash)
    ensures forall j: nat :: Records(packages, j, name, hash) ==> least <= j
    decreases id
  {
    if exists j: nat :: j < id && Records(packages, j, name, hash) then
      var j: nat :| j < id && Records(packages, j, name, hash);
      LeastKey(packages, name, hash, j)
    else
      id
  }

  /** The name of the package a record ID names, or "" when no readable record has it. */
  function PackageName(packages: PackageMap, id: nat): string {
    if id in packages && packages[id].Readable? then packages[id].value.name else ""
  }

  // ---------------------------------------------------------------- link indexes

  function IndexIDs(index: Index, key: nat): Result<seq<nat>, Error> {
    if key !in index then Ok([])
    else if index[key].Readable? then Ok(index[key].value)
    else Err(IndexUnreadable(key))
  }

  function PutIndexIDs(index: Index, key: nat, ids: seq<nat>): Index {
    if ids == [] then index - {key} else index[key := Readable(ids)]
  }

  function Without(ids: seq<nat>, id: nat): seq<nat> {
    if ids == [] then []
    else if ids[0] == id then Without(ids[1..], id)
    else [ids[0]] + Without(ids[1..], id)
  }

  function RemoveIDFromIndex(index: Index, key: nat, id: nat): Result<Index, Error> {
    var ids :- IndexIDs(index, key);
    Ok(PutIndexIDs(index, key, Without(ids, id)))
  }

  /** Removes one row and scrubs it from both indexes. */
  function DeleteLinkRow(st: State, id: nat, pkg: nat, proj: nat): Outcome {
    var byPackage :- RemoveIDFromIndex(st.linksByPackage, pkg, id);
    var byProject :- RemoveIDFromIndex(st.linksByProject, proj, id);
    Ok(st.(links := st.links - {id}, linksByPackage := byPackage, linksByProject := byProject))
  }

  // ---------------------------------------------------------------- tags

  /** The projects that already hold a readable row among the given link IDs. */
  function ProjectsOf(links: LinkMap, ids: seq<nat>): set<nat> {
    if ids == [] then {}
    else
      (if ids[0] in links && links[ids[0]].Readable? then {links[ids[0]].value.proj} else {}) +
          ProjectsOf(links, ids[1..])
  }

  /** What moving one tag has done so far: the rows and the project index it has
      rewritten, the IDs that stay on the source and the IDs the destination gains. */
  datatype Moving = Moving(links: LinkMap, byProject: Index, taken: set<nat>, stay: seq<nat>, arrived: seq<nat>)

  predicate Carried(links: LinkMap, id: nat, tag: string) {
    id in links && links[id].Readable? && !links[id].value.pinned && links[id].value.Channel() == tag
  }

  function MoveOne(m: Moving, id: nat, to: nat, tag: string): Result<Moving, Error> {
    if id !in m.links then Ok(m)
    else if !Carried(m.links, id, tag) then Ok(m.(stay := m.stay + [id]))
    else
      var row := m.links[id].value;
      if row.proj in m.taken then
        var byProject :- RemoveIDFromIndex(m.byProject, row.proj, id);
        Ok(m.(links := m.links - {id}, byProject := byProject))
      else
        Ok(m.(links := m.links[id := Readable(row.(pkg := to))], taken := m.taken + {row.proj}, arrived := m.arrived +
            [id]))
  }

  function MoveAll(m: Moving, ids: seq<nat>, to: nat, tag: string): Result<Moving, Error>
    decreases |ids|
  {
    if ids == [] then Ok(m)
    else
      var m' :- MoveOne(m, ids[0], to, tag);
      MoveAll(m', ids[1..], to, tag)
  }

  /** Repoints the links that follow a tag from one version of a package to another. */
  function MoveLinks(st: State, from: nat, to: nat, tag: string): Outcome {
    var fromIDs :- IndexIDs(st.linksByPackage, from);
    if fromIDs == [] then Ok(st)
    else
      var toIDs :- IndexIDs(st.linksByPackage, to);
      var m :- MoveAll(Moving(st.links, st.linksByProject, ProjectsOf(st.links, toIDs), [], toIDs), fromIDs, to, tag);
      Ok(st.(links := m.links,
             linksByProject := m.byProject,
             linksByPackage := PutIndexIDs(PutIndexIDs(st.linksByPackage, from, m.stay), to, m.arrived)))
  }

  /** What the tag named before, when that is a version other than the one it moves to. */
  ghost function Superseded(st: State, name: string, tag: string, hash: string): Option<Package> {
    if TagKey(name, tag) in st.tags && st.tags[TagKey(name, tag)] != hash
    then FindByHash(st.packages, name, st.tags[TagKey(name, tag)])
    else None
  }

  /** Points a tag at a version; the default tag also moves the name index, and a
      package reachable by no name gains the default tag beside the one asked for. */
  ghost function SetTagTx(st: State, name: string, tag: string, hash: string, id: nat): Outcome
    decreases if NamedTag(tag) == DEFAULT_TAG then 0 else 1
  {
    var named := NamedTag(tag);
    var previous := Superseded(st, name, named, hash);
    var tagged := st.(tags := st.tags[TagKey(name, named) := hash]);
    var indexed :-
      if named == DEFAULT_TAG then Ok(tagged.(byName := tagged.byName[name := id]))
      else if name !in tagged.byName then SetTagTx(tagged, name, DEFAULT_TAG, hash, id)
      else Ok(tagged);
    if previous.None? || previous.value.id == id then Ok(indexed)
    else MoveLinks(indexed, previous.value.id, id, named)
  }

  ghost function SetTag(st: State, name: string, tag: string, hash: string): Outcome {
    match FindByHash(st.packages, name, hash)
    case None => Err(NoSuchVersion(name, hash))
    case Some(pkg) => SetTagTx(st, name, tag, hash, pkg.id)
  }

  function DeleteTag(st: State, name: string, tag: string): Outcome {
    if NamedTag(tag) == DEFAULT_TAG then Err(DefaultTagProtected)
    else Ok(st.(tags := st.tags - {TagKey(name, tag)}))
  }

  ghost function ResolveTag(st: State, name: string, tag: string): Option<Package> {
    var key := TagKey(name, NamedTag(tag));
    if key in st.tags then FindByHash(st.packages, name, st.tags[key]) else None
  }

  function GetPackageByName(st: State, name: string): Result<Option<Package>, Error> {
    if name !in st.byName || st.byName[name] !in st.packages then Ok(None)
    else if st.packages[st.byName[name]].Damaged? then Err(RecordUnreadable(st.byName[name]))
    else Ok(Some(st.packages[st.byName[name]].value))
  }

  // ---------------------------------------------------------------- packages

  /** Records a version: the same content again updates its record in place, other
      content adds a version beside the ones already there. */
  ghost function InsertPackageTx(st: State, pkg: Package, tag: string): Result<(State, nat), Error> {
    match FindByHash(st.packages, pkg.name, pkg.hash)
    case Some(existing) =>
      var row := existing.(version := pkg.version, updatedAt := pkg.updatedAt);
      var st' :- SetTagTx(st.(packages := st.packages[existing.id := Readable(row)]), pkg.name, tag, pkg.hash,
          existing.id);
      Ok((st', existing.id))
    case None =>
      var id := st.nextID;
      var inserted := st.(nextID := id + 1, packages := st.packages[id := Readable(pkg.(id := id))]);
      var st' :- SetTagTx(inserted, pkg.name, tag, pkg.hash, id);
      Ok((st', id))
  }

  /** The files of one version, numbered from a counter bumped once for all of them. */
  function NumberFiles(rows: seq<FileRow>, pkg: nat, start: nat): seq<FileRow> {
    seq(|rows|, i requires 0 <= i < |rows| => rows[i].(id := start + i, pkg := pkg))
  }

  function InsertFilesTx(st: State, pkg: nat, rows: seq<FileRow>): State {
    var start := st.nextID;
    st.(nextID := start + |rows|, files := st.files[pkg := NumberFiles(rows, pkg, start)])
  }

  ghost function InsertPackageWithFiles(st: State, pkg: Package, rows: seq<FileRow>, tag: string): Outcome {
    var (st', id) :- InsertPackageTx(st, pkg, tag);
    Ok(InsertFilesTx(st', id, rows))
  }

  /** The tags left once every tag of a name that points at one hash is dropped. */
  function TagsWithoutHash(tags: map<string, string>, name: string, hash: string): map<string, string> {
    map k | k in tags && !(TagKey(name, "") <= k && tags[k] == hash) :: tags[k]
  }

  /** Deletes the given rows, scrubbing each from the project it names. */
  function DropRows(st: State, ids: seq<nat>): Outcome
    decreases |ids|
  {
    if ids == [] then Ok(st)
    else if ids[0] !in st.links then Err(LinkMissing(ids[0]))
    else if st.links[ids[0]].Damaged? then Err(LinkUnreadable(ids[0]))
    else
      var byProject :- RemoveIDFromIndex(st.linksByProject, st.links[ids[0]].value.proj, ids[0]);
      DropRows(st.(links := st.links - {ids[0]}, linksByProject := byProject), ids[1..])
  }

  /** The name index and the tags once no lookup names the record any more. */
  function Unnamed(st: State, id: nat): State {
    if id !in st.packages || st.packages[id].Damaged? then st
    else
      var pkg := st.packages[id].value;
      st.(byName := if pkg.name in st.byName && st.byName[pkg.name] == id then st.byName - {pkg.name} else st.byName,
          tags := TagsWithoutHash(st.tags, pkg.name, pkg.hash))
  }

  function DeletePackage(st: State, id: nat): Outcome {
    var ids :- IndexIDs(st.linksByPackage, id);
    var dropped :- DropRows(Unnamed(st, id), ids);
    Ok(dropped.(linksByPackage := dropped.linksByPackage - {id},
                packages := dropped.packages - {id},
                files := dropped.files - {id}))
  }

  // ---------------------------------------------------------------- projects

  /** Registers a project, or refreshes the readable record its path already has. */
  function InsertProject(st: State, path: string, manager: string): (State, nat) {
    if path in st.byPath && st.byPath[path] in st.projects && st.projects[st.byPath[path]].Readable? then
      var row := st.projects[st.byPath[path]].value;
      (st.(projects := st.projects[row.id := Readable(row.(manager := manager))]), row.id)
    else
      var id := st.nextID;
      (st.(nextID := id + 1, projects := st.projects[id := Readable(Project(id, path, manager))],
          byPath := st.byPath[path := id]), id)
  }

  /** Drops the rows a project holds; an ID naming no row is skipped. */
  function DropProjectRows(st: State, ids: seq<nat>, proj: nat): Outcome
    decreases |ids|
  {
    if ids == [] then Ok(st)
    else if ids[0] !in st.links then DropProjectRows(st, ids[1..], proj)
    else if st.links[ids[0]].Damaged? then Err(LinkUnreadable(ids[0]))
    else
      var st' :- DeleteLinkRow(st, ids[0], st.links[ids[0]].value.pkg, proj);
      DropProjectRows(st', ids[1..], proj)
  }

  function Unpathed(st: State, id: nat): State {
    if id in st.projects && st.projects[id].Readable? && st.projects[id].value.path in st.byPath
       && st.byPath[st.projects[id].value.path] == id
    then st.(byPath := st.byPath - {st.projects[id].value.path})
    else st
  }

  function DeleteProject(st: State, id: nat): Outcome {
    var ids :- IndexIDs(st.linksByProject, id);
    var dropped :- DropProjectRows(Unpathed(st, id), ids, id);
    Ok(dropped.(linksByProject := dropped.linksByProject - {id}, projects := dropped.projects - {id}))
  }

  // ---------------------------------------------------------------- links

  /** Walks the rows a project holds: the row already on the package is updated in
      place, and a row on another version of the same name is deleted. */
  function Supersede(st: State, ids: seq<nat>, link: Link, name: string, updated: bool): Result<(State, bool), Error>
    decreases |ids|
  {
    if ids == [] then Ok((st, updated))
    else if ids[0] !in st.links || st.links[ids[0]].Damaged? then Supersede(st, ids[1..], link, name, updated)
    else
      var row := st.links[ids[0]].value;
      if row.pkg == link.pkg then
        var row' := row.(kind := link.kind, tag := link.tag, pinned := link.pinned);
        Supersede(st.(links := st.links[row.id := Readable(row')]), ids[1..], link, name, true)
      else if name != "" && PackageName(st.packages, row.pkg) == name then
        var st' :- DeleteLinkRow(st, row.id, row.pkg, row.proj);
        Supersede(st', ids[1..], link, name, updated)
      else
        Supersede(st, ids[1..], link, name, updated)
  }

  function AppendLink(st: State, link: Link): Outcome {
    var id := st.nextID;
    var pkgLinks :- IndexIDs(st.linksByPackage, link.pkg);
    var projLinks :- IndexIDs(st.linksByProject, link.proj);
    Ok(st.(nextID := id + 1,
           links := st.links[id := Readable(link.(id := id))],
           linksByPackage := st.linksByPackage[link.pkg := Readable(pkgLinks + [id])],
           linksByProject := st.linksByProject[link.proj := Readable(projLinks + [id])]))
  }

  /** Records that a project consumes a version, replacing whatever version of the
      same package it consumed before. */
  function InsertLink(st: State, link: Link): Outcome {
    var ids :- IndexIDs(st.linksByProject, link.proj);
    var (st', updated) :- Supersede(st, ids, link, PackageName(st.packages, link.pkg), false);
    if updated then Ok(st') else AppendLink(st', link)
  }

  predicate Joins(links: LinkMap, id: nat, pkg: nat, proj: nat) {
    id in links && links[id].Readable? && links[id].value.pkg == pkg && links[id].value.proj == proj
  }

  ghost predicate LastJoin(links: LinkMap, id: nat, pkg: nat, proj: nat) {
    Joins(links, id, pkg, proj) && forall j: nat :: Joins(links, j, pkg, proj) ==> j <= id
  }

  /** The row joining a package and a project, the last one in key order. */
  ghost function FindLink(links: LinkMap, pkg: nat, proj: nat): Option<Link> {
    if id: nat :| LastJoin(links, id, pkg, proj) then Some(links[id].value) else None
  }

  ghost function DeleteLink(st: State, pkg: nat, proj: nat): Outcome {
    match FindLink(st.links, pkg, proj)
    case None => Ok(st)
    case Some(row) => DeleteLinkRow(st, row.id, pkg, proj)
  }

  /** Every row an index entry of a package names, or the damage that hides one. */
  function RowsOf(links: LinkMap, ids: seq<nat>): Result<seq<Link>, Error> {
    if ids == [] then Ok([])
    else if ids[0] !in links then Err(LinkMissing(ids[0]))
    else if links[ids[0]].Damaged? then Err(LinkUnreadable(ids[0]))
    else
      var rest :- RowsOf(links, ids[1..]);
      Ok([links[ids[0]].value] + rest)
  }

  function GetLinksForPackage(st: State, pkg: nat): Result<seq<Link>, Error> {
    var ids :- IndexIDs(st.linksByPackage, pkg);
    RowsOf(st.links, ids)
  }

  /** As RowsOf, but an ID naming no row is skipped. */
  function HeldRows(links: LinkMap, ids: seq<nat>): Result<seq<Link>, Error> {
    if ids == [] then Ok([])
    else if ids[0] !in links then HeldRows(links, ids[1..])
    else if links[ids[0]].Damaged? then Err(LinkUnreadable(ids[0]))
    else
      var rest :- HeldRows(links, ids[1..]);
      Ok([links[ids[0]].value] + rest)
  }

  function GetLinksForProject(st: State, proj: nat): Result<seq<Link>, Error> {
    var ids :- IndexIDs(st.linksByProject, proj);
    HeldRows(st.links, ids)
  }
}
