/** The database itself: one field per bucket, updated in place inside a
    transaction that either commits whole or rolls every bucket back. Each method
    is proved to commit exactly what the store's specification says. */
module LinkDatabase {
  import opened Wrappers
  import opened LinkStore

  /** What a transaction reports, against the outcome its specification gives. */
  predicate Reports(r: Result<(), Error>, outcome: Outcome) {
    if outcome.Ok? then r.Ok? else r == Err(outcome.error)
  }

  method ScrubIndex(index: Index, key: nat, id: nat) returns (r: Result<Index, Error>)
    ensures r == LinkStore.RemoveIDFromIndex(index, key, id)
  {
    var ids := IndexIDs(index, key);
    if ids.Err? { return Err(ids.error); }
    var newIDs := [];
    assert [] + Without(ids.value, id) == Without(ids.value, id);
    for i := 0 to |ids.value|
      invariant newIDs + Without(ids.value[i..], id) == Without(ids.value, id)
    {
      assert ids.value[i..][1..] == ids.value[i + 1..];
      if ids.value[i] != id {
        newIDs := newIDs + [ids.value[i]];
      }
    }
    assert newIDs + [] == newIDs;
    r := Ok(PutIndexIDs(index, key, newIDs));
  }

  class Database {
    var packages: PackageMap
    var byName: map<string, nat>
    var tags: map<string, string>
    var links: LinkMap
    var linksByPackage: Index
    var linksByProject: Index
    var projects: ProjectMap
    var byPath: map<string, nat>
    var files: map<nat, seq<FileRow>>
    var nextID: nat

    function Contents(): State
      reads this
    {
      State(packages, byName, tags, links, linksByPackage, linksByProject, projects, byPath, files, nextID)
    }

    constructor ()
      ensures Contents() == EMPTY
    {
      packages, byName, tags, links := map[], map[], map[], map[];
      linksByPackage, linksByProject, projects, byPath, files, nextID := map[], map[], map[], map[], map[], 1;
    }

    method Rollback(st: State)
      modifies this
      ensures Contents() == st
    {
      packages, byName, tags, links := st.packages, st.byName, st.tags, st.links;
      linksByPackage, linksByProject := st.linksByPackage, st.linksByProject;
      projects, byPath, files, nextID := st.projects, st.byPath, st.files, st.nextID;
    }

    method NextID() returns (id: nat)
      modifies this`nextID
      ensures id == old(nextID) && nextID == old(nextID) + 1
    {
      id := nextID;
      nextID := id + 1;
    }

    // -------------------------------------------------------------- lookups

    method FindPackageByHash(name: string, hash: string) returns (found: Option<Package>)
      ensures found == FindByHash(packages, name, hash)
    {
      var todo := packages.Keys;
      var least: Option<nat> := None;
      while todo != {}
        invariant todo <= packages.Keys
        invariant least.Some? ==> Records(packages, least.value, name, hash)
        invariant forall id: nat :: Records(packages, id, name, hash) && id !in todo ==>
                  least.Some? && least.value <= id
        decreases |todo|
      {
        var id :| id in todo;
        todo := todo - {id};
        if Records(packages, id, name, hash) && (least.None? || id < least.value) {
          least := Some(id);
        }
      }
      found := if least.None? then None else Some(packages[least.value].value);
    }

    method LinksForPackage(pkg: nat) returns (r: Result<seq<Link>, Error>)
      ensures r == GetLinksForPackage(Contents(), pkg)
    {
      var ids := IndexIDs(linksByPackage, pkg);
      if ids.Err? { return Err(ids.error); }
      var rows := [];
      PrependNothing(RowsOf(links, ids.value));
      for i := 0 to |ids.value|
        invariant RowsOf(links, ids.value) == Prepend(rows, RowsOf(links, ids.value[i..]))
      {
        var id := ids.value[i];
        assert ids.value[i..][1..] == ids.value[i + 1..];
        PrependMore(rows, if id in links && links[id].Readable? then [links[id].value] else [],
                    RowsOf(links, ids.value[i + 1..]));
        if id !in links { return Err(LinkMissing(id)); }
        if links[id].Damaged? { return Err(LinkUnreadable(id)); }
        rows := rows + [links[id].value];
      }
      assert rows + [] == rows;
      r := Ok(rows);
    }

    method LinksForProject(proj: nat) returns (r: Result<seq<Link>, Error>)
      ensures r == GetLinksForProject(Contents(), proj)
    {
      var ids := IndexIDs(linksByProject, proj);
      if ids.Err? { return Err(ids.error); }
      var rows := [];
      PrependNothing(HeldRows(links, ids.value));
      for i := 0 to |ids.value|
        invariant HeldRows(links, ids.value) == Prepend(rows, HeldRows(links, ids.value[i..]))
      {
        var id := ids.value[i];
        assert ids.value[i..][1..] == ids.value[i + 1..];
        PrependMore(rows, if id in links && links[id].Readable? then [links[id].value] else [],
                    HeldRows(links, ids.value[i + 1..]));
        if id in links {
          if links[id].Damaged? { return Err(LinkUnreadable(id)); }
          rows := rows + [links[id].value];
        }
      }
      assert rows + [] == rows;
      r := Ok(rows);
    }

    // -------------------------------------------------------------- tags

    method MoveLinksTx(from: nat, to: nat, tag: string) returns (r: Result<(), Error>)
      modifies this
      ensures Reports(r, MoveLinks(old(Contents()), from, to, tag))
      ensures r.Ok? ==> Contents() == MoveLinks(old(Contents()), from, to, tag).value
    {
      var fromIDs := IndexIDs(linksByPackage, from);
      if fromIDs.Err? { return Err(fromIDs.error); }
      if fromIDs.value == [] { return Ok(()); }
      var toIDs := IndexIDs(linksByPackage, to);
      if toIDs.Err? { return Err(toIDs.error); }
      var onDestination := ProjectsOf(links, toIDs.value);
      var stay, arrived := [], toIDs.value;
      ghost var start := Moving(links, linksByProject, onDestination, stay, arrived);

      for i := 0 to |fromIDs.value|
        modifies this`links, this`linksByProject
        invariant MoveAll(start, fromIDs.value, to, tag)
               == MoveAll(Moving(links, linksByProject, onDestination, stay, arrived), fromIDs.value[i..], to, tag)
      {
        var id := fromIDs.value[i];
        assert fromIDs.value[i..][1..] == fromIDs.value[i + 1..];
        if id in links {
          if !Carried(links, id, tag) {
            stay := stay + [id];
          } else {
            var row := links[id].value;
            if row.proj in onDestination {
              var scrubbed := ScrubIndex(linksByProject, row.proj, id);
              if scrubbed.Err? { return Err(scrubbed.error); }
              links := links - {id};
              linksByProject := scrubbed.value;
            } else {
              links := links[id := Readable(row.(pkg := to))];
              onDestination := onDestination + {row.proj};
              arrived := arrived + [id];
            }
          }
        }
      }
      linksByPackage := PutIndexIDs(PutIndexIDs(linksByPackage, from, stay), to, arrived);
      r := Ok(());
    }

    method SetTagTx(name: string, tag: string, hash: string, id: nat) returns (r: Result<(), Error>)
      modifies this
      ensures Reports(r, LinkStore.SetTagTx(old(Contents()), name, tag, hash, id))
      ensures r.Ok? ==> Contents() == LinkStore.SetTagTx(old(Contents()), name, tag, hash, id).value
      decreases if NamedTag(tag) == DEFAULT_TAG then 0 else 1
    {
      var named := NamedTag(tag);
      var key := TagKey(name, named);
      var previous := None;
      if key in tags && tags[key] != hash {
        previous := FindPackageByHash(name, tags[key]);
      }
      tags := tags[key := hash];
      if named == DEFAULT_TAG {
        byName := byName[name := id];
      } else if name !in byName {
        var nested := SetTagTx(name, DEFAULT_TAG, hash, id);
        if nested.Err? { return nested; }
      }
      if previous.None? || previous.value.id == id { return Ok(()); }
      r := MoveLinksTx(previous.value.id, id, named);
    }

    method SetTag(name: string, tag: string, hash: string) returns (r: Result<(), Error>)
      modifies this
      ensures Reports(r, LinkStore.SetTag(old(Contents()), name, tag, hash))
      ensures (forall id :: !Records(old(packages), id, name, hash)) ==> r == Err(NoSuchVersion(name, hash))
      ensures Contents() == if r.Ok? then LinkStore.SetTag(old(Contents()), name, tag, hash).value else old(Contents())
    {
      var before := Contents();
      var pkg := FindPackageByHash(name, hash);
      if pkg.None? { return Err(NoSuchVersion(name, hash)); }
      r := SetTagTx(name, tag, hash, pkg.value.id);
      if r.Err? { Rollback(before); }
    }

    method DeleteTag(name: string, tag: string) returns (r: Result<(), Error>)
      modifies this`tags
      ensures Reports(r, LinkStore.DeleteTag(old(Contents()), name, tag))
      ensures Contents() == if r.Ok? then LinkStore.DeleteTag(old(Contents()), name, tag).value else old(Contents())
    {
      if NamedTag(tag) == DEFAULT_TAG { return Err(DefaultTagProtected); }
      tags := tags - {TagKey(name, tag)};
      r := Ok(());
    }

    // -------------------------------------------------------------- packages

    method InsertPackageTx(pkg: Package, tag: string) returns (r: Result<nat, Error>)
      modifies this
      ensures LinkStore.InsertPackageTx(old(Contents()), pkg, tag).Ok? <==> r.Ok?
      ensures r.Ok? ==> (Contents(), r.value) == LinkStore.InsertPackageTx(old(Contents()), pkg, tag).value
      ensures r.Err? ==> r.error == LinkStore.InsertPackageTx(old(Contents()), pkg, tag).error
    {
      var existing := FindPackageByHash(pkg.name, pkg.hash);
      var id: nat;
      if existing.Some? {
        id := existing.value.id;
        packages := packages[id := Readable(existing.value.(version := pkg.version, updatedAt := pkg.updatedAt))];
      } else {
        id := NextID();
        packages := packages[id := Readable(pkg.(id := id))];
      }
      var tagged := SetTagTx(pkg.name, tag, pkg.hash, id);
      r := if tagged.Ok? then Ok(id) else Err(tagged.error);
    }

    method InsertFilesTx(pkg: nat, rows: seq<FileRow>)
      modifies this`nextID, this`files
      ensures Contents() == LinkStore.InsertFilesTx(old(Contents()), pkg, rows)
    {
      var start := NextID();
      var numbered := [];
      for i := 0 to |rows|
        invariant |numbered| == i
        invariant forall j :: 0 <= j < i ==> numbered[j] == rows[j].(id := start + j, pkg := pkg)
      {
        numbered := numbered + [rows[i].(id := start + i, pkg := pkg)];
      }
      nextID := start + |rows|;
      assert numbered == NumberFiles(rows, pkg, start);
      files := files[pkg := numbered];
    }

    /** Records a version and its files in one transaction. */
    method InsertPackageWithFiles(pkg: Package, rows: seq<FileRow>, tag: string) returns (r: Result<(), Error>)
      modifies this
      ensures Reports(r, LinkStore.InsertPackageWithFiles(old(Contents()), pkg, rows, tag))
      ensures Contents() == if r.Ok? then LinkStore.InsertPackageWithFiles(old(Contents()), pkg, rows, tag).value
                else old(Contents())
    {
      var before := Contents();
      var id := InsertPackageTx(pkg, tag);
      if id.Err? {
        Rollback(before);
        return Err(id.error);
      }
      InsertFilesTx(id.value, rows);
      r := Ok(());
    }

    method DeleteTagsForHashTx(name: string, hash: string)
      modifies this`tags
      ensures tags == TagsWithoutHash(old(tags), name, hash)
    {
      var prefix := TagKey(name, "");
      var todo := tags.Keys;
      while todo != {}
        invariant todo <= old(tags).Keys
        invariant forall k :: k in tags <==> k in old(tags) && (k in todo || !(prefix <= k && old(tags)[k] == hash))
        invariant forall k :: k in tags ==> tags[k] == old(tags)[k]
        decreases |todo|
      {
        var k :| k in todo;
        todo := todo - {k};
        if prefix <= k && tags[k] == hash {
          tags := tags - {k};
        }
      }
    }

    method UnnameTx(id: nat)
      modifies this`byName, this`tags
      ensures Contents() == Unnamed(old(Contents()), id)
    {
      if id in packages && packages[id].Readable? {
        var pkg := packages[id].value;
        if pkg.name in byName && byName[pkg.name] == id {
          byName := byName - {pkg.name};
        }
        DeleteTagsForHashTx(pkg.name, pkg.hash);
      }
    }

    /** Deletes the given rows, scrubbing each from the project it names. */
    method DropRowsTx(ids: seq<nat>) returns (r: Result<(), Error>)
      modifies this`links, this`linksByProject
      ensures Reports(r, DropRows(old(Contents()), ids))
      ensures r.Ok? ==> Contents() == DropRows(old(Contents()), ids).value
    {
      for i := 0 to |ids|
        invariant DropRows(old(Contents()), ids) == DropRows(Contents(), ids[i..])
      {
        var id := ids[i];
        assert ids[i..][1..] == ids[i + 1..];
        if id !in links { return Err(LinkMissing(id)); }
        if links[id].Damaged? { return Err(LinkUnreadable(id)); }
        var scrubbed := ScrubIndex(linksByProject, links[id].value.proj, id);
        if scrubbed.Err? { return Err(scrubbed.error); }
        linksByProject := scrubbed.value;
        links := links - {id};
      }
      r := Ok(());
    }

    method DeletePackageTx(id: nat) returns (r: Result<(), Error>)
      modifies this
      ensures Reports(r, LinkStore.DeletePackage(old(Contents()), id))
      ensures r.Ok? ==> Contents() == LinkStore.DeletePackage(old(Contents()), id).value
    {
      UnnameTx(id);
      var ids := IndexIDs(linksByPackage, id);
      if ids.Err? { return Err(ids.error); }
      r := DropRowsTx(ids.value);
      if r.Err? { return; }
      linksByPackage := linksByPackage - {id};
      packages := packages - {id};
      files := files - {id};
    }

    method DeletePackage(id: nat) returns (r: Result<(), Error>)
      modifies this
      ensures Reports(r, LinkStore.DeletePackage(old(Contents()), id))
      ensures Contents() == if r.Ok? then LinkStore.DeletePackage(old(Contents()), id).value else old(Contents())
    {
      var before := Contents();
      r := DeletePackageTx(id);
      if r.Err? { Rollback(before); }
    }

    // -------------------------------------------------------------- projects

    method InsertProject(path: string, manager: string) returns (id: nat)
      modifies this
      ensures (Contents(), id) == LinkStore.InsertProject(old(Contents()), path, manager)
    {
      if path in byPath && byPath[path] in projects && projects[byPath[path]].Readable? {
        var row := projects[byPath[path]].value;
        id := row.id;
        projects := projects[id := Readable(row.(manager := manager))];
      } else {
        id := NextID();
        projects := projects[id := Readable(Project(id, path, manager))];
        byPath := byPath[path := id];
      }
    }

    method DeleteLinkRowTx(id: nat, pkg: nat, proj: nat) returns (r: Result<(), Error>)
      modifies this`links, this`linksByPackage, this`linksByProject
      ensures Reports(r, DeleteLinkRow(old(Contents()), id, pkg, proj))
      ensures r.Ok? ==> Contents() == DeleteLinkRow(old(Contents()), id, pkg, proj).value
    {
      links := links - {id};
      var scrubbed := ScrubIndex(linksByPackage, pkg, id);
      if scrubbed.Err? { return Err(scrubbed.error); }
      linksByPackage := scrubbed.value;
      scrubbed := ScrubIndex(linksByProject, proj, id);
      if scrubbed.Err? { return Err(scrubbed.error); }
      linksByProject := scrubbed.value;
      r := Ok(());
    }

    /** Drops the rows a project holds; an ID naming no row is skipped. */
    method DropProjectRowsTx(ids: seq<nat>, proj: nat) returns (r: Result<(), Error>)
      modifies this`links, this`linksByPackage, this`linksByProject
      ensures Reports(r, DropProjectRows(old(Contents()), ids, proj))
      ensures r.Ok? ==> Contents() == DropProjectRows(old(Contents()), ids, proj).value
    {
      for i := 0 to |ids|
        invariant DropProjectRows(old(Contents()), ids, proj) == DropProjectRows(Contents(), ids[i..], proj)
      {
        var id := ids[i];
        assert ids[i..][1..] == ids[i + 1..];
        if id in links {
          if links[id].Damaged? { return Err(LinkUnreadable(id)); }
          r := DeleteLinkRowTx(id, links[id].value.pkg, proj);
          if r.Err? { return; }
        }
      }
      r := Ok(());
    }

    method DeleteProjectTx(id: nat) returns (r: Result<(), Error>)
      modifies this
      ensures Reports(r, LinkStore.DeleteProject(old(Contents()), id))
      ensures r.Ok? ==> Contents() == LinkStore.DeleteProject(old(Contents()), id).value
    {
      if id in projects && projects[id].Readable? {
        var path := projects[id].value.path;
        if path in byPath && byPath[path] == id {
          byPath := byPath - {path};
        }
      }
      var ids := IndexIDs(linksByProject, id);
      if ids.Err? { return Err(ids.error); }
      r := DropProjectRowsTx(ids.value, id);
      if r.Err? { return; }
      linksByProject := linksByProject - {id};
      projects := projects - {id};
    }

    method DeleteProject(id: nat) returns (r: Result<(), Error>)
      modifies this
      ensures Reports(r, LinkStore.DeleteProject(old(Contents()), id))
      ensures Contents() == if r.Ok? then LinkStore.DeleteProject(old(Contents()), id).value else old(Contents())
    {
      var before := Contents();
      r := DeleteProjectTx(id);
      if r.Err? { Rollback(before); }
    }

    // -------------------------------------------------------------- links

    /** Rewrites the row already on the version, and deletes a row on another version
        of the same package. */
    method SupersedeTx(ids: seq<nat>, link: Link, name: string) returns (r: Result<bool, Error>)
      modifies this`links, this`linksByPackage, this`linksByProject
      ensures var spec := Supersede(old(Contents()), ids, link, name, false);
              if r.Ok? then spec == Ok((Contents(), r.value)) else spec == Err(r.error)
    {
      var updated := false;
      for i := 0 to |ids|
        invariant Supersede(old(Contents()), ids, link, name, false) ==
                  Supersede(Contents(), ids[i..], link, name, updated)
      {
        var id := ids[i];
        assert ids[i..][1..] == ids[i + 1..];
        if id in links && links[id].Readable? {
          var row := links[id].value;
          if row.pkg == link.pkg {
            links := links[row.id := Readable(row.(kind := link.kind, tag := link.tag, pinned := link.pinned))];
            updated := true;
          } else if name != "" && PackageName(packages, row.pkg) == name {
            var deleted := DeleteLinkRowTx(row.id, row.pkg, row.proj);
            if deleted.Err? { return Err(deleted.error); }
          }
        }
      }
      r := Ok(updated);
    }

    method AppendLinkTx(link: Link) returns (r: Result<(), Error>)
      modifies this
      ensures Reports(r, AppendLink(old(Contents()), link))
      ensures r.Ok? ==> Contents() == AppendLink(old(Contents()), link).value
    {
      var id := NextID();
      links := links[id := Readable(link.(id := id))];
      var pkgLinks := IndexIDs(linksByPackage, link.pkg);
      if pkgLinks.Err? { return Err(pkgLinks.error); }
      linksByPackage := linksByPackage[link.pkg := Readable(pkgLinks.value + [id])];
      var projLinks := IndexIDs(linksByProject, link.proj);
      if projLinks.Err? { return Err(projLinks.error); }
      linksByProject := linksByProject[link.proj := Readable(projLinks.value + [id])];
      r := Ok(());
    }

    method InsertLinkTx(link: Link) returns (r: Result<(), Error>)
      modifies this
      ensures Reports(r, LinkStore.InsertLink(old(Contents()), link))
      ensures r.Ok? ==> Contents() == LinkStore.InsertLink(old(Contents()), link).value
    {
      var existing := IndexIDs(linksByProject, link.proj);
      if existing.Err? { return Err(existing.error); }
      var updated := SupersedeTx(existing.value, link, PackageName(packages, link.pkg));
      if updated.Err? { return Err(updated.error); }
      if updated.value { return Ok(()); }
      r := AppendLinkTx(link);
    }

    method InsertLink(link: Link) returns (r: Result<(), Error>)
      modifies this
      ensures Reports(r, LinkStore.InsertLink(old(Contents()), link))
      ensures Contents() == if r.Ok? then LinkStore.InsertLink(old(Contents()), link).value else old(Contents())
    {
      var before := Contents();
      r := InsertLinkTx(link);
      if r.Err? { Rollback(before); }
    }

    method DeleteLink(pkg: nat, proj: nat) returns (r: Result<(), Error>)
      modifies this
      ensures Reports(r, LinkStore.DeleteLink(old(Contents()), pkg, proj))
      ensures Contents() == if r.Ok? then LinkStore.DeleteLink(old(Contents()), pkg, proj).value else old(Contents())
    {
      var before := Contents();
      var todo := links.Keys;
      var last: Option<nat> := None;
      while todo != {}
        invariant todo <= links.Keys
        invariant last.Some? ==> Joins(links, last.value, pkg, proj)
        invariant forall id: nat :: Joins(links, id, pkg, proj) && id !in todo ==> last.Some? && id <= last.value
        decreases |todo|
      {
        var id :| id in todo;
        todo := todo - {id};
        if Joins(links, id, pkg, proj) && (last.None? || last.value < id) {
          last := Some(id);
        }
      }
      if last.None? { return Ok(()); }
      assert LastJoin(links, last.value, pkg, proj);
      r := DeleteLinkRowTx(links[last.value].value.id, pkg, proj);
      if r.Err? { Rollback(before); }
    }
  }

  /** Rows already read, in front of the outcome of reading the rest. */
  function Prepend(rows: seq<Link>, rest: Result<seq<Link>, Error>): Result<seq<Link>, Error> {
    var more :- rest;
    Ok(rows + more)
  }

  lemma PrependNothing(rest: Result<seq<Link>, Error>)
    ensures Prepend([], rest) == rest
  {
    assert rest.Ok? ==> [] + rest.value == rest.value;
  }

  lemma PrependMore(rows: seq<Link>, more: seq<Link>, rest: Result<seq<Link>, Error>)
    ensures Prepend(rows, Prepend(more, rest)) == Prepend(rows + more, rest)
  {
    assert rest.Ok? ==> rows + (more + rest.value) == (rows + more) + rest.value;
  }
}
