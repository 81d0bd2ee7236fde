/** A project's links keyed by package name, the view every command that works in a project
    takes of its rows, and that no row is lost in it. */
module ProjectLinks {
  import opened Wrappers
  import opened LinkStore
  import opened LinkIndexes
  import opened StoreInvariant
  import opened LinkMoves
  import opened LinkDatabase
  import StoreRuns

  /** Rows keyed by the names of their packages, a later row taking over from an earlier. */
  function Keyed(packages: PackageMap, rows: seq<Link>): map<string, Link> {
    if rows == [] then map[]
    else
      var last := rows[|rows| - 1];
      var held := Keyed(packages, rows[..|rows| - 1]);
      if last.pkg in packages && packages[last.pkg].Readable? then held[packages[last.pkg].value.name := last] else held
  }

  /** The links the project at a path holds; a path no record answers for holds none. */
  function LinksOf(st: State, path: string): Result<map<string, Link>, Error> {
    if path !in st.byPath || st.byPath[path] !in st.projects then Ok(map[])
    else if st.projects[st.byPath[path]].Damaged? then Err(RecordUnreadable(st.byPath[path]))
    else
      var rows :- GetLinksForProject(st, st.byPath[path]);
      Ok(Keyed(st.packages, rows))
  }

  method LinksOfProject(db: Database, path: string) returns (r: Result<map<string, Link>, Error>)
    ensures r == LinksOf(db.Contents(), path)
  {
    if path !in db.byPath || db.byPath[path] !in db.projects {
      return Ok(map[]);
    }
    if db.projects[db.byPath[path]].Damaged? {
      return Err(RecordUnreadable(db.byPath[path]));
    }
    var rows :- db.LinksForProject(db.byPath[path]);
    var held: map<string, Link> := map[];
    for i := 0 to |rows|
      invariant held == Keyed(db.packages, rows[..i])
    {
      assert rows[..i + 1][..i] == rows[..i];
      if rows[i].pkg in db.packages && db.packages[rows[i].pkg].Readable? {
        held := held[db.packages[rows[i].pkg].value.name := rows[i]];
      }
    }
    assert rows[..|rows|] == rows;
    r := Ok(held);
  }

  lemma {:induction false} HeldRowsAre(links: LinkMap, ids: seq<nat>)
    requires forall id :: id in ids ==> id in links && links[id].Readable?
    ensures HeldRows(links, ids).Ok? && |HeldRows(links, ids).value| == |ids|
    ensures forall i :: 0 <= i < |ids| ==> HeldRows(links, ids).value[i] == links[ids[i]].value
  {
    if ids != [] {
      HeldRowsAre(links, ids[1..]);
    }
  }

  lemma {:induction false} DistinctAt(ids: seq<nat>, i: nat, j: nat)
    requires NoDuplicates(ids) && i < j < |ids|
    ensures ids[i] != ids[j]
  {
    if i > 0 { DistinctAt(ids[1..], i - 1, j - 1); }
  }

  predicate Keeps(held: map<string, Link>, name: string, row: Link) {
    name in held && held[name] == row
  }

  predicate Known(packages: PackageMap, row: Link) {
    row.pkg in packages && packages[row.pkg].Readable?
  }

  predicate NamesDiffer(packages: PackageMap, rows: seq<Link>) {
    forall i, j :: 0 <= i < j < |rows| ==> PackageName(packages, rows[i].pkg) != PackageName(packages, rows[j].pkg)
  }

  lemma KeyedStep(packages: PackageMap, rows: seq<Link>)
    requires rows != [] && Known(packages, rows[|rows| - 1])
    ensures var n := |rows| - 1;
            Keyed(packages, rows) == Keyed(packages, rows[..n])[PackageName(packages, rows[n].pkg) := rows[n]]
  {
  }

  lemma KeyedNone(packages: PackageMap)
    ensures Keyed(packages, []) == map[]
  {
  }

  /** Rows of known packages with distinct names all keep their place. */
  lemma {:induction false} DistinctNamesAllKeyed(packages: PackageMap, rows: seq<Link>)
    requires forall r :: r in rows ==> Known(packages, r)
    requires NamesDiffer(packages, rows)
    ensures forall r :: r in rows ==> Keeps(Keyed(packages, rows), PackageName(packages, r.pkg), r)
    ensures forall name :: name in Keyed(packages, rows) ==>
              exists r :: r in rows && PackageName(packages, r.pkg) == name
  {
    hide Known, PackageName, Keyed;
    KeyedNone(packages);
    if rows != [] {
      var n := |rows| - 1;
      var before, name := rows[..n], PackageName(packages, rows[n].pkg);
      assert rows == before + [rows[n]];
      KeyedStep(packages, rows);
      DistinctNamesAllKeyed(packages, before);
      forall r | r in before ensures PackageName(packages, r.pkg) != name {
        var i :| 0 <= i < n && before[i] == r;
        assert rows[i] == r;
      }
    }
  }

  lemma ProjectIsSound(st: State, path: string)
    requires Valid(st) && path in st.byPath
    ensures st.byPath[path] in st.projects && st.projects[st.byPath[path]].Readable?
    ensures Exact(st.linksByProject, st.links, ByProject)
    ensures forall l :: l in st.links ==> st.links[l].Readable? && Known(st.packages, st.links[l].value)
  {
  }

  lemma OneNameOneRow(st: State, a: nat, b: nat)
    requires Valid(st) && a in st.links && b in st.links && a != b && st.links[a].value.proj == st.links[b].value.proj
    ensures PackageName(st.packages, st.links[a].value.pkg) != PackageName(st.packages, st.links[b].value.pkg)
  {
  }

  lemma RowsOfProject(st: State, proj: nat)
    requires Valid(st) && proj in st.projects && Exact(st.linksByProject, st.links, ByProject)
    requires forall l :: l in st.links ==> st.links[l].Readable? && Known(st.packages, st.links[l].value)
    ensures GetLinksForProject(st, proj).Ok?
    ensures NamesDiffer(st.packages, GetLinksForProject(st, proj).value)
    ensures forall r :: r in GetLinksForProject(st, proj).value <==>
              exists l :: Owns(st.links, ByProject, proj, l) && st.links[l].value == r
  {
    hide Valid, HeldRows, Exact, PackageName, Known;
    EntryOf(st.linksByProject, st.links, ByProject, proj);
    var ids := IndexIDs(st.linksByProject, proj).value;
    HeldRowsAre(st.links, ids);
    var rows := HeldRows(st.links, ids).value;
    forall i, j | 0 <= i < j < |rows|
      ensures PackageName(st.packages, rows[i].pkg) != PackageName(st.packages, rows[j].pkg)
    {
      DistinctAt(ids, i, j);
      assert ids[i] in ids && ids[j] in ids;
      OneNameOneRow(st, ids[i], ids[j]);
    }
    forall r ensures r in rows <==> exists l :: Owns(st.links, ByProject, proj, l) && st.links[l].value == r {
      if r in rows {
        var i :| 0 <= i < |rows| && rows[i] == r;
        assert ids[i] in ids && Owns(st.links, ByProject, proj, ids[i]);
      }
      if l :| Owns(st.links, ByProject, proj, l) && st.links[l].value == r {
        var i :| 0 <= i < |ids| && ids[i] == l;
        assert rows[i] == r;
      }
    }
  }

  /** In an undamaged store the view holds every row of the project, each under its own
      name, and nothing else. */
  lemma NoRowIsLost(st: State, path: string)
    requires Valid(st) && path in st.byPath
    ensures LinksOf(st, path).Ok?
    ensures forall l :: Owns(st.links, ByProject, st.byPath[path], l) ==>
              Keeps(LinksOf(st, path).value, PackageName(st.packages, st.links[l].value.pkg), st.links[l].value)
    ensures forall name :: name in LinksOf(st, path).value ==> exists l :: Holds(st, l, st.byPath[path], name)
  {
    hide Valid, Keyed, Exact, PackageName, Known, GetLinksForProject, NamesDiffer;
    var proj := st.byPath[path];
    ProjectIsSound(st, path);
    RowsOfProject(st, proj);
    var rows := GetLinksForProject(st, proj).value;
    DistinctNamesAllKeyed(st.packages, rows);
    forall name | name in Keyed(st.packages, rows) ensures exists l :: Holds(st, l, proj, name) {
      var r :| r in rows && PackageName(st.packages, r.pkg) == name;
      var l :| Owns(st.links, ByProject, proj, l) && st.links[l].value == r;
      assert Holds(st, l, proj, name);
    }
  }

  /** The row a project holds under a name is what the view gives for the name. */
  lemma HeldRowIsTheView(st: State, path: string, name: string)
    requires Valid(st)
    ensures LinksOf(st, path).Ok?
    ensures var view := LinksOf(st, path).value;
            StoreRuns.HeldRow(st, path, name) == if name in view then Some(view[name]) else None
  {
    hide Valid, LinksOf, StoreRuns.HeldRow, Owns, Holds;
    if path !in st.byPath {
      NoPathHoldsNothing(st, path, name);
    } else {
      NoRowIsLost(st, path);
      var view, held := LinksOf(st, path).value, StoreRuns.HeldRow(st, path, name);
      if held.Some? {
        HeldIsInView(st, path, name, view);
      } else if name in view {
        var l :| Holds(st, l, st.byPath[path], name);
        SomeRowIsHeld(st, path, name, l);
      }
    }
  }

  lemma NoPathHoldsNothing(st: State, path: string, name: string)
    requires path !in st.byPath
    ensures LinksOf(st, path) == Ok(map[]) && StoreRuns.HeldRow(st, path, name) == None
  {
  }

  lemma HeldIsInView(st: State, path: string, name: string, view: map<string, Link>)
    requires Valid(st) && StoreRuns.HeldRow(st, path, name).Some? && path in st.byPath
    requires forall l :: Owns(st.links, ByProject, st.byPath[path], l) ==>
               Keeps(view, PackageName(st.packages, st.links[l].value.pkg), st.links[l].value)
    ensures Keeps(view, name, StoreRuns.HeldRow(st, path, name).value)
  {
    hide Valid, StoreRuns.HeldRow, Keeps;
    StoreRuns.HeldRowIsHeld(st, path, name);
    var l :| Holds(st, l, st.byPath[path], name) && st.links[l].value == StoreRuns.HeldRow(st, path, name).value;
    assert Owns(st.links, ByProject, st.byPath[path], l);
  }

  lemma SomeRowIsHeld(st: State, path: string, name: string, l: nat)
    requires path in st.byPath && Holds(st, l, st.byPath[path], name)
    ensures StoreRuns.HeldRow(st, path, name).Some?
  {
    hide Holds;
  }
}
