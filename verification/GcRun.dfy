/** The garbage collector as it runs: nested loops that fill the plan, and the
    deletions it then makes one at a time. */
module GcRun {
  import opened Wrappers
  import opened LinkStore
  import opened LinkIndexes
  import opened LinkDatabase
  import opened StoreInvariant
  import opened Gc
  import GcExact

  method ListPackages(db: Database) returns (ids: seq<nat>)
    ensures Listing(db.Contents(), ids)
  {
    ids := [];
    var todo := db.packages.Keys;
    while todo != {}
      invariant todo <= db.packages.Keys
      invariant NoDuplicates(ids)
      invariant forall id :: id in ids <==> id in db.packages && id !in todo && db.packages[id].Readable?
      decreases |todo|
    {
      var id :| id in todo;
      todo := todo - {id};
      if db.packages[id].Readable? {
        NoDuplicatesAppend(ids, [id]);
        ids := ids + [id];
      }
    }
  }

  method CountLinks(links: seq<Join>, pkg: nat) returns (count: nat)
    ensures count == CountLinksForPackage(links, pkg)
  {
    count := 0;
    for i := 0 to |links|
      invariant count + CountLinksForPackage(links[i..], pkg) == CountLinksForPackage(links, pkg)
    {
      assert links[i..][1..] == links[i + 1..];
      if links[i].pkg == pkg {
        count := count + 1;
      }
    }
  }

  /** Appends the orphaned links of one version to those already found. */
  method FindOrphans(db: Database, pkg: nat, rows: seq<Link>, found: seq<Join>, gone: set<string>)
    returns (r: Result<seq<Join>, Error>)
    ensures var spec := OrphansOf(db.projects, pkg, rows, gone);
            r == if spec.Ok? then Ok(found + spec.value) else Err(spec.error)
  {
    var links := found;
    ghost var spec := OrphansOf(db.projects, pkg, rows, gone);
    for i := 0 to |rows|
      invariant var rest := OrphansOf(db.projects, pkg, rows[i..], gone);
                if rest.Ok? then spec.Ok? && links + rest.value == found + spec.value else spec == rest
    {
      assert rows[i..][1..] == rows[i + 1..];
      var orphaned := Orphaned(db.projects, rows[i], gone);
      if orphaned.Err? { return Err(orphaned.error); }
      if orphaned.value {
        ghost var rest := OrphansOf(db.projects, pkg, rows[i + 1..], gone);
        assert rest.Ok? ==>
            links + ([Join(pkg, rows[i].proj)] + rest.value) == (links + [Join(pkg, rows[i].proj)]) + rest.value;
        links := links + [Join(pkg, rows[i].proj)];
      }
    }
    assert links + [] == links;
    r := Ok(links);
  }

  type TagCache = map<string, map<string, string>>

  /** The tags of each package name are read once, however many versions it has. */
  method TagsOnce(db: Database, cache: TagCache, name: string) returns (cache': TagCache)
    requires forall n :: n in cache ==> cache[n] == TagsForPackage(db.Contents(), n)
    ensures name in cache' && forall n :: n in cache' ==> cache'[n] == TagsForPackage(db.Contents(), n)
  {
    cache' := if name in cache then cache else cache[name := TagsForPackage(db.Contents(), name)];
  }

  method ScanVersion(db: Database, plan: Plan, cache: TagCache, id: nat, opts: Options)
    returns (r: Result<Plan, Error>, cache': TagCache)
    requires id in db.packages && db.packages[id].Readable?
    requires forall n :: n in cache ==> cache[n] == TagsForPackage(db.Contents(), n)
    ensures r == ScanOne(db.Contents(), plan, id, opts)
    ensures forall n :: n in cache' ==> cache'[n] == TagsForPackage(db.Contents(), n)
  {
    cache' := cache;
    var pkg := db.packages[id].value;
    var rows := db.LinksForPackage(id);
    if rows.Err? { return Err(rows.error), cache; }
    var links := FindOrphans(db, id, rows.value, plan.links, opts.gone);
    if links.Err? { return Err(links.error), cache; }
    var orphaned := CountLinks(links.value, id);
    cache' := TagsOnce(db, cache, pkg.name);
    if PinnedByTag(cache'[pkg.name], pkg.hash) || |rows.value| - orphaned != 0 || Young(pkg, opts) {
      r := Ok(Plan(links.value, plan.packages));
    } else {
      r := Ok(Plan(links.value, plan.packages + [id]));
    }
  }

  method ScanPackages(db: Database, ids: seq<nat>, opts: Options) returns (r: Result<Plan, Error>)
    requires forall id :: id in ids ==> id in db.packages && db.packages[id].Readable?
    ensures r == Scan(db.Contents(), Plan([], []), ids, opts)
  {
    var plan := Plan([], []);
    var tagsByName: TagCache := map[];
    for i := 0 to |ids|
      invariant forall name :: name in tagsByName ==> tagsByName[name] == TagsForPackage(db.Contents(), name)
      invariant Scan(db.Contents(), Plan([], []), ids, opts) == Scan(db.Contents(), plan, ids[i..], opts)
    {
      assert ids[i..][1..] == ids[i + 1..];
      r, tagsByName := ScanVersion(db, plan, tagsByName, ids[i], opts);
      if r.Err? { return; }
      plan := r.value;
    }
    r := Ok(plan);
  }

  method RemoveLinks(db: Database, joins: seq<Join>)
    modifies db
    ensures db.Contents() == RemoveOrphanedLinks(old(db.Contents()), joins)
  {
    for i := 0 to |joins|
      invariant RemoveOrphanedLinks(old(db.Contents()), joins) == RemoveOrphanedLinks(db.Contents(), joins[i..])
    {
      assert joins[i..][1..] == joins[i + 1..];
      var _ := db.DeleteLink(joins[i].pkg, joins[i].proj);
    }
  }

  method RemoveVersions(db: Database, ids: seq<nat>, stuck: set<nat>)
    modifies db
    ensures db.Contents() == RemovePackages(old(db.Contents()), ids, stuck)
  {
    for i := 0 to |ids|
      invariant RemovePackages(old(db.Contents()), ids, stuck) == RemovePackages(db.Contents(), ids[i..], stuck)
    {
      assert ids[i..][1..] == ids[i + 1..];
      if ids[i] !in stuck {
        var _ := db.DeletePackage(ids[i]);
      }
    }
  }

  lemma {:induction false} UnlinkingMovesLinks(st: State, joins: seq<Join>)
    ensures var st' := RemoveOrphanedLinks(st, joins);
            st' == st.(links := st'.links, linksByPackage := st'.linksByPackage, linksByProject := st'.linksByProject)
    decreases |joins|
  {
    hide FindLink;
    if joins != [] {
      var deleted := DeleteLink(st, joins[0].pkg, joins[0].proj);
      UnlinkingMovesLinks(if deleted.Ok? then deleted.value else st, joins[1..]);
    }
  }

  /** One run over whatever listing the database gives it: a failed read stops it with the
      store untouched, and otherwise it leaves what the plan says. Of an undamaged store it
      deletes exactly what its options ask for and nothing spares; of any, a dry run deletes
      nothing, and one whose question about versions is declined no version, file or tag. */
  method RunGC(db: Database, opts: Options) returns (r: Result<(), Error>, ids: seq<nat>)
    modifies db
    ensures Listing(old(db.Contents()), ids)
    ensures Reports(r, Run(old(db.Contents()), ids, opts))
    ensures db.Contents() == if r.Ok? then Run(old(db.Contents()), ids, opts).value else old(db.Contents())
    ensures opts.dryRun ==> db.Contents() == old(db.Contents())
    ensures !opts.confirmPackages ==>
              && db.packages == old(db.packages) && db.files == old(db.files) && db.tags == old(db.tags)
              && db.byName == old(db.byName)
    ensures Core(old(db.Contents())) ==>
              && AllReadable(old(db.links)) && r.Ok?
              && GcExact.IsSwept(old(db.Contents()), db.Contents(), opts)
  {
    hide Core, Scan, RemoveOrphanedLinks, RemovePackages, GcExact.IsSwept;
    ghost var before := db.Contents();
    ids := ListPackages(db);
    if Core(before) { GcExact.GcDoesExactly(before, ids, opts); }
    var plan := ScanPackages(db, ids, opts);
    if plan.Err? { return Err(plan.error), ids; }
    UnlinkingMovesLinks(before, plan.value.links);
    if !opts.dryRun {
      if opts.fixLinks && opts.confirmLinks {
        RemoveLinks(db, plan.value.links);
      }
      if opts.confirmPackages {
        RemoveVersions(db, plan.value.packages, opts.stuck);
      }
    }
    r := Ok(());
  }
}
