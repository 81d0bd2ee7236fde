/** Garbage collection: a scan that decides what nothing reaches, and the deletions
    it confirms (internal/cli/gc.go). */
module Gc {
  import opened Wrappers
  import opened LinkStore
  import opened LinkIndexes
  import opened StoreInvariant
  import opened LinkMoves

  /** The project directories judged gone, the clock, and the answers of one run. An
      age limit of zero is none at all; the entries the store fails to remove are
      those of the stuck versions. */
  datatype Options = Options(gone: set<string>, now: int, maxAge: int, dryRun: bool, fixLinks: bool,
                             confirmLinks: bool, confirmPackages: bool, stuck: set<nat>)

  datatype Join = Join(pkg: nat, proj: nat)

  datatype Plan = Plan(links: seq<Join>, packages: seq<nat>)

  // ---------------------------------------------------------------- the scan

  /** A link is orphaned when no record answers for its project, or the directory is gone. */
  function Orphaned(projects: ProjectMap, row: Link, gone: set<string>): Result<bool, Error> {
    if row.proj !in projects then Ok(true)
    else if projects[row.proj].Damaged? then Err(RecordUnreadable(row.proj))
    else Ok(projects[row.proj].value.path in gone)
  }

  function OrphansOf(projects: ProjectMap, pkg: nat, rows: seq<Link>, gone: set<string>): Result<seq<Join>, Error> {
    if rows == [] then Ok([])
    else
      var orphaned :- Orphaned(projects, rows[0], gone);
      var rest :- OrphansOf(projects, pkg, rows[1..], gone);
      Ok((if orphaned then [Join(pkg, rows[0].proj)] else []) + rest)
  }

  function CountLinksForPackage(links: seq<Join>, pkg: nat): nat {
    if links == [] then 0 else (if links[0].pkg == pkg then 1 else 0) + CountLinksForPackage(links[1..], pkg)
  }

  /** Whether a tag other than the default one names the content. */
  predicate PinnedByTag(tags: map<string, string>, hash: string) {
    exists tag :: tag in tags && tag != DEFAULT_TAG && tags[tag] == hash
  }

  predicate Young(pkg: Package, opts: Options) {
    opts.maxAge > 0 && opts.now - pkg.updatedAt < opts.maxAge
  }

  function ScanOne(st: State, plan: Plan, id: nat, opts: Options): Result<Plan, Error>
    requires id in st.packages && st.packages[id].Readable?
  {
    var pkg := st.packages[id].value;
    var rows :- GetLinksForPackage(st, id);
    var orphans :- OrphansOf(st.projects, id, rows, opts.gone);
    var links := plan.links + orphans;
    var valid := |rows| - CountLinksForPackage(links, id);
    if PinnedByTag(TagsForPackage(st, pkg.name), pkg.hash) || valid != 0 || Young(pkg, opts) then
      Ok(Plan(links, plan.packages))
    else Ok(Plan(links, plan.packages + [id]))
  }

  /** The listing walked, every readable version once, in whatever order it comes. */
  ghost predicate Listing(st: State, ids: seq<nat>) {
    NoDuplicates(ids) && forall id :: id in ids <==> id in st.packages && st.packages[id].Readable?
  }

  function Scan(st: State, plan: Plan, ids: seq<nat>, opts: Options): Result<Plan, Error>
    requires forall id :: id in ids ==> id in st.packages && st.packages[id].Readable?
    decreases |ids|
  {
    if ids == [] then Ok(plan)
    else
      var plan' :- ScanOne(st, plan, ids[0], opts);
      Scan(st, plan', ids[1..], opts)
  }

  // ---------------------------------------------------------------- the deletions

  /** A refused row delete is reported and passed over. */
  ghost function RemoveOrphanedLinks(st: State, links: seq<Join>): State
    decreases |links|
  {
    if links == [] then st
    else
      var deleted := DeleteLink(st, links[0].pkg, links[0].proj);
      RemoveOrphanedLinks(if deleted.Ok? then deleted.value else st, links[1..])
  }

  /** A version whose store entry would not go, or whose row delete is refused, stays. */
  function RemovePackages(st: State, ids: seq<nat>, stuck: set<nat>): State
    decreases |ids|
  {
    if ids == [] then st
    else
      var deleted := DeletePackage(st, ids[0]);
      RemovePackages(if ids[0] !in stuck && deleted.Ok? then deleted.value else st, ids[1..], stuck)
  }

  ghost function Sweep(st: State, plan: Plan, opts: Options): State {
    if opts.dryRun then st
    else
      var unlinked := if opts.fixLinks && opts.confirmLinks then RemoveOrphanedLinks(st, plan.links) else st;
      if opts.confirmPackages then RemovePackages(unlinked, plan.packages, opts.stuck) else unlinked
  }

  /** One run: a read that fails stops it before anything is deleted. */
  ghost function Run(st: State, ids: seq<nat>, opts: Options): Outcome
    requires forall id :: id in ids ==> id in st.packages && st.packages[id].Readable?
  {
    var plan :- Scan(st, Plan([], []), ids, opts);
    Ok(Sweep(st, plan, opts))
  }

  // ---------------------------------------------------------------- what a scan plans

  /** A project whose record is present and whose directory is not gone. */
  predicate Present(projects: ProjectMap, proj: nat, gone: set<string>) {
    proj in projects && projects[proj].Readable? && projects[proj].value.path !in gone
  }

  ghost predicate Consumed(st: State, id: nat, gone: set<string>) {
    exists l :: Owns(st.links, ByPackage, id, l) && Present(st.projects, st.links[l].value.proj, gone)
  }

  ghost predicate Channelled(st: State, id: nat)
    requires id in st.packages && st.packages[id].Readable?
  {
    var pkg := st.packages[id].value;
    exists tag :: tag != DEFAULT_TAG && TagKey(pkg.name, tag) in st.tags && st.tags[TagKey(pkg.name, tag)] == pkg.hash
  }

  /** What keeps a version: a present consumer, a channel other than the default one,
      or its age. */
  ghost predicate Reached(st: State, id: nat, opts: Options)
    requires id in st.packages && st.packages[id].Readable?
  {
    Consumed(st, id, opts.gone) || Channelled(st, id) || Young(st.packages[id].value, opts)
  }

  ghost predicate OrphanJoin(st: State, join: Join, gone: set<string>) {
    exists l :: Joins(st.links, l, join.pkg, join.proj) && !Present(st.projects, join.proj, gone)
  }

  lemma {:induction false} RowsOfSpec(links: LinkMap, ids: seq<nat>)
    requires forall id :: id in ids ==> id in links && links[id].Readable?
    ensures RowsOf(links, ids).Ok?
    ensures |RowsOf(links, ids).value| == |ids|
    ensures forall i :: 0 <= i < |ids| ==> RowsOf(links, ids).value[i] == links[ids[i]].value
  {
    if ids != [] { RowsOfSpec(links, ids[1..]); }
  }

  lemma {:induction false} OrphansOfSpec(projects: ProjectMap, pkg: nat, rows: seq<Link>, gone: set<string>)
    requires AllReadable(projects)
    ensures OrphansOf(projects, pkg, rows, gone).Ok?
    ensures var orphans := OrphansOf(projects, pkg, rows, gone).value;
            && |orphans| <= |rows|
            && (|orphans| == |rows| <==> forall row :: row in rows ==> !Present(projects, row.proj, gone))
            && (forall join :: join in orphans <==>
                exists row :: row in rows && join == Join(pkg, row.proj) && !Present(projects, row.proj, gone))
            && CountLinksForPackage(orphans, pkg) == |orphans|
            && (forall other :: other != pkg ==> CountLinksForPackage(orphans, other) == 0)
  {
    if rows != [] {
      OrphansOfSpec(projects, pkg, rows[1..], gone);
      assert rows == [rows[0]] + rows[1..];
      var rest := OrphansOf(projects, pkg, rows[1..], gone).value;
      var orphans := OrphansOf(projects, pkg, rows, gone).value;
      if Present(projects, rows[0].proj, gone) {
        assert orphans == rest by { assert [] + rest == rest; }
      } else {
        assert orphans == [Join(pkg, rows[0].proj)] + rest;
        assert orphans[1..] == rest;
      }
    }
  }

  lemma {:induction false} CountAppend(a: seq<Join>, b: seq<Join>, pkg: nat)
    ensures CountLinksForPackage(a + b, pkg) == CountLinksForPackage(a, pkg) + CountLinksForPackage(b, pkg)
  {
    if a == [] {
      assert a + b == b;
    } else {
      CountAppend(a[1..], b, pkg);
      assert (a + b)[1..] == a[1..] + b;
    }
  }

  /** The rows an undamaged store gives for a version are exactly those it is linked by. */
  lemma LinksOfVersion(st: State, id: nat)
    requires Core(st)
    ensures GetLinksForPackage(st, id).Ok?
    ensures forall row :: row in GetLinksForPackage(st, id).value <==>
              exists l :: Owns(st.links, ByPackage, id, l) && st.links[l].value == row
  {
    EntryOf(st.linksByPackage, st.links, ByPackage, id);
    var ids := IndexIDs(st.linksByPackage, id).value;
    RowsOfSpec(st.links, ids);
    var rows := RowsOf(st.links, ids).value;
    forall row ensures row in rows <==> exists l :: Owns(st.links, ByPackage, id, l) && st.links[l].value == row {
      if row in rows {
        var i :| 0 <= i < |rows| && rows[i] == row;
        assert Owns(st.links, ByPackage, id, ids[i]);
      }
      if l :| Owns(st.links, ByPackage, id, l) && st.links[l].value == row {
        var i :| 0 <= i < |ids| && ids[i] == l;
        assert rows[i] == row;
      }
    }
  }

  /** One step of the scan: the version is condemned exactly when nothing reaches it,
      and the links it adds are exactly its orphaned ones. */
  lemma ScanOneDecides(st: State, plan: Plan, id: nat, opts: Options)
    requires Core(st) && id in st.packages && CountLinksForPackage(plan.links, id) == 0
    ensures ScanOne(st, plan, id, opts).Ok?
    ensures var plan' := ScanOne(st, plan, id, opts).value;
            && plan'.packages == plan.packages + (if Reached(st, id, opts) then [] else [id])
            && (forall join :: join in plan'.links <==>
                join in plan.links || (join.pkg == id && OrphanJoin(st, join, opts.gone)))
            && (forall other :: other != id ==>
                CountLinksForPackage(plan'.links, other) == CountLinksForPackage(plan.links, other))
  {
    hide Core, Consumed, Channelled, OrphanJoin, PinnedByTag, TagsForPackage, GetLinksForPackage, OrphansOf;
    OrphansOfVersion(st, plan, id, opts);
    ChannelledByTags(st, id);
    assert plan.packages + [] == plan.packages;
  }

  lemma ChannelledByTags(st: State, id: nat)
    requires id in st.packages && st.packages[id].Readable?
    ensures PinnedByTag(TagsForPackage(st, st.packages[id].value.name), st.packages[id].value.hash) <==>
              Channelled(st, id)
  {
    hide TagsForPackage;
    TagsForPackageScan(st, st.packages[id].value.name);
  }

  lemma OrphansOfVersion(st: State, plan: Plan, id: nat, opts: Options)
    requires Core(st) && id in st.packages && CountLinksForPackage(plan.links, id) == 0
    ensures st.packages[id].Readable? && GetLinksForPackage(st, id).Ok?
    ensures var rows := GetLinksForPackage(st, id).value; var orphans := OrphansOf(st.projects, id, rows, opts.gone);
            && orphans.Ok?
            && (|rows| != CountLinksForPackage(plan.links + orphans.value, id) <==> Consumed(st, id, opts.gone))
            && (forall join :: join in orphans.value <==> join.pkg == id && OrphanJoin(st, join, opts.gone))
            && (forall other :: other != id ==>
                CountLinksForPackage(plan.links + orphans.value, other) == CountLinksForPackage(plan.links, other))
  {
    LinksOfVersion(st, id);
    var rows := GetLinksForPackage(st, id).value;
    OrphansOfSpec(st.projects, id, rows, opts.gone);
    var orphans := OrphansOf(st.projects, id, rows, opts.gone).value;
    hide GetLinksForPackage, OrphansOf, Core;
    forall other: nat
      ensures CountLinksForPackage(plan.links + orphans, other) ==
                CountLinksForPackage(plan.links, other) + CountLinksForPackage(orphans, other)
    {
      CountAppend(plan.links, orphans, other);
    }
    ConsumedByRows(st, id, rows, opts.gone);
    OrphansAreJoins(st, id, rows, orphans, opts.gone);
  }

  lemma ConsumedByRows(st: State, id: nat, rows: seq<Link>, gone: set<string>)
    requires forall row :: row in rows <==> exists l :: Owns(st.links, ByPackage, id, l) && st.links[l].value == row
    ensures (exists row :: row in rows && Present(st.projects, row.proj, gone)) <==> Consumed(st, id, gone)
  {
    if l :| Owns(st.links, ByPackage, id, l) && Present(st.projects, st.links[l].value.proj, gone) {
      assert st.links[l].value in rows;
    }
  }

  lemma OrphansAreJoins(st: State, id: nat, rows: seq<Link>, orphans: seq<Join>, gone: set<string>)
    requires forall row :: row in rows <==> exists l :: Owns(st.links, ByPackage, id, l) && st.links[l].value == row
    requires forall join :: join in orphans <==>
              exists row :: row in rows && join == Join(id, row.proj) && !Present(st.projects, row.proj, gone)
    ensures forall join :: join in orphans <==> join.pkg == id && OrphanJoin(st, join, gone)
  {
    forall join ensures join in orphans <==> join.pkg == id && OrphanJoin(st, join, gone) {
      if join.pkg == id && OrphanJoin(st, join, gone) {
        var l :| Joins(st.links, l, join.pkg, join.proj) && !Present(st.projects, join.proj, gone);
        assert Owns(st.links, ByPackage, id, l);
        assert st.links[l].value in rows;
      }
      if join in orphans {
        var row :| row in rows && join == Join(id, row.proj) && !Present(st.projects, row.proj, gone);
        var l :| Owns(st.links, ByPackage, id, l) && st.links[l].value == row;
        assert Joins(st.links, l, join.pkg, join.proj);
      }
    }
  }

  lemma CoreReadsVersions(st: State)
    requires Core(st)
    ensures AllReadable(st.packages)
  {
  }

  /** A whole scan condemns exactly the listed versions nothing reaches, and gathers
      exactly the orphaned links of the listed ones. */
  lemma {:induction false} ScanDecides(st: State, plan: Plan, ids: seq<nat>, opts: Options)
    requires Core(st) && NoDuplicates(ids)
    requires forall id :: id in ids ==> id in st.packages && CountLinksForPackage(plan.links, id) == 0
    ensures Scan(st, plan, ids, opts).Ok?
    ensures var plan' := Scan(st, plan, ids, opts).value;
            && (forall id :: id in plan'.packages <==> id in plan.packages || (id in ids && !Reached(st, id, opts)))
            && (forall join :: join in plan'.links <==>
                join in plan.links || (join.pkg in ids && OrphanJoin(st, join, opts.gone)))
    decreases |ids|
  {
    hide Core, Reached, OrphanJoin, ScanOne, CountLinksForPackage;
    CoreReadsVersions(st);
    if ids != [] {
      ScanOneDecides(st, plan, ids[0], opts);
      ScanDecides(st, ScanOne(st, plan, ids[0], opts).value, ids[1..], opts);
      assert ids == [ids[0]] + ids[1..];
    }
  }
}
