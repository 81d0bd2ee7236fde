/** What a confirmed run leaves: exactly the versions something reaches, every row of
    a present project, and nothing for a second run to do. */
module GcExact {
  import opened Wrappers
  import opened LinkStore
  import opened LinkIndexes
  import opened StoreInvariant
  import LinkMoves
  import opened Gc

  // ---------------------------------------------------------------- the rows

  /** The rows left once every planned join is gone. */
  function Unlinked(links: LinkMap, joins: seq<Join>): LinkMap {
    map l | l in links && !(links[l].Readable? && Join(links[l].value.pkg, links[l].value.proj) in joins) :: links[l]
  }

  lemma UnlinkedStep(links: LinkMap, joins: seq<Join>)
    requires joins != []
    ensures Unlinked(LinkMoves.Unjoined(links, joins[0].pkg, joins[0].proj), joins[1..]) == Unlinked(links, joins)
  {
    assert joins == [joins[0]] + joins[1..];
  }

  lemma {:induction false} RemoveOrphanedExact(st: State, joins: seq<Join>)
    requires Core(st)
    ensures Core(RemoveOrphanedLinks(st, joins))
    ensures LinkMoves.OnlyLinksMoved(st, RemoveOrphanedLinks(st, joins))
    ensures RemoveOrphanedLinks(st, joins).nextID == st.nextID
    ensures RemoveOrphanedLinks(st, joins).links == Unlinked(st.links, joins)
    decreases |joins|
  {
    hide Core, DeleteLink;
    if joins == [] {
      assert Unlinked(st.links, joins) == st.links;
    } else {
      LinkMoves.DeleteLinkShape(st, joins[0].pkg, joins[0].proj);
      RemoveOrphanedExact(DeleteLink(st, joins[0].pkg, joins[0].proj).value, joins[1..]);
      UnlinkedStep(st.links, joins);
    }
  }

  // ---------------------------------------------------------------- the versions

  /** The rows left once every row of the given versions is gone. */
  function Uncollected(links: LinkMap, ids: seq<nat>): LinkMap {
    map l | l in links && !(links[l].Readable? && links[l].value.pkg in ids) :: links[l]
  }

  predicate TagOf(packages: PackageMap, id: nat, key: string, hash: string) {
    id in packages && packages[id].Readable? && TagKey(packages[id].value.name, "") <= key &&
        packages[id].value.hash == hash
  }

  /** The tags left once exactly the tags of the given versions are gone. */
  ghost predicate TagsUncollected(packages: PackageMap, tags: map<string, string>, tags': map<string, string>,
                                  ids: seq<nat>) {
    && (forall key :: key in tags' ==> key in tags && tags'[key] == tags[key])
    && (forall key :: key in tags && key !in tags' ==> exists id :: id in ids && TagOf(packages, id, key, tags[key]))
    && (forall key, id :: key in tags && id in ids && TagOf(packages, id, key, tags[key]) ==> key !in tags')
  }

  ghost predicate Collected(st: State, st': State, ids: seq<nat>) {
    && st'.packages == (map id | id in st.packages && id !in ids :: st.packages[id])
    && st'.links == Uncollected(st.links, ids)
    && TagsUncollected(st.packages, st.tags, st'.tags, ids)
    && st'.files == (map id | id in st.files && id !in ids :: st.files[id])
    && st'.projects == st.projects && st'.byPath == st.byPath && st'.nextID == st.nextID
  }

  lemma CollectOne(st: State, id: nat)
    requires Core(st)
    ensures DeletePackage(st, id).Ok? && Core(DeletePackage(st, id).value)
    ensures Collected(st, DeletePackage(st, id).value, [id])
  {
    hide DeletePackage, Core;
    LinkMoves.DeletePackageShape(st, id);
    UncollectedOne(st, id);
    UntaggedOne(st, id);
  }

  lemma UncollectedOne(st: State, id: nat)
    ensures LinkMoves.Disowned(st.links, ByPackage, id) == Uncollected(st.links, [id])
    ensures st.packages - {id} == map p | p in st.packages && p !in [id] :: st.packages[p]
    ensures st.files - {id} == map p | p in st.files && p !in [id] :: st.files[p]
  {
    assert LinkMoves.Disowned(st.links, ByPackage, id) == Uncollected(st.links, [id]);
  }

  lemma UnnamedKeeps(st: State, id: nat, key: string)
    ensures key in Unnamed(st, id).tags <==> key in st.tags && !TagOf(st.packages, id, key, st.tags[key])
    ensures key in Unnamed(st, id).tags ==> Unnamed(st, id).tags[key] == st.tags[key]
  {
    hide TagKey;
  }

  lemma UntaggedOne(st: State, id: nat)
    ensures TagsUncollected(st.packages, st.tags, Unnamed(st, id).tags, [id])
  {
    hide Unnamed, TagOf;
    forall key: string { UnnamedKeeps(st, id, key); }
    assert id in [id];
  }

  lemma TagsStep(packages: PackageMap, left: PackageMap, tags: map<string, string>, tags1: map<string, string>,
                 tags2: map<string, string>, ids: seq<nat>)
    requires ids != [] && left == map id | id in packages && id !in [ids[0]] :: packages[id]
    requires TagsUncollected(packages, tags, tags1, [ids[0]]) && TagsUncollected(left, tags1, tags2, ids[1..])
    ensures TagsUncollected(packages, tags, tags2, ids)
  {
    hide TagKey;
    assert ids == [ids[0]] + ids[1..];
    forall key | key in tags && key !in tags2 ensures exists p :: p in ids && TagOf(packages, p, key, tags[key]) {
      if key in tags1 {
        var p :| p in ids[1..] && TagOf(left, p, key, tags1[key]);
        assert p in ids && TagOf(packages, p, key, tags[key]);
      } else {
        var p :| p in [ids[0]] && TagOf(packages, p, key, tags[key]);
        assert p in ids && TagOf(packages, p, key, tags[key]);
      }
    }
    forall key, id | key in tags && id in ids && TagOf(packages, id, key, tags[key]) ensures key !in tags2 {
      if id == ids[0] {
        assert id in [ids[0]] && TagOf(packages, id, key, tags[key]);
      } else if key in tags1 {
        assert TagOf(left, id, key, tags1[key]);
      }
    }
  }

  lemma CollectedStep(st: State, st1: State, st2: State, ids: seq<nat>)
    requires ids != [] && Collected(st, st1, [ids[0]]) && Collected(st1, st2, ids[1..])
    ensures Collected(st, st2, ids)
  {
    hide TagsUncollected;
    TagsStep(st.packages, st1.packages, st.tags, st1.tags, st2.tags, ids);
    assert ids == [ids[0]] + ids[1..];
    assert st2.links == Uncollected(st.links, ids);
  }

  lemma {:induction false} RemovePackagesExact(st: State, ids: seq<nat>)
    requires Core(st)
    ensures Core(RemovePackages(st, ids, {}))
    ensures Collected(st, RemovePackages(st, ids, {}), ids)
    decreases |ids|
  {
    hide Core, Collected, DeletePackage;
    if ids == [] {
      NothingCollected(st);
    } else {
      CollectOne(st, ids[0]);
      var st1 := DeletePackage(st, ids[0]).value;
      RemovePackagesExact(st1, ids[1..]);
      CollectedStep(st, st1, RemovePackages(st1, ids[1..], {}), ids);
    }
  }

  lemma NothingCollected(st: State)
    ensures Collected(st, st, [])
  {
    assert Uncollected(st.links, []) == st.links;
  }

  // ---------------------------------------------------------------- one run

  /** The versions a listing holds that the run must keep. */
  ghost predicate ExactlyReached(st: State, st': State, opts: Options)
    requires AllReadable(st.packages)
  {
    && (forall id :: id in st'.packages <==> id in st.packages && Reached(st, id, opts))
    && (forall id :: id in st'.packages ==> st'.packages[id] == st.packages[id])
  }

  /** Every row of a present project is kept as it was; no row is invented. */
  ghost predicate PresentRowsKept(st: State, st': State, gone: set<string>) {
    && (forall l :: l in st.links && st.links[l].Readable? && Present(st.projects, st.links[l].value.proj, gone)
          ==> l in st'.links && st'.links[l] == st.links[l])
    && (forall l :: l in st'.links ==> l in st.links && st'.links[l] == st.links[l])
  }

  predicate Confirmed(opts: Options) {
    !opts.dryRun && opts.confirmPackages && opts.stuck == {}
  }

  /** A confirmed run whose removals succeed keeps exactly the versions something
      reaches, and every row of every present project. */
  lemma GcIsExact(st: State, ids: seq<nat>, opts: Options)
    requires Core(st) && Listing(st, ids) && Confirmed(opts)
    ensures AllReadable(st.packages) && Run(st, ids, opts).Ok?
    ensures var st' := Run(st, ids, opts).value;
            && Core(st')
            && ExactlyReached(st, st', opts)
            && PresentRowsKept(st, st', opts.gone)
            && st'.projects == st.projects
            && TagsUncollected(st.packages, st.tags, st'.tags, Scan(st, Plan([], []), ids, opts).value.packages)
  {
    hide Core, Scan, RemoveOrphanedLinks, RemovePackages, Reached;
    CoreReadsVersions(st);
    ScanDecides(st, Plan([], []), ids, opts);
    var plan := Scan(st, Plan([], []), ids, opts).value;
    var unlinked := if opts.fixLinks && opts.confirmLinks then RemoveOrphanedLinks(st, plan.links) else st;
    if opts.fixLinks && opts.confirmLinks { RemoveOrphanedExact(st, plan.links); }
    RemovePackagesExact(unlinked, plan.packages);
    var st' := RemovePackages(unlinked, plan.packages, {});
    RowsOfPresentSurvive(st, unlinked, st', plan, opts);
  }

  lemma RowsOfPresentSurvive(st: State, unlinked: State, st': State, plan: Plan, opts: Options)
    requires AllReadable(st.packages)
    requires unlinked.links == st.links || unlinked.links == Unlinked(st.links, plan.links)
    requires st'.links == Uncollected(unlinked.links, plan.packages)
    requires forall join :: join in plan.links ==> OrphanJoin(st, join, opts.gone)
    requires forall id :: id in plan.packages ==> id in st.packages && !Reached(st, id, opts)
    ensures PresentRowsKept(st, st', opts.gone)
  {
    forall l | l in st.links && st.links[l].Readable? && Present(st.projects, st.links[l].value.proj, opts.gone)
      ensures l in st'.links && st'.links[l] == st.links[l]
    {
      var row := st.links[l].value;
      assert !OrphanJoin(st, Join(row.pkg, row.proj), opts.gone);
      assert Owns(st.links, ByPackage, row.pkg, l);
    }
  }

  // ---------------------------------------------------------------- any run

  /** What keeps a version: a present consumer, a channel other than the default one, or, with
      an age limit, an update less than that long ago. */
  ghost predicate Spared(st: State, id: nat, opts: Options)
    requires id in st.packages && st.packages[id].Readable?
  {
    || Consumed(st, id, opts.gone) || Channelled(st, id)
    || (opts.maxAge > 0 && opts.now < st.packages[id].value.updatedAt + opts.maxAge)
  }

  /** A version the run deletes: asked for, confirmed, not stuck and kept by nothing. */
  ghost predicate Goes(st: State, id: nat, opts: Options) {
    && !opts.dryRun && opts.confirmPackages && id !in opts.stuck
    && id in st.packages && st.packages[id].Readable? && !Spared(st, id, opts)
  }

  /** A row the run deletes for its own sake: asked for, confirmed and of no present project. */
  predicate Unlinks(st: State, proj: nat, opts: Options) {
    !opts.dryRun && opts.fixLinks && opts.confirmLinks && !Present(st.projects, proj, opts.gone)
  }

  /** The tag names a version that goes. */
  ghost predicate LosesTag(st: State, key: string, opts: Options)
    requires key in st.tags
  {
    exists id :: Goes(st, id, opts) && TagOf(st.packages, id, key, st.tags[key])
  }

  /** The store after a run: the versions that go are gone with their files, their tags and
      their rows, the rows to be unlinked are gone, and nothing else has changed. */
  ghost predicate IsSwept(st: State, st': State, opts: Options)
    requires AllReadable(st.links)
  {
    && st'.packages == (map id | id in st.packages && !Goes(st, id, opts) :: st.packages[id])
    && st'.files == (map id | id in st.files && !Goes(st, id, opts) :: st.files[id])
    && st'.links == (map l | l in st.links && !Goes(st, st.links[l].value.pkg, opts)
                             && !Unlinks(st, st.links[l].value.proj, opts) :: st.links[l])
    && (forall key :: key in st'.tags <==> key in st.tags && !LosesTag(st, key, opts))
    && (forall key :: key in st'.tags ==> st'.tags[key] == st.tags[key])
    && st'.projects == st.projects && st'.byPath == st.byPath && st'.nextID == st.nextID
  }

  function Unstuck(ids: seq<nat>, stuck: set<nat>): (r: seq<nat>)
    ensures forall id :: id in r <==> id in ids && id !in stuck
  {
    if ids == [] then []
    else if ids[0] in stuck then Unstuck(ids[1..], stuck)
    else [ids[0]] + Unstuck(ids[1..], stuck)
  }

  /** A run deletes exactly what its options ask for and nothing spares, whatever they are: a
      dry run nothing at all, one whose questions are declined only what was not declined. */
  lemma GcDoesExactly(st: State, ids: seq<nat>, opts: Options)
    requires Core(st) && Listing(st, ids)
    ensures AllReadable(st.links) && Run(st, ids, opts).Ok? && IsSwept(st, Run(st, ids, opts).value, opts)
  {
    hide Core, Scan, RemoveOrphanedLinks, RemovePackages, Reached, Collected, Spared, IsSwept;
    CoreReadsVersions(st);
    CoreReadsLinks(st);
    ScanDecides(st, Plan([], []), ids, opts);
    var plan := Scan(st, Plan([], []), ids, opts).value;
    forall id | id in st.packages ensures Reached(st, id, opts) <==> Spared(st, id, opts) {
      ReachedIsSpared(st, id, opts);
    }
    if opts.dryRun {
      NothingSwept(st, opts);
    } else {
      var unlinks := opts.fixLinks && opts.confirmLinks;
      var joins := if unlinks then plan.links else [];
      var gone := if opts.confirmPackages then Unstuck(plan.packages, opts.stuck) else [];
      RemoveOrphanedExact(st, joins);
      RemoveSkipsStuck(RemoveOrphanedLinks(st, joins), plan.packages, opts.stuck);
      RemovePackagesExact(RemoveOrphanedLinks(st, joins), gone);
      NoneToRemove(st);
      NoneToRemove(RemoveOrphanedLinks(st, joins));
      forall l: nat { RowNamesVersion(st, l); }
      SweptIs(st, RemoveOrphanedLinks(st, joins), Run(st, ids, opts).value, joins, gone, opts);
    }
  }

  lemma ReachedIsSpared(st: State, id: nat, opts: Options)
    requires id in st.packages && st.packages[id].Readable?
    ensures Reached(st, id, opts) <==> Spared(st, id, opts)
  {
    hide Consumed, Channelled;
  }

  lemma CoreReadsLinks(st: State)
    requires Core(st)
    ensures AllReadable(st.links)
  {
  }

  lemma NothingSwept(st: State, opts: Options)
    requires AllReadable(st.links) && opts.dryRun
    ensures IsSwept(st, st, opts)
  {
  }

  lemma NoneToRemove(st: State)
    ensures RemoveOrphanedLinks(st, []) == st && RemovePackages(st, [], {}) == st
  {
  }

  lemma {:induction false} RemoveSkipsStuck(st: State, ids: seq<nat>, stuck: set<nat>)
    ensures RemovePackages(st, ids, stuck) == RemovePackages(st, Unstuck(ids, stuck), {})
    decreases |ids|
  {
    hide DeletePackage;
    if ids != [] {
      var deleted := DeletePackage(st, ids[0]);
      RemoveSkipsStuck(if ids[0] !in stuck && deleted.Ok? then deleted.value else st, ids[1..], stuck);
      assert ids[0] !in stuck ==> Unstuck(ids, stuck)[1..] == Unstuck(ids[1..], stuck);
    }
  }

  lemma SweptIs(st: State, unlinked: State, st': State, joins: seq<Join>, gone: seq<nat>, opts: Options)
    requires AllReadable(st.packages) && AllReadable(st.links) && !opts.dryRun
    requires LinkMoves.OnlyLinksMoved(st, unlinked) && unlinked.nextID == st.nextID
    requires unlinked.links == Unlinked(st.links, joins) && Collected(unlinked, st', gone)
    requires forall l :: l in st.links ==> st.links[l].value.pkg in st.packages
    requires forall id :: id in gone <==> Goes(st, id, opts)
    requires forall join :: join in joins <==>
               opts.fixLinks && opts.confirmLinks && join.pkg in st.packages && OrphanJoin(st, join, opts.gone)
    ensures IsSwept(st, st', opts)
  {
    hide Goes, TagOf;
    RowsSwept(st, unlinked.links, st'.links, joins, gone, opts);
    assert st'.packages == map id | id in st.packages && !Goes(st, id, opts) :: st.packages[id];
    assert st'.files == map id | id in st.files && !Goes(st, id, opts) :: st.files[id];
  }

  lemma RowsSwept(st: State, unlinked: LinkMap, links: LinkMap, joins: seq<Join>, gone: seq<nat>, opts: Options)
    requires AllReadable(st.links) && !opts.dryRun
    requires unlinked == Unlinked(st.links, joins) && links == Uncollected(unlinked, gone)
    requires forall l :: l in st.links ==> st.links[l].value.pkg in st.packages
    requires forall id :: id in gone <==> Goes(st, id, opts)
    requires forall join :: join in joins <==>
               opts.fixLinks && opts.confirmLinks && join.pkg in st.packages && OrphanJoin(st, join, opts.gone)
    ensures links == map l | l in st.links && !Goes(st, st.links[l].value.pkg, opts)
                             && !Unlinks(st, st.links[l].value.proj, opts) :: st.links[l]
  {
    hide Goes, Present;
    forall l | l in st.links
      ensures Join(st.links[l].value.pkg, st.links[l].value.proj) in joins <==>
                Unlinks(st, st.links[l].value.proj, opts)
    {
      assert Joins(st.links, l, st.links[l].value.pkg, st.links[l].value.proj);
    }
  }

  // ---------------------------------------------------------------- a second run

  lemma StillReached(st: State, st': State, ids: seq<nat>, id: nat, opts: Options)
    requires Core(st) && AllReadable(st.packages) && id in st.packages && Reached(st, id, opts)
    requires forall p :: p in ids ==> p in st.packages && p != id
    requires id in st'.packages && st'.packages[id] == st.packages[id] && st'.projects == st.projects
    requires PresentRowsKept(st, st', opts.gone)
    requires TagsUncollected(st.packages, st.tags, st'.tags, ids)
    ensures Reached(st', id, opts)
  {
    if l :| Owns(st.links, ByPackage, id, l) && Present(st.projects, st.links[l].value.proj, opts.gone) {
      assert Owns(st'.links, ByPackage, id, l);
    } else if Channelled(st, id) {
      var pkg := st.packages[id].value;
      var tag :| tag != DEFAULT_TAG && TagKey(pkg.name, tag) in st.tags && st.tags[TagKey(pkg.name, tag)] == pkg.hash;
      if TagKey(pkg.name, tag) !in st'.tags {
        var p :| p in ids && TagOf(st.packages, p, TagKey(pkg.name, tag), pkg.hash);
        PrefixNamesPackage(st.packages[p].value.name, pkg.name, tag);
        LinkMoves.SameContentSameRecord(st, p, id);
        assert false;
      }
    }
  }

  lemma NoOrphansLeft(st: State, ids: seq<nat>, opts: Options, st': State, join: Join)
    requires Core(st) && Listing(st, ids) && Confirmed(opts) && opts.fixLinks && opts.confirmLinks
    requires Run(st, ids, opts) == Ok(st')
    ensures !OrphanJoin(st', join, opts.gone)
  {
    hide Core, Scan, RemoveOrphanedLinks, RemovePackages;
    CoreReadsVersions(st);
    ScanDecides(st, Plan([], []), ids, opts);
    var plan := Scan(st, Plan([], []), ids, opts).value;
    RemoveOrphanedExact(st, plan.links);
    var unlinked := RemoveOrphanedLinks(st, plan.links);
    RemovePackagesExact(unlinked, plan.packages);
    forall l: nat { RowNamesVersion(st, l); }
    OrphanIsPlanned(st, plan, join, opts.gone);
    forall l ensures !(Joins(st'.links, l, join.pkg, join.proj) && !Present(st'.projects, join.proj, opts.gone)) {
      assert Joins(st'.links, l, join.pkg, join.proj) ==>
          Joins(st.links, l, join.pkg, join.proj) && join !in plan.links;
    }
  }

  lemma OrphanIsPlanned(st: State, plan: Plan, join: Join, gone: set<string>)
    requires forall l :: l in st.links ==> st.links[l].Readable? && st.links[l].value.pkg in st.packages
    requires forall j :: OrphanJoin(st, j, gone) && j.pkg in st.packages ==> j in plan.links
    ensures forall l :: Joins(st.links, l, join.pkg, join.proj) && !Present(st.projects, join.proj, gone) ==>
              join in plan.links
  {
    forall l | Joins(st.links, l, join.pkg, join.proj) && !Present(st.projects, join.proj, gone)
      ensures join in plan.links
    {
      assert OrphanJoin(st, join, gone);
    }
  }

  lemma RowNamesVersion(st: State, l: nat)
    requires Core(st)
    ensures l in st.links ==> st.links[l].Readable? && st.links[l].value.pkg in st.packages
  {
  }

  /** An immediate second run with the same verdicts and clock removes nothing. */
  lemma GcIsIdempotent(st: State, ids: seq<nat>, opts: Options, ids': seq<nat>)
    requires Core(st) && Listing(st, ids) && Confirmed(opts)
    requires Run(st, ids, opts).Ok? && Listing(Run(st, ids, opts).value, ids')
    ensures Run(Run(st, ids, opts).value, ids', opts) == Ok(Run(st, ids, opts).value)
  {
    hide Core, Scan, Reached, Collected, RemoveOrphanedLinks, RemovePackages;
    GcIsExact(st, ids, opts);
    ScanDecides(st, Plan([], []), ids, opts);
    var condemned := Scan(st, Plan([], []), ids, opts).value.packages;
    var st' := Run(st, ids, opts).value;
    CoreReadsVersions(st');
    ScanDecides(st', Plan([], []), ids', opts);
    var plan := Scan(st', Plan([], []), ids', opts).value;
    forall id | id in st'.packages ensures Reached(st', id, opts) {
      StillReached(st, st', condemned, id, opts);
    }
    if opts.fixLinks && opts.confirmLinks {
      forall join ensures join !in plan.links {
        NoOrphansLeft(st, ids, opts, st', join);
      }
    }
    NothingPlanned(st', plan, opts);
  }

  lemma NothingPlanned(st: State, plan: Plan, opts: Options)
    requires forall id :: id !in plan.packages
    requires opts.fixLinks && opts.confirmLinks ==> forall join :: join !in plan.links
    ensures Sweep(st, plan, opts) == st
  {
    HasMember(plan.packages);
    HasMember(plan.links);
  }

  lemma HasMember<T>(s: seq<T>)
    ensures s == [] || exists x :: x in s
  {
    if s != [] { assert s[0] in s; }
  }

  // ---------------------------------------------------------------- damage

  /** A scan that meets damage it cannot see past deletes nothing: the run reports it
      and the store is untouched. */
  lemma DamageStopsTheRun(st: State, ids: seq<nat>, opts: Options, id: nat)
    requires forall p :: p in ids ==> p in st.packages && st.packages[p].Readable?
    requires id in ids && GetLinksForPackage(st, id).Err?
    ensures Run(st, ids, opts).Err?
  {
    DamageStopsTheScan(st, Plan([], []), ids, opts, id);
  }

  lemma {:induction false} DamageStopsTheScan(st: State, plan: Plan, ids: seq<nat>, opts: Options, id: nat)
    requires forall p :: p in ids ==> p in st.packages && st.packages[p].Readable?
    requires id in ids && GetLinksForPackage(st, id).Err?
    ensures Scan(st, plan, ids, opts).Err?
    decreases |ids|
  {
    if ids[0] != id && ScanOne(st, plan, ids[0], opts).Ok? {
      assert ids == [ids[0]] + ids[1..];
      DamageStopsTheScan(st, ScanOne(st, plan, ids[0], opts).value, ids[1..], opts, id);
    }
  }

  /** The damage a scan meets is an unreadable entry of a version, or an unreadable or
      missing row such an entry names. */
  lemma {:induction false} DamagedRowIsMet(links: LinkMap, ids: seq<nat>)
    ensures RowsOf(links, ids).Err? <==> exists id :: id in ids && (id !in links || links[id].Damaged?)
  {
    if ids != [] {
      DamagedRowIsMet(links, ids[1..]);
      assert ids == [ids[0]] + ids[1..];
    }
  }
}
