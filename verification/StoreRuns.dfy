/** Whole runs of commands over one store: what every reachable state satisfies, how
    followers track their channels, and what no command takes from a pin. */
module StoreRuns {
  import opened Wrappers
  import opened LinkStore
  import opened StoreInvariant
  import opened TagMoves
  import opened LinkMoves
  import opened AddSpec
  import Gc

  datatype Command =
    | Publish(pkg: Package, rows: seq<FileRow>, tag: string)
    | SetTag(name: string, tag: string, hash: string)
    | DeleteTag(name: string, tag: string)
    | Add(path: string, manager: string, name: string, requested: string, kind: string)
    | Restore(path: string, manager: string, name: string, hash: string, kind: string, pinned: bool)
    | Remove(path: string, name: string)
    | Forget(path: string)
    | Pull(path: string, name: string, version: string, hash: string)
    | Collect(ids: seq<nat>, opts: Gc.Options)

  /** What the names a command carries are checked for before it reaches the store. */
  predicate Legal(command: Command) {
    match command
    case Publish(pkg, _, _) => LegalName(pkg.name)
    case Add(_, _, name, _, _) => LegalName(name)
    case Restore(_, _, name, _, _, _) => LegalName(name)
    case Remove(_, name) => LegalName(name)
    case Pull(_, name, _, _) => LegalName(name)
    case _ => true
  }

  ghost function Committed(st: State, outcome: Outcome): State {
    if outcome.Ok? then outcome.value else st
  }

  /** Registers the project, then records the link. */
  ghost function Consume(st: State, path: string, manager: string, link: Link): State {
    var (registered, proj) := InsertProject(st, path, manager);
    Committed(registered, InsertLink(registered, link.(proj := proj)))
  }

  /** The row the project at a path holds under a name, as the name-keyed view gives it. */
  ghost function HeldRow(st: State, path: string, name: string): Option<Link> {
    if path in st.byPath && exists l :: Holds(st, l, st.byPath[path], name) then
      var l :| Holds(st, l, st.byPath[path], name);
      Some(st.links[l].value)
    else None
  }

  /** A pull repoints the row the project holds onto the build its channel names; a pinned
      row is left where it is, and so is any row when the project's lock entry, of the given
      version and hash, already is of that build. */
  ghost function PullOne(st: State, path: string, name: string, version: string, hash: string): State {
    var held := HeldRow(st, path, name);
    if held.None? || held.value.pinned then st
    else
      var found :=
        if held.value.Channel() != DEFAULT_TAG then ResolveTag(st, name, held.value.tag)
        else if GetPackageByName(st, name).Ok? then GetPackageByName(st, name).value else None;
      if found.None? || (version == found.value.version && hash == found.value.hash) then st
      else if found.value.id == held.value.pkg then st
      else Committed(st, InsertLink(st, held.value.(pkg := found.value.id)))
  }

  ghost function AddOne(st: State, path: string, manager: string, name: string, requested: string,
                        kind: string): State {
    var found := ResolveAddSpec(st, name, requested);
    if found.Ok? && found.value.Some? then Consume(st, path, manager, LinkFor(found.value.value, 0, kind)) else st
  }

  /** The build a restore links: the one of the hash its snapshot recorded, or, for an entry
      without one, the build the name index names. */
  ghost function RestoredBuild(st: State, name: string, hash: string): Option<Package> {
    if hash != "" then FindByHash(st.packages, name, hash)
    else if GetPackageByName(st, name).Ok? then GetPackageByName(st, name).value
    else None
  }

  /** Links that build; the channel is recorded nowhere, so the link follows the default one
      unless it is pinned. */
  ghost function RestoreOne(st: State, path: string, manager: string, name: string, hash: string, kind: string,
                            pinned: bool): State {
    var found := RestoredBuild(st, name, hash);
    if found.Some? then Consume(st, path, manager, Link(0, found.value.id, 0, kind, "", pinned)) else st
  }

  ghost function RemoveOne(st: State, path: string, name: string): State {
    var held := HeldRow(st, path, name);
    if held.Some? then Committed(st, DeleteLink(st, held.value.pkg, st.byPath[path])) else st
  }

  ghost function ForgetOne(st: State, path: string): State {
    if path in st.byPath then Committed(st, DeleteProject(st, st.byPath[path])) else st
  }

  /** The store after one command; a command that is refused leaves it as it was. */
  ghost function Apply(st: State, command: Command): State {
    match command
    case Publish(pkg, rows, tag) => Committed(st, InsertPackageWithFiles(st, pkg, rows, tag))
    case SetTag(name, tag, hash) => Committed(st, LinkStore.SetTag(st, name, tag, hash))
    case DeleteTag(name, tag) => Committed(st, LinkStore.DeleteTag(st, name, tag))
    case Add(path, manager, name, requested, kind) => AddOne(st, path, manager, name, requested, kind)
    case Restore(path, manager, name, hash, kind, pinned) => RestoreOne(st, path, manager, name, hash, kind, pinned)
    case Remove(path, name) => RemoveOne(st, path, name)
    case Forget(path) => ForgetOne(st, path)
    case Pull(path, name, version, hash) => PullOne(st, path, name, version, hash)
    case Collect(ids, opts) => if Gc.Listing(st, ids) then Committed(st, Gc.Run(st, ids, opts)) else st
  }

  ghost function Run(st: State, commands: seq<Command>): State
    decreases |commands|
  {
    if commands == [] then st else Run(Apply(st, commands[0]), commands[1..])
  }

  // ---------------------------------------------------------------- every reachable state

  lemma HeldRowIsHeld(st: State, path: string, name: string)
    requires Valid(st) && HeldRow(st, path, name).Some?
    ensures path in st.byPath && st.byPath[path] in st.projects && HeldRow(st, path, name).value.pkg in st.packages
    ensures exists l :: Holds(st, l, st.byPath[path], name) && st.links[l].value == HeldRow(st, path, name).value
    ensures HeldRow(st, path, name).value.proj == st.byPath[path]
    ensures PackageName(st.packages, HeldRow(st, path, name).value.pkg) == name
  {
  }

  lemma ConsumeKeepsValid(st: State, path: string, manager: string, link: Link)
    requires Valid(st) && link.pkg in st.packages
    ensures Valid(Consume(st, path, manager, link))
    ensures FollowersTrack(st) && (link.pinned || Follows(st.packages, st.tags, link)) ==>
              FollowersTrack(Consume(st, path, manager, link))
  {
    hide Valid, InsertProject, FollowersTrack;
    InsertProjectShape(st, path, manager);
    InsertProjectKeepsValid(st, path, manager);
    var (registered, proj) := InsertProject(st, path, manager);
    InsertLinkKeepsValid(registered, link.(proj := proj));
  }

  lemma PullKeepsValid(st: State, path: string, name: string, version: string, hash: string)
    requires Valid(st) && LegalName(name)
    ensures Valid(PullOne(st, path, name, version, hash))
    ensures FollowersTrack(st) ==> FollowersTrack(PullOne(st, path, name, version, hash))
  {
    hide Valid, FollowersTrack, ResolveTag, GetPackageByName, HeldRow;
    var held := HeldRow(st, path, name);
    if held.Some? && !held.value.pinned {
      HeldRowIsHeld(st, path, name);
      NameLookup(st, name);
      TagLookup(st, name, held.value.tag);
      var found :=
        if held.value.Channel() != DEFAULT_TAG then ResolveTag(st, name, held.value.tag)
        else GetPackageByName(st, name).value;
      if found.Some? {
        InsertLinkKeepsValid(st, held.value.(pkg := found.value.id));
      }
    }
  }

  /** Commands after which a follower may sit off its channel. */
  predicate Detaches(command: Command) {
    command.DeleteTag? || command.Restore?
  }

  lemma SetTagCommandKeepsValid(st: State, name: string, tag: string, hash: string)
    requires Valid(st)
    ensures Valid(Committed(st, LinkStore.SetTag(st, name, tag, hash)))
    ensures FollowersTrack(st) ==> FollowersTrack(Committed(st, LinkStore.SetTag(st, name, tag, hash)))
  {
    hide Valid, FollowersTrack, FindByHash, SetTagTx;
    ContentLookup(st, name, hash);
    var found := FindByHash(st.packages, name, hash);
    if found.Some? {
      SetTagKeepsValid(st, name, tag, hash, found.value.id);
    }
  }

  lemma RecordIsKeyed(st: State, id: nat)
    requires Valid(st) && id in st.packages
    ensures st.packages[id].Readable? && st.packages[id].value.id == id
  {
  }

  lemma DeleteTagKeepsValid(st: State, name: string, tag: string)
    requires Valid(st)
    ensures Valid(Committed(st, LinkStore.DeleteTag(st, name, tag)))
  {
    hide TagsNameVersions, NameIndexMirrorsLatest, PathIndexExact, Core, TagKey;
    if NamedTag(tag) != DEFAULT_TAG {
      SameRowsKeepCore(st, st.(tags := st.tags - {TagKey(name, tag)}));
      ValidNamesAreLegal(st);
      DroppedTagKeepsNames(st.packages, st.byName, st.tags, name, tag);
    }
  }

  lemma ValidNamesAreLegal(st: State)
    requires Valid(st)
    ensures forall name :: name in st.byName ==> LegalName(name)
  {
    forall name | name in st.byName ensures LegalName(name) {
      assert NamesLatest(st.packages, st.byName, st.tags, name);
    }
  }

  lemma DroppedTagKeepsNames(packages: PackageMap, byName: map<string, nat>, tags: map<string, string>, name: string,
                             tag: string)
    requires TagsNameVersions(packages, tags) && NameIndexMirrorsLatest(packages, byName, tags)
    requires NamedTag(tag) != DEFAULT_TAG
    requires forall other :: other in byName ==> LegalName(other)
    ensures TagsNameVersions(packages, tags - {TagKey(name, tag)})
    ensures NameIndexMirrorsLatest(packages, byName, tags - {TagKey(name, tag)})
  {
    hide TagKey, LegalName, Tagged;
    var tags' := tags - {TagKey(name, tag)};
    forall key | key in tags' ensures exists id :: Tagged(packages, key, tags'[key], id) {
      var id :| Tagged(packages, key, tags[key], id);
      assert Tagged(packages, key, tags'[key], id);
    }
    forall other | other in byName ensures NamesLatest(packages, byName, tags', other) {
      assert NamesLatest(packages, byName, tags, other);
      if TagKey(other, DEFAULT_TAG) == TagKey(name, tag) {
        LatestKeyIsLatest(other, name, tag);
      }
    }
  }

  /** A key ends in the default tag of a legal name only as that name's default tag,
      or as the tag of a name that carries a NUL itself. */
  lemma LatestKeyIsLatest(name: string, other: string, tag: string)
    requires LegalName(name) && TagKey(name, DEFAULT_TAG) == TagKey(other, tag)
    ensures tag == DEFAULT_TAG
  {
    var key := TagKey(name, DEFAULT_TAG);
    assert key[|name|] == '\0' && key[|other|] == '\0';
    assert |other| >= |name| by { assert forall i :: 0 <= i < |name| ==> key[i] == name[i]; }
    assert |other| <= |name| by { assert forall i :: |name| < i < |key| ==> key[i] == DEFAULT_TAG[i - |name| - 1]; }
    assert tag == key[|other| + 1..] == DEFAULT_TAG;
  }

  lemma RemoveKeepsValid(st: State, path: string, name: string)
    requires Valid(st)
    ensures Valid(RemoveOne(st, path, name))
    ensures FollowersTrack(st) ==> FollowersTrack(RemoveOne(st, path, name))
  {
    var held := HeldRow(st, path, name);
    if held.Some? {
      DeleteLinkKeepsValid(st, held.value.pkg, st.byPath[path]);
    }
  }

  lemma CollectKeepsValid(st: State, ids: seq<nat>, opts: Gc.Options)
    requires Valid(st) && Gc.Listing(st, ids)
    ensures Valid(Committed(st, Gc.Run(st, ids, opts)))
    ensures FollowersTrack(st) ==> FollowersTrack(Committed(st, Gc.Run(st, ids, opts)))
  {
    var plan := Gc.Scan(st, Gc.Plan([], []), ids, opts);
    if plan.Ok? && !opts.dryRun {
      var unlinked := if opts.fixLinks && opts.confirmLinks then Gc.RemoveOrphanedLinks(st, plan.value.links) else st;
      if opts.fixLinks && opts.confirmLinks { UnlinkingKeepsValid(st, plan.value.links); }
      hide Valid, FollowersTrack, Gc.RemovePackages, Gc.RemoveOrphanedLinks, Gc.Scan;
      if opts.confirmPackages { CollectingKeepsValid(unlinked, plan.value.packages, opts.stuck); }
    }
  }

  lemma {:induction false} UnlinkingKeepsValid(st: State, joins: seq<Gc.Join>)
    requires Valid(st)
    ensures Valid(Gc.RemoveOrphanedLinks(st, joins))
    ensures FollowersTrack(st) ==> FollowersTrack(Gc.RemoveOrphanedLinks(st, joins))
    decreases |joins|
  {
    hide Valid, FollowersTrack, DeleteLink;
    if joins != [] {
      DeleteLinkKeepsValid(st, joins[0].pkg, joins[0].proj);
      UnlinkingKeepsValid(DeleteLink(st, joins[0].pkg, joins[0].proj).value, joins[1..]);
    }
  }

  lemma {:induction false} CollectingKeepsValid(st: State, ids: seq<nat>, stuck: set<nat>)
    requires Valid(st)
    ensures Valid(Gc.RemovePackages(st, ids, stuck))
    ensures FollowersTrack(st) ==> FollowersTrack(Gc.RemovePackages(st, ids, stuck))
    decreases |ids|
  {
    hide Valid, FollowersTrack, DeletePackage;
    if ids != [] {
      DeletePackageKeepsValid(st, ids[0]);
      CollectingKeepsValid(if ids[0] !in stuck then DeletePackage(st, ids[0]).value else st, ids[1..], stuck);
    }
  }

  lemma AddKeepsValid(st: State, path: string, manager: string, name: string, requested: string, kind: string)
    requires Valid(st) && LegalName(name)
    ensures Valid(AddOne(st, path, manager, name, requested, kind))
    ensures FollowersTrack(st) ==> FollowersTrack(AddOne(st, path, manager, name, requested, kind))
  {
    var found := ResolveAddSpec(st, name, requested);
    if found.Ok? && found.value.Some? {
      ResolvedBuild(st, name, requested);
      var link := LinkFor(found.value.value, 0, kind);
      hide Valid, FollowersTrack, ResolveAddSpec, Consume;
      ConsumeKeepsValid(st, path, manager, link);
    }
  }

  /** The build restored is a recorded one of the name: of the hash recorded, or, without one,
      the build the default tag names. */
  lemma RestoredLookup(st: State, name: string, hash: string)
    requires Valid(st)
    ensures var found := RestoredBuild(st, name, hash);
            found.Some? ==>
              && Records(st.packages, found.value.id, name, found.value.hash)
              && found.value.id in st.packages && st.packages[found.value.id] == Readable(found.value)
              && if hash != "" then found.value.hash == hash
                  else TagNamesBuild(st.tags, name, DEFAULT_TAG, found.value.hash)
  {
    hide Valid, FindByHash, GetPackageByName;
    ContentLookup(st, name, hash);
    NameLookup(st, name);
    var found := RestoredBuild(st, name, hash);
    if found.Some? { RecordIsKeyed(st, found.value.id); }
  }

  lemma RestoreKeepsValid(st: State, path: string, manager: string, name: string, hash: string, kind: string,
                          pinned: bool)
    requires Valid(st) && LegalName(name)
    ensures Valid(RestoreOne(st, path, manager, name, hash, kind, pinned))
  {
    hide Valid, RestoredBuild, Consume;
    RestoredLookup(st, name, hash);
    var found := RestoredBuild(st, name, hash);
    if found.Some? {
      ConsumeKeepsValid(st, path, manager, Link(0, found.value.id, 0, kind, "", pinned));
    }
  }

  /** One command keeps every invariant of the store. */
  lemma ApplyKeepsValid(st: State, command: Command)
    requires Valid(st) && Legal(command)
    ensures Valid(Apply(st, command))
    ensures FollowersTrack(st) && !Detaches(command) ==> FollowersTrack(Apply(st, command))
  {
    hide Valid, FollowersTrack, InsertPackageWithFiles, LinkStore.SetTag, LinkStore.DeleteTag, AddOne, RestoreOne,
         RemoveOne, PullOne, Gc.Run, LegalName, DeleteProject, Gc.Listing;
    match command {
      case Publish(pkg, rows, tag) => PublishKeepsValid(st, pkg, rows, tag);
      case SetTag(name, tag, hash) => SetTagCommandKeepsValid(st, name, tag, hash);
      case DeleteTag(name, tag) => DeleteTagKeepsValid(st, name, tag);
      case Add(path, manager, name, requested, kind) => AddKeepsValid(st, path, manager, name, requested, kind);
      case Restore(path, manager, name, hash, kind, pinned) =>
        RestoreKeepsValid(st, path, manager, name, hash, kind, pinned);
      case Remove(path, name) => RemoveKeepsValid(st, path, name);
      case Forget(path) => if path in st.byPath { DeleteProjectKeepsValid(st, st.byPath[path]); }
      case Pull(path, name, version, hash) => PullKeepsValid(st, path, name, version, hash);
      case Collect(ids, opts) => if Gc.Listing(st, ids) { CollectKeepsValid(st, ids, opts); }
    }
  }

  ghost predicate AllLegal(commands: seq<Command>) {
    forall command :: command in commands ==> Legal(command)
  }

  /** In every state any run reaches, both link indexes are exact inverses of the rows,
      every row names existing records, a project holds one row per name, versions,
      tags and the name index agree, and every ID was issued once. */
  lemma {:induction false} EveryReachableStateIsValid(st: State, commands: seq<Command>)
    requires Valid(st) && AllLegal(commands)
    ensures Valid(Run(st, commands))
    decreases |commands|
  {
    if commands != [] {
      ApplyKeepsValid(st, commands[0]);
      hide Valid, Apply, Legal;
      EveryReachableStateIsValid(Apply(st, commands[0]), commands[1..]);
    }
  }

  lemma EmptyStoreIsValid()
    ensures Valid(EMPTY) && FollowersTrack(EMPTY)
  {
  }

  /** Over any run with no tag deletion and no restore, each unpinned link sits on
      exactly the build its channel names. */
  lemma {:induction false} FollowersTrackTheirChannel(st: State, commands: seq<Command>)
    requires Valid(st) && FollowersTrack(st) && AllLegal(commands)
    requires forall command :: command in commands ==> !Detaches(command)
    ensures FollowersTrack(Run(st, commands))
    decreases |commands|
  {
    if commands != [] {
      ApplyKeepsValid(st, commands[0]);
      hide Valid, Apply, Legal, FollowersTrack;
      FollowersTrackTheirChannel(Apply(st, commands[0]), commands[1..]);
    }
  }

  /** Deleting a tag leaves every follower on its channel exactly when nothing
      unpinned follows the tag deleted. */
  lemma DeleteTagDetachesItsFollowers(st: State, name: string, tag: string)
    requires Valid(st) && FollowersTrack(st) && LegalName(name) && NamedTag(tag) != DEFAULT_TAG
    ensures FollowersTrack(Apply(st, DeleteTag(name, tag))) <==>
            forall l :: l in st.links && !st.links[l].value.pinned ==>
              !(PackageName(st.packages, st.links[l].value.pkg) == name && st.links[l].value.Channel() == tag)
  {
    hide Valid, Follows, TagKey, LegalName;
    AllReadableRows(st);
    forall l | l in st.links && !st.links[l].value.pinned
      ensures Follows(st.packages, st.tags - {TagKey(name, tag)}, st.links[l].value) <==>
              !(PackageName(st.packages, st.links[l].value.pkg) == name && st.links[l].value.Channel() == tag)
    {
      RowFollows(st, l);
      OwnerIsLegal(st, l);
      UntaggedRow(st.packages, st.tags, st.links[l].value, name, tag);
    }
  }

  lemma AllReadableRows(st: State)
    requires Valid(st)
    ensures AllReadable(st.links)
  {
  }

  lemma OwnerIsLegal(st: State, l: nat)
    requires Valid(st) && l in st.links
    ensures st.links[l].Readable? && LegalName(PackageName(st.packages, st.links[l].value.pkg))
  {
  }

  lemma UntaggedRow(packages: PackageMap, tags: map<string, string>, row: Link, name: string, tag: string)
    requires Follows(packages, tags, row) && LegalName(name) && LegalName(PackageName(packages, row.pkg))
    ensures Follows(packages, tags - {TagKey(name, tag)}, row) <==>
              !(PackageName(packages, row.pkg) == name && row.Channel() == tag)
  {
    hide TagKey;
    var owner := packages[row.pkg].value.name;
    if TagKey(owner, row.Channel()) == TagKey(name, tag) { TagKeyInjective(owner, row.Channel(), name, tag); }
  }

  /** A restored link tracks its channel exactly when it is pinned or the default tag
      names the build restored, as it does for an entry that records no hash. */
  lemma RestoreFollowsLatestOrPins(st: State, path: string, manager: string, name: string, hash: string, kind: string,
                                   pinned: bool)
    requires Valid(st) && FollowersTrack(st) && LegalName(name)
    ensures var found := RestoredBuild(st, name, hash);
            FollowersTrack(RestoreOne(st, path, manager, name, hash, kind, pinned)) <==>
              found.None? || pinned || hash == "" || TagNamesBuild(st.tags, name, DEFAULT_TAG, hash)
  {
    hide Valid, RestoredBuild, Consume, FollowersTrack, TagNamesBuild;
    RestoredLookup(st, name, hash);
    var found := RestoredBuild(st, name, hash);
    if found.Some? {
      ConsumeOffChannel(st, path, manager, Link(0, found.value.id, 0, kind, "", pinned), name, found.value.hash);
    }
  }

  predicate TagNamesBuild(tags: map<string, string>, name: string, tag: string, hash: string) {
    TagKey(name, tag) in tags && tags[TagKey(name, tag)] == hash
  }

  lemma ConsumeOffChannel(st: State, path: string, manager: string, link: Link, name: string, hash: string)
    requires Valid(st) && FollowersTrack(st) && Records(st.packages, link.pkg, name, hash) && link.tag == ""
    ensures FollowersTrack(Consume(st, path, manager, link)) <==>
              link.pinned || TagNamesBuild(st.tags, name, DEFAULT_TAG, hash)
  {
    hide Valid, Consume, FollowersTrack;
    ConsumeKeepsValid(st, path, manager, link);
    ConsumeShape(st, path, manager, link);
    var st', proj := Consume(st, path, manager, link), InsertProject(st, path, manager).1;
    var l :| Holds(st', l, proj, name) && Asks(st'.links[l].value, link);
    if !link.pinned { RowFollows(st', l); }
  }

  lemma RowFollows(st: State, l: nat)
    requires l in st.links && st.links[l].Readable? && !st.links[l].value.pinned
    ensures FollowersTrack(st) ==> Follows(st.packages, st.tags, st.links[l].value)
  {
  }

  /** A project that comes to consume a build holds one row for its name, recording
      what was asked; every other row, every version and every tag is untouched. */
  ghost predicate ConsumedBy(st: State, st': State, path: string, proj: nat, link: Link) {
    var name := PackageName(st.packages, link.pkg);
    && st'.byPath == st.byPath[path := proj]
    && proj == (if path in st.byPath then st.byPath[path] else st.nextID)
    && st'.packages == st.packages && st'.tags == st.tags && st'.byName == st.byName
    && (exists l :: Holds(st', l, proj, name) && Asks(st'.links[l].value, link))
    && SameElsewhere(st, st', proj, name)
  }

  lemma ConsumeShape(st: State, path: string, manager: string, link: Link)
    requires Valid(st) && link.pkg in st.packages
    ensures var (registered, proj) := InsertProject(st, path, manager);
            ConsumedBy(st, Consume(st, path, manager, link), path, proj, link)
  {
    hide Valid, Core, InsertProject;
    InsertProjectShape(st, path, manager);
    InsertProjectKeepsValid(st, path, manager);
    var (registered, proj) := InsertProject(st, path, manager);
    ValidIsCore(registered);
    RegisteredConsumes(st, registered, proj, link);
  }

  lemma RegisteredConsumes(st: State, registered: State, proj: nat, link: Link)
    requires Core(registered) && link.pkg in registered.packages && proj in registered.projects
    requires registered == st.(projects := registered.projects, byPath := registered.byPath,
              nextID := registered.nextID)
    ensures var st' := Committed(registered, InsertLink(registered, link.(proj := proj)));
              var name := PackageName(st.packages, link.pkg);
            && OnlyLinksMoved(registered, st')
            && (exists l :: Holds(st', l, proj, name) && Asks(st'.links[l].value, link))
            && SameElsewhere(st, st', proj, name)
  {
    hide InsertLink, Core;
    InsertLinkShape(registered, link.(proj := proj));
    InsertLinkRecords(registered, link.(proj := proj));
    var st' := InsertLink(registered, link.(proj := proj)).value;
    var name := PackageName(st.packages, link.pkg);
    var l :| Holds(st', l, proj, name);
    assert Asks(st'.links[l].value, link);
    SameElsewhereFrom(st, registered, st', proj, name);
  }

  lemma SameElsewhereFrom(st: State, registered: State, st': State, proj: nat, name: string)
    requires registered.links == st.links && registered.packages == st.packages
    requires SameElsewhere(registered, st', proj, name)
    ensures SameElsewhere(st, st', proj, name)
  {
    forall id ensures Holds(st, id, proj, name) <==> Holds(registered, id, proj, name) {}
  }

  lemma ValidIsCore(st: State)
    requires Valid(st)
    ensures Core(st)
  {
  }
}
