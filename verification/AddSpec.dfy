/** How a spec such as name@suffix chooses a build, the channel the link follows, and
    whether it pins (internal/cli/add.go). */
module AddSpec {
  import opened Wrappers
  import opened LinkStore
  import opened StoreInvariant

  datatype SpecKind = DefaultSpec | TagSpec | VersionSpec | HashSpec

  predicate PinsTheLink(kind: SpecKind) {
    kind.VersionSpec? || kind.HashSpec?
  }

  const MIN_HASH_PREFIX := 4

  datatype Resolved = Resolved(pkg: Package, tag: string, kind: SpecKind)

  predicate Retained(packages: PackageMap, id: nat, name: string) {
    id in packages && packages[id].Readable? && packages[id].value.name == name
  }

  predicate CarriesVersion(packages: PackageMap, id: nat, name: string, version: string) {
    Retained(packages, id, name) && packages[id].value.version == version
  }

  predicate CarriesHash(packages: PackageMap, id: nat, name: string, prefix: string) {
    Retained(packages, id, name) && prefix <= packages[id].value.hash
  }

  ghost function WithVersion(packages: PackageMap, name: string, version: string): (ids: set<nat>)
    ensures forall id :: id in ids <==> CarriesVersion(packages, id, name, version)
  {
    set id | id in packages && CarriesVersion(packages, id, name, version)
  }

  ghost function WithHash(packages: PackageMap, name: string, prefix: string): (ids: set<nat>)
    ensures forall id :: id in ids <==> CarriesHash(packages, id, name, prefix)
  {
    set id | id in packages && CarriesHash(packages, id, name, prefix)
  }

  /** The one member of a set of candidates; several are ambiguous, never guessed between. */
  ghost function Only(packages: PackageMap, candidates: set<nat>): Result<Option<Package>, Error>
    requires forall id :: id in candidates ==> id in packages && packages[id].Readable?
  {
    if candidates == {} then Ok(None)
    else if id: nat :| candidates == {id} then Ok(Some(packages[id].value))
    else Err(Ambiguous)
  }

  /** An exact version: the record the default tag names wins a tie. */
  ghost function MatchVersion(st: State, current: Option<Package>, name: string,
                              version: string): Result<Option<Package>, Error> {
    var candidates := WithVersion(st.packages, name, version);
    if current.Some? && current.value.id in candidates then Ok(Some(st.packages[current.value.id].value))
    else Only(st.packages, candidates)
  }

  ghost function MatchHashPrefix(st: State, name: string, prefix: string): Result<Option<Package>, Error> {
    if |prefix| < MIN_HASH_PREFIX then Ok(None)
    else Only(st.packages, WithHash(st.packages, name, prefix))
  }

  /** A dist-tag, then an exact version, then a content-hash prefix; a name nothing is
      retained for is not an error. */
  ghost function ResolveAddSpec(st: State, name: string, requested: string): Result<Option<Resolved>, Error> {
    if requested == "" then
      var pkg :- GetPackageByName(st, name);
      Ok(if pkg.Some? then Some(Resolved(pkg.value, "", DefaultSpec)) else None)
    else if ResolveTag(st, name, requested).Some? then
      Ok(Some(Resolved(ResolveTag(st, name, requested).value, requested, TagSpec)))
    else if damaged: nat :| damaged in st.packages && st.packages[damaged].Damaged? then Err(RecordUnreadable(damaged))
    else if forall id :: id in st.packages ==> !Retained(st.packages, id, name) then Ok(None)
    else
      var current :- GetPackageByName(st, name);
      var versioned :- MatchVersion(st, current, name, requested);
      if versioned.Some? then Ok(Some(Resolved(versioned.value, "", VersionSpec)))
      else
        var hashed :- MatchHashPrefix(st, name, requested);
        if hashed.Some? then Ok(Some(Resolved(hashed.value, "", HashSpec))) else Err(NotFound)
  }

  /** The link an add records. */
  function LinkFor(resolved: Resolved, proj: nat, kind: string): Link {
    Link(0, resolved.pkg.id, proj, kind, resolved.tag, PinsTheLink(resolved.kind))
  }

  /** What the three steps promise of the build they choose. */
  ghost predicate Chosen(st: State, name: string, requested: string, found: Resolved) {
    && Retained(st.packages, found.pkg.id, name) && st.packages[found.pkg.id].value == found.pkg
    && match found.kind
       case DefaultSpec => requested == "" && found.tag == ""
       case TagSpec => requested != "" && found.tag == requested
       case VersionSpec =>
         && found.tag == "" && found.pkg.version == requested
         && ((exists other :: CarriesVersion(st.packages, other, name, requested) && other != found.pkg.id)
             ==> name in st.byName && st.byName[name] == found.pkg.id)
       case HashSpec =>
         && found.tag == "" && |requested| >= 4 && requested <= found.pkg.hash
         && forall id :: CarriesHash(st.packages, id, name, requested) ==> id == found.pkg.id
  }

  /** A spec resolves to a retained build of the package it names: the build its
      channel names when it names a channel, and otherwise the one build carrying
      the version or the hash prefix, a tie between versions going to the default tag. */
  lemma ResolvedBuild(st: State, name: string, requested: string)
    requires Valid(st) && LegalName(name)
    requires ResolveAddSpec(st, name, requested).Ok? && ResolveAddSpec(st, name, requested).value.Some?
    ensures Chosen(st, name, requested, ResolveAddSpec(st, name, requested).value.value)
    ensures var found := ResolveAddSpec(st, name, requested).value.value;
            !PinsTheLink(found.kind) ==> forall proj, kind :: Follows(st.packages, st.tags, LinkFor(found, proj, kind))
  {
    hide Valid, ResolveTag, GetPackageByName, MatchVersion, MatchHashPrefix;
    NameLookup(st, name);
    TagLookup(st, name, requested);
    VersionLookup(st, name, requested);
    HashLookup(st, name, requested);
  }

  lemma NameLookup(st: State, name: string)
    requires Valid(st)
    ensures GetPackageByName(st, name).Ok?
    ensures var found := GetPackageByName(st, name).value;
            found.Some? ==>
              && Retained(st.packages, found.value.id, name) && st.packages[found.value.id].value == found.value
              && name in st.byName && st.byName[name] == found.value.id
              && TagKey(name, DEFAULT_TAG) in st.tags && st.tags[TagKey(name, DEFAULT_TAG)] == found.value.hash
  {
    if name in st.byName { assert NamesLatest(st.packages, st.byName, st.tags, name); }
  }

  lemma TagLookup(st: State, name: string, tag: string)
    requires Valid(st) && LegalName(name)
    ensures ResolveTag(st, name, tag).Some? <==> TagKey(name, NamedTag(tag)) in st.tags
    ensures var found := ResolveTag(st, name, tag);
            found.Some? ==>
              && Retained(st.packages, found.value.id, name) && st.packages[found.value.id].value == found.value
              && st.tags[TagKey(name, NamedTag(tag))] == found.value.hash
  {
    if TagKey(name, NamedTag(tag)) in st.tags {
      var id := TagNames(st, name, NamedTag(tag));
      FindsRecord(st.packages, id, name, st.tags[TagKey(name, NamedTag(tag))]);
    }
  }

  lemma VersionLookup(st: State, name: string, version: string)
    requires Valid(st)
    ensures GetPackageByName(st, name).Ok?
    ensures var found := MatchVersion(st, GetPackageByName(st, name).value, name, version);
            found.Ok? && found.value.Some? ==>
              && CarriesVersion(st.packages, found.value.value.id, name, version)
              && st.packages[found.value.value.id].value == found.value.value
              && ((exists other :: CarriesVersion(st.packages, other, name, version) && other != found.value.value.id)
                  ==> name in st.byName && st.byName[name] == found.value.value.id)
  {
    hide GetPackageByName;
    NameLookup(st, name);
    KeyedVersions(st);
    hide Valid;
    OnlyMember(st.packages, WithVersion(st.packages, name, version));
  }

  lemma HashLookup(st: State, name: string, prefix: string)
    requires Valid(st)
    ensures var found := MatchHashPrefix(st, name, prefix);
            found.Ok? && found.value.Some? ==>
              && |prefix| >= MIN_HASH_PREFIX
              && CarriesHash(st.packages, found.value.value.id, name, prefix)
              && st.packages[found.value.value.id].value == found.value.value
              && forall id :: CarriesHash(st.packages, id, name, prefix) ==> id == found.value.value.id
  {
    hide Valid;
    KeyedVersions(st);
    OnlyMember(st.packages, WithHash(st.packages, name, prefix));
  }

  lemma KeyedVersions(st: State)
    requires Valid(st)
    ensures forall id :: id in st.packages ==> st.packages[id].Readable? && st.packages[id].value.id == id
  {
  }

  lemma OnlyMember(packages: PackageMap, candidates: set<nat>)
    requires forall id :: id in candidates ==> id in packages && packages[id].Readable? && packages[id].value.id == id
    ensures var found := Only(packages, candidates);
            found.Ok? && found.value.Some? ==>
                candidates == {found.value.value.id} && found.value.value == packages[found.value.value.id].value
  {
    if candidates != {} {
      if id: nat :| candidates == {id} {
        assert id in candidates;
      }
    }
  }

  /** The default tag names a build of the version asked for. */
  predicate DefaultCarries(st: State, name: string, version: string) {
    name in st.byName && CarriesVersion(st.packages, st.byName[name], name, version)
  }

  ghost predicate IsSingle(ids: set<nat>) {
    exists id :: ids == {id}
  }

  /** When a spec must resolve: to a name that has a default tag, to a tag the name has, to a
      version one build carries or the default tag settles, or, no build carrying it as a
      version, to a long enough prefix of the hash of one build. */
  ghost predicate CanResolve(st: State, name: string, requested: string) {
    if requested == "" then name in st.byName
    else
      || TagKey(name, NamedTag(requested)) in st.tags
      || DefaultCarries(st, name, requested) || IsSingle(WithVersion(st.packages, name, requested))
      || (WithVersion(st.packages, name, requested) == {} && |requested| >= 4
          && IsSingle(WithHash(st.packages, name, requested)))
  }

  /** A spec resolves exactly when it can; what does not is refused or found nowhere. */
  lemma ResolvesExactly(st: State, name: string, requested: string)
    requires Valid(st) && LegalName(name)
    ensures var found := ResolveAddSpec(st, name, requested);
            found.Ok? && found.value.Some? <==> CanResolve(st, name, requested)
  {
    hide Valid, ResolveTag, GetPackageByName, MatchVersion, MatchHashPrefix, IsSingle, DefaultCarries, CarriesVersion,
         CarriesHash;
    NameLookup(st, name);
    NameIsFound(st, name);
    TagLookup(st, name, requested);
    NoneDamaged(st);
    VersionMatches(st, name, requested);
    HashMatches(st, name, requested);
    if forall id :: id in st.packages ==> !Retained(st.packages, id, name) { NothingCarried(st, name, requested); }
  }

  lemma NameIsFound(st: State, name: string)
    requires Valid(st)
    ensures GetPackageByName(st, name).Ok? && (GetPackageByName(st, name).value.Some? <==> name in st.byName)
  {
    if name in st.byName { assert NamesLatest(st.packages, st.byName, st.tags, name); }
  }

  lemma NoneDamaged(st: State)
    requires Valid(st)
    ensures forall id :: id in st.packages ==> st.packages[id].Readable?
  {
  }

  lemma SingleMatches(packages: PackageMap, candidates: set<nat>)
    requires forall id :: id in candidates ==> id in packages && packages[id].Readable?
    ensures var found := Only(packages, candidates);
            && (found.Ok? && found.value.Some? <==> IsSingle(candidates))
            && (found == Ok(None) <==> candidates == {})
  {
    if id: nat :| candidates == {id} { assert id in candidates; }
  }

  lemma VersionMatches(st: State, name: string, version: string)
    requires Valid(st) && GetPackageByName(st, name).Ok?
    ensures var found := MatchVersion(st, GetPackageByName(st, name).value, name, version);
            && (found.Ok? && found.value.Some? <==>
                  DefaultCarries(st, name, version) || IsSingle(WithVersion(st.packages, name, version)))
            && (found == Ok(None) <==> WithVersion(st.packages, name, version) == {})
  {
    hide Valid, GetPackageByName, IsSingle;
    NameLookup(st, name);
    NameIsFound(st, name);
    KeyedVersions(st);
    SingleMatches(st.packages, WithVersion(st.packages, name, version));
  }

  lemma HashMatches(st: State, name: string, prefix: string)
    requires Valid(st)
    ensures var found := MatchHashPrefix(st, name, prefix);
            found.Ok? && found.value.Some? <==>
              |prefix| >= MIN_HASH_PREFIX && IsSingle(WithHash(st.packages, name, prefix))
  {
    hide Valid, IsSingle;
    KeyedVersions(st);
    SingleMatches(st.packages, WithHash(st.packages, name, prefix));
  }

  lemma NothingCarried(st: State, name: string, requested: string)
    requires forall id :: id in st.packages ==> !Retained(st.packages, id, name)
    ensures !DefaultCarries(st, name, requested)
    ensures !IsSingle(WithVersion(st.packages, name, requested)) && !IsSingle(WithHash(st.packages, name, requested))
  {
    assert WithVersion(st.packages, name, requested) == {} && WithHash(st.packages, name, requested) == {};
    NoneIsNoSingle();
  }

  lemma NoneIsNoSingle()
    ensures !IsSingle({})
  {
    var none: set<nat> := {};
    forall id: nat ensures none != {id} { assert id in {id}; }
  }

  /** What does not resolve is nothing to find when no build of the name is retained or nothing
      but the name was asked for; ambiguous when several builds carry the version, or the hash
      prefix and none the version; and otherwise no version in the store. */
  lemma WhyNothingResolves(st: State, name: string, requested: string)
    requires Valid(st) && LegalName(name) && !CanResolve(st, name, requested)
    ensures ResolveAddSpec(st, name, requested) ==
              if requested == "" || forall id :: id in st.packages ==> !Retained(st.packages, id, name) then Ok(None)
              else if WithVersion(st.packages, name, requested) != {}
                   || (|requested| >= 4 && WithHash(st.packages, name, requested) != {}) then Err(Ambiguous)
              else Err(NotFound)
  {
    hide Valid, ResolveTag, GetPackageByName, IsSingle, DefaultCarries, CarriesVersion, CarriesHash;
    NameLookup(st, name);
    NameIsFound(st, name);
    TagLookup(st, name, requested);
    NoneDamaged(st);
    VersionMatches(st, name, requested);
    HashMatches(st, name, requested);
    SingleMatches(st.packages, WithVersion(st.packages, name, requested));
    SingleMatches(st.packages, WithHash(st.packages, name, requested));
  }
}
