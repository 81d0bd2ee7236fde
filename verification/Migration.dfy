/** Bringing a store written by an older build up to the schema that has tags. */
module Migration {
  import opened Wrappers
  import opened LinkStore
  import opened StoreInvariant
  import opened LinkDatabase

  const SCHEMA_VERSION := 3

  /** The name index gives a name a record that can be read. */
  predicate Indexed(packages: PackageMap, byName: map<string, nat>, name: string) {
    name in byName && byName[name] in packages && packages[byName[name]].Readable?
  }

  /** Every name so indexed has its default tag on the record's content; no other tag changes. */
  ghost predicate Backfilled(packages: PackageMap, byName: map<string, nat>, before: map<string, string>,
                             after: map<string, string>, done: set<string>) {
    && (forall name :: name in done && Indexed(packages, byName, name) ==>
          TagKey(name, DEFAULT_TAG) in after && after[TagKey(name, DEFAULT_TAG)] == packages[byName[name]].value.hash)
    && (forall key :: key in after ==>
          || (key in before && after[key] == before[key])
          || exists name :: name in done && Indexed(packages, byName, name) && key == TagKey(name, DEFAULT_TAG))
    && (forall key :: key in before ==> key in after)
  }

  lemma SameKeySameName(name: string, other: string)
    requires TagKey(name, DEFAULT_TAG) == TagKey(other, DEFAULT_TAG)
    ensures name == other
  {
    var key := TagKey(name, DEFAULT_TAG);
    assert name == key[..|key| - 7] == other;
  }

  lemma BackfillOne(packages: PackageMap, byName: map<string, nat>, before: map<string, string>, after: map<string,
                    string>, done: set<string>, name: string)
    requires Backfilled(packages, byName, before, after, done) && name in byName
    ensures var more := if Indexed(packages, byName,
              name) then after[TagKey(name, DEFAULT_TAG) := packages[byName[name]].value.hash] else after;
            Backfilled(packages, byName, before, more, done + {name})
  {
    var key := TagKey(name, DEFAULT_TAG);
    forall other | other in done && TagKey(other, DEFAULT_TAG) == key
      ensures other == name
    {
      SameKeySameName(other, name);
    }
  }

  /** Refuses a store a newer build wrote, leaves a current one alone, and otherwise gives
      each indexed name its default tag, whatever records cannot be read. */
  method Migrate(db: Database, recorded: Option<nat>) returns (r: Result<nat, Error>)
    modifies db
    ensures recorded.Some? && recorded.value > SCHEMA_VERSION ==>
              r == Err(NewerSchema) && db.Contents() == old(db.Contents())
    ensures recorded == Some(SCHEMA_VERSION) ==> r == Ok(SCHEMA_VERSION) && db.Contents() == old(db.Contents())
    ensures recorded.None? || recorded.value < SCHEMA_VERSION ==>
              && r == Ok(SCHEMA_VERSION) && db.Contents() == old(db.Contents()).(tags := db.tags)
              && Backfilled(db.packages, db.byName, old(db.tags), db.tags, db.byName.Keys)
  {
    if recorded.Some? && recorded.value > SCHEMA_VERSION {
      return Err(NewerSchema);
    }
    if recorded == Some(SCHEMA_VERSION) {
      return Ok(SCHEMA_VERSION);
    }
    var left := db.byName.Keys;
    ghost var done: set<string> := {};
    while left != {}
      invariant left <= db.byName.Keys && done == db.byName.Keys - left
      invariant db.Contents() == old(db.Contents()).(tags := db.tags)
      invariant Backfilled(db.packages, db.byName, old(db.tags), db.tags, done)
      decreases |left|
    {
      var name :| name in left;
      left := left - {name};
      BackfillOne(db.packages, db.byName, old(db.tags), db.tags, done, name);
      done := done + {name};
      if Indexed(db.packages, db.byName, name) {
        db.tags := db.tags[TagKey(name, DEFAULT_TAG) := db.packages[db.byName[name]].value.hash];
      }
    }
    r := Ok(SCHEMA_VERSION);
  }

  /** A sound store without tags, whose name index names each package's own record, is sound
      with the tags a migration gives it. */
  lemma MigratedIsValid(st: State, tags: map<string, string>)
    requires Core(st) && PathIndexExact(st.projects, st.byPath) && st.tags == map[]
    requires forall name :: name in st.byName ==>
              Indexed(st.packages, st.byName, name) && st.packages[st.byName[name]].value.name == name
    requires Backfilled(st.packages, st.byName, map[], tags, st.byName.Keys)
    ensures Valid(st.(tags := tags))
  {
    hide Versions, Rows, PathIndexExact;
    forall key | key in tags ensures exists id :: Tagged(st.packages, key, tags[key], id) {
      var name :| name in st.byName.Keys && Indexed(st.packages, st.byName, name) && key == TagKey(name, DEFAULT_TAG);
      TagKeyPrefix(name, DEFAULT_TAG);
      assert Tagged(st.packages, key, tags[key], st.byName[name]);
    }
    forall name | LegalName(name) && TagKey(name, DEFAULT_TAG) in tags ensures name in st.byName {
      var other :| other in st.byName.Keys && Indexed(st.packages, st.byName, other) &&
          TagKey(name, DEFAULT_TAG) == TagKey(other, DEFAULT_TAG);
      SameKeySameName(name, other);
    }
  }
}
