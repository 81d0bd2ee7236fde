/** The edits of package.json that the commands make, in its text and as its readers see it:
    reading what the editor wrote gives what the specifier protocol says of the two fields. */
module SpecifierText {
  import opened Wrappers
  import opened JsonText
  import opened JsonTree
  import opened JsonSpans
  import opened JsonEdits
  import opened JsonObjects
  import opened JsonCores
  import opened PackageJson
  import opened PackageJsonLaws
  import opened PackageJsonUndo
  import Specifier

  const DEPS := "dependencies"
  const DEV := "devDependencies"

  // ---------------------------------------------------------------- what readers see

  /** The text of a value, and "" for one that is no text. */
  function Read(v: Value): string {
    if v.Text? && IsBody(v.body) then Decode(v.body) else ""
  }

  /** Entries by name, a later one taking over from an earlier. */
  function ByName(cs: seq<Core>): map<string, string> {
    if cs == [] then map[]
    else
      var rest := ByName(cs[1..]);
      if cs[0].Name() in rest then rest else rest[cs[0].Name() := Read(cs[0].value)]
  }

  /** The two dependency fields as readers of the text see them. */
  function ManifestOf(src: string): Specifier.Manifest
    requires IsPackageJson(src)
  {
    Specifier.Manifest(ByName(Entries(DocumentOf(src), DEPS)), ByName(Entries(DocumentOf(src), DEV)))
  }

  lemma {:induction false} NamedIsIn(cs: seq<Core>, name: string)
    ensures name in ByName(cs) <==> Named(cs, name) > 0
  {
    if cs != [] { NamedIsIn(cs[1..], name); }
  }

  lemma {:induction false} AssignedByName(cs: seq<Core>, name: string, entry: Core)
    requires entry.Name() == name
    ensures ByName(Assign(cs, name, entry)) == ByName(cs)[name := Read(entry.value)]
  {
    hide Read, IsBody, Decode;
    if cs == [] {
      assert [entry][1..] == [];
    } else {
      var rest := cs[1..];
      NamedIsIn(rest, name);
      AssignedByName(rest, name, entry);
      if cs[0].Name() != name {
        assert ([cs[0]] + Assign(rest, name, entry))[1..] == Assign(rest, name, entry);
      } else {
        assert ([cs[0].(value := entry.value)] + rest)[1..] == rest;
      }
    }
  }

  lemma {:induction false} OthersByName(cs: seq<Core>, name: string)
    ensures ByName(Others(cs, name)) == ByName(cs) - {name}
  {
    hide Read;
    if cs != [] {
      OthersByName(cs[1..], name);
      if cs[0].Name() != name {
        assert ([cs[0]] + Others(cs[1..], name))[1..] == Others(cs[1..], name);
      } else {
        assert Others(cs, name) == Others(cs[1..], name);
      }
    }
  }

  // ---------------------------------------------------------------- the other field

  lemma LastIndexIs(ms: seq<Member>, name: string, i: int)
    requires -1 <= i < |ms| && (i >= 0 ==> KeyName(ms[i]) == name) && forall k :: i < k < |ms| ==>
              KeyName(ms[k]) != name
    ensures LastIndex(ms, name) == i
  {
    hide KeyName;
  }

  /** An edit of one field leaves what readers see of another. */
  lemma OtherFieldStays(d: Document, d': Document, field: string, other: string)
    requires d.value.Object? && d'.value.Object? && OnlyFieldDiffers(d, d', field) && field != other
    ensures Entries(d', other) == Entries(d, other)
  {
    hide LastIndex, KeyName, Cores;
    var ms, ms' := d.value.members, d'.value.members;
    MembersStay(d, d', field);
    LastIndexIs(ms', other, LastIndex(ms, other));
  }

  lemma MembersStay(d: Document, d': Document, field: string)
    requires d.value.Object? && d'.value.Object? && OnlyFieldDiffers(d, d', field)
    ensures var ms, ms' := d.value.members, d'.value.members;
            && |ms| <= |ms'| <= |ms| + 1 && (|ms'| > |ms| ==> KeyName(ms'[|ms|]) == field)
            && (forall k :: 0 <= k < |ms| ==> KeyName(ms'[k]) == KeyName(ms[k]))
            && (forall k :: 0 <= k < |ms| && KeyName(ms[k]) != field ==> ms'[k].value == ms[k].value)
  {
    hide LastIndex, IsBody, Decode;
    var ms, ms', i := d.value.members, d'.value.members, FieldIndex(d, field);
    forall k | 0 <= k < |ms| ensures KeyName(ms'[k]) == KeyName(ms[k]) && (k != i ==> ms'[k].value == ms[k].value) {
      if i < 0 && k == |ms| - 1 { assert ms'[k] == ms[k].(post := ""); }
    }
  }

  // ---------------------------------------------------------------- one edit

  lemma SetIsRead(src: string, field: string, other: string, name: string, value: string)
    requires IsPackageJson(src) && field != other
    ensures var out := SetText(src, field, name, value);
            && out.Ok? && IsPackageJson(out.value)
            && ByName(Entries(DocumentOf(out.value), field)) == ByName(Entries(DocumentOf(src), field))[name := value]
            && Entries(DocumentOf(out.value), other) == Entries(DocumentOf(src), other)
  {
    hide IsPackageJson, DocumentOf, SetText, OnlyFieldDiffers, Assign, Others, ByName, Entries, Copies, Reads, Encode,
         Decode, IsBody;
    SetDepMeaning(src, field, name, value);
    var entry := EntryCore(name, Text(Encode(value)));
    EntryCoreName(name, Text(Encode(value)));
    DecodeEncode(value);
    AssignedByName(Entries(DocumentOf(src), field), name, entry);
    OtherFieldStays(DocumentOf(src), DocumentOf(SetText(src, field, name, value).value), field, other);
  }

  lemma RemoveIsRead(src: string, field: string, other: string, name: string)
    requires IsPackageJson(src) && field != other
    ensures var out := RemoveText(src, field, name);
            && out.Ok? && IsPackageJson(out.value)
            && ByName(Entries(DocumentOf(out.value), field)) == ByName(Entries(DocumentOf(src), field)) - {name}
            && Entries(DocumentOf(out.value), other) == Entries(DocumentOf(src), other)
  {
    hide IsPackageJson, DocumentOf, RemoveText, OnlyFieldDiffers, Others, ByName, Count, FieldIndex;
    RemoveDepMeaning(src, field, name);
    OthersByName(Entries(DocumentOf(src), field), name);
    if FieldIndex(DocumentOf(src), field) >= 0 {
      OtherFieldStays(DocumentOf(src), DocumentOf(RemoveText(src, field, name).value), field, other);
    } else {
      NoFieldNoCopies(src, field, name);
    }
  }

  lemma NoFieldNoCopies(src: string, field: string, name: string)
    requires IsPackageJson(src) && FieldIndex(DocumentOf(src), field) < 0
    ensures Copies(src, field, name) == 0
  {
    hide DocumentOf, IsPackageJson;
  }

  predicate EndsInNewline(s: string) {
    s != "" && s[|s| - 1] == '\n'
  }

  lemma NewlineIsNotRead(src: string)
    requires IsPackageJson(src)
    ensures IsPackageJson(EnsureTrailingNewline(src)) && ManifestOf(EnsureTrailingNewline(src)) == ManifestOf(src)
    ensures EndsInNewline(EnsureTrailingNewline(src))
  {
    hide IsPackageJson, DocumentOf, EnsureTrailingNewline, ByName;
    TrailingNewlineKeepsDocument(src);
    var d, out := DocumentOf(src), DocumentOf(EnsureTrailingNewline(src));
    SameMembers(d, out, DEPS);
    SameMembers(d, out, DEV);
  }

  lemma SameMembers(d: Document, d': Document, field: string)
    requires d.value.Object? && d' == d.(post := d'.post)
    ensures Entries(d', field) == Entries(d, field)
  {
  }

  lemma FieldsDiffer()
    ensures DEPS != DEV
  {
    assert |DEPS| != |DEV|;
  }

  // ---------------------------------------------------------------- what the commands write

  /** The text add writes: the entry taken out of the one field, the reference set in the other. */
  function ReferencedText(src: string, name: string, dev: bool, useLink: bool): Result<string, JsonError>
    requires IsPackageJson(src)
  {
    var inDev := Specifier.InDevField(ManifestOf(src), name, dev);
    var without :- RemoveText(src, if inDev then DEPS else DEV, name);
    var out :- SetText(without, if inDev then DEV else DEPS, name, Specifier.Reference(name, useLink));
    Ok(EnsureTrailingNewline(out))
  }

  /** The text remove and retreat write when they know the range: set where the name stands. */
  ghost function RestoredText(src: string, name: string, range: string): Result<string, JsonError>
    requires IsPackageJson(src)
  {
    if Copies(src, DEPS, name) > 0 then
      var out :- SetText(src, DEPS, name, range);
      Ok(EnsureTrailingNewline(out))
    else if Copies(src, DEV, name) > 0 then
      var out :- SetText(src, DEV, name, range);
      Ok(EnsureTrailingNewline(out))
    else Ok(EnsureTrailingNewline(src))
  }

  /** The text they write when they do not: the entry taken out of both fields. */
  function DroppedText(src: string, name: string): Result<string, JsonError> {
    var once :- RemoveText(src, DEPS, name);
    var twice :- RemoveText(once, DEV, name);
    Ok(EnsureTrailingNewline(twice))
  }

  /** Reading what add wrote gives the reference in one field and the name in no other. */
  lemma ReferenceIsRead(src: string, name: string, dev: bool, useLink: bool)
    requires IsPackageJson(src)
    ensures var out := ReferencedText(src, name, dev, useLink);
            && out.Ok? && IsPackageJson(out.value) && EndsInNewline(out.value)
            && ManifestOf(out.value) == Specifier.WithReference(ManifestOf(src), name, dev, useLink)
  {
    hide IsPackageJson, DocumentOf, RemoveText, SetText, EnsureTrailingNewline, ByName, Entries, Specifier.Reference;
    FieldsDiffer();
    var inDev := Specifier.InDevField(ManifestOf(src), name, dev);
    var (field, other) := if inDev then (DEV, DEPS) else (DEPS, DEV);
    RemoveIsRead(src, other, field, name);
    var without := RemoveText(src, other, name).value;
    SetIsRead(without, field, other, name, Specifier.Reference(name, useLink));
    NewlineIsNotRead(SetText(without, field, name, Specifier.Reference(name, useLink)).value);
  }

  lemma CopiesAreIn(src: string, field: string, name: string)
    requires IsPackageJson(src)
    ensures Copies(src, field, name) > 0 <==> name in ByName(Entries(DocumentOf(src), field))
  {
    hide DocumentOf, IsPackageJson, Count, Named, ByName, Cores;
    NamedIsIn(Entries(DocumentOf(src), field), name);
    if HoldsObject(DocumentOf(src), field) { NamedIsCount(Deps(DocumentOf(src), field), name); }
        else { NoneNamed([], name); }
  }

  /** Reading what they wrote gives the range back where the name stood, or the name nowhere. */
  lemma UnlinkedIsRead(src: string, name: string, original: string)
    requires IsPackageJson(src)
    ensures var out := if original != "" then RestoredText(src, name, original) else DroppedText(src, name);
            && out.Ok? && IsPackageJson(out.value) && EndsInNewline(out.value)
            && ManifestOf(out.value) == Specifier.Unlinked(ManifestOf(src), name, original)
  {
    hide IsPackageJson, DocumentOf, RemoveText, SetText, EnsureTrailingNewline, ByName, Entries, Copies;
    FieldsDiffer();
    if original != "" {
      CopiesAreIn(src, DEPS, name);
      CopiesAreIn(src, DEV, name);
      SetIsRead(src, DEPS, DEV, name, original);
      SetIsRead(src, DEV, DEPS, name, original);
      NewlineIsNotRead(SetText(src, DEPS, name, original).value);
      NewlineIsNotRead(SetText(src, DEV, name, original).value);
      NewlineIsNotRead(src);
    } else {
      RemoveIsRead(src, DEPS, DEV, name);
      var once := RemoveText(src, DEPS, name).value;
      RemoveIsRead(once, DEV, DEPS, name);
      NewlineIsNotRead(RemoveText(once, DEV, name).value);
    }
  }
}
