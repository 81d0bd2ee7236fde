/** The package.json editor: each operation locates the bytes of one entry, splices new
    ones in, and is proved to be an edit of the parsed document and nothing else. */
module PackageJson {
  import opened Wrappers
  import opened JsonText
  import opened JsonTree
  import opened JsonSpans
  import opened JsonEdits
  import opened JsonObjects

  // ---------------------------------------------------------------- members by name

  /** The spans of members carry the members' names. */
  ghost predicate Names(spans: seq<Span>, ms: seq<Member>) {
    |spans| == |ms| && forall i :: 0 <= i < |ms| ==> spans[i].key == KeyName(ms[i])
  }

  lemma SpansCarryNames(v: Value, at: nat)
    requires v.Object?
    ensures Names(SpansOf(v, at).members, v.members)
  {
    hide Before, KeyText, Print, KeyName;
  }

  /** The last member of a name, or -1. */
  method MemberIndex(obj: Spans, name: string, ghost ms: seq<Member>) returns (i: int)
    requires Names(obj.members, ms)
    ensures i == LastIndex(ms, name)
  {
    hide KeyName, LastIndex;
    i := |obj.members| - 1;
    assert ms[..i + 1] == ms;
    while i >= 0
      invariant -1 <= i < |ms|
      invariant LastIndex(ms[..i + 1], name) == LastIndex(ms, name)
    {
      LastIndexStep(ms, i, name);
      if obj.members[i].key == name {
        return;
      }
      i := i - 1;
    }
    assert ms[..0] == [];
  }

  lemma LastIndexStep(ms: seq<Member>, i: nat, name: string)
    requires i < |ms|
    ensures LastIndex(ms[..i + 1], name) == if KeyName(ms[i]) == name then i else LastIndex(ms[..i], name)
  {
    hide KeyName;
    assert ms[..i + 1][..i] == ms[..i];
  }

  /** The first member of a name, or -1, and how many members carry it. */
  method Find(obj: Spans, name: string, ghost ms: seq<Member>) returns (first: int, count: nat)
    requires Names(obj.members, ms)
    ensures count == Count(ms, name)
    ensures first == if count == 0 then -1 else FirstIndex(ms, name)
  {
    hide KeyName, Count, FirstIndex;
    first, count := -1, 0;
    CountOfNone(ms, name);
    for i := 0 to |obj.members|
      invariant count == Count(ms[..i], name)
      invariant first == if count == 0 then -1 else FirstIndex(ms[..i], name)
    {
      assert ms[..i + 1] == ms[..i] + [ms[i]];
      CountSplit(ms[..i], [ms[i]], name);
      CountOfOne(ms[i], name);
      CountIsZero(ms[..i], name);
      FirstIndexExtends(ms[..i], ms[i], name);
      if obj.members[i].key == name {
        if first < 0 {
          first := i;
        }
        count := count + 1;
      }
    }
    assert ms[..|ms|] == ms;
  }

  lemma CountOfNone(ms: seq<Member>, name: string)
    ensures Count(ms[..0], name) == 0
  {
  }

  lemma CountOfOne(m: Member, name: string)
    ensures Count([m], name) == if KeyName(m) == name then 1 else 0
  {
    hide KeyName;
    assert [m][1..] == [];
  }

  lemma FirstIndexExtends(ms: seq<Member>, m: Member, name: string)
    ensures FirstIndex(ms + [m], name)
         == if FirstIndex(ms, name) < |ms| || KeyName(m) == name then FirstIndex(ms, name) else |ms| + 1
  {
    var i, j := FirstIndex(ms, name), FirstIndex(ms + [m], name);
    var all := ms + [m];
    assert forall k :: 0 <= k < |ms| ==> all[k] == ms[k];
    assert all[|ms|] == m;
    assert i < |ms| ==> KeyName(all[i]) == name;
  }

  // ---------------------------------------------------------------- one field

  lemma FieldText(d: Document, i: nat)
    requires LegalDocument(d) && d.value.Object? && i < |d.value.members|
    ensures var span := SpanAt(d.value.members, |d.pre|, i); var v := d.value.members[i].value;
              var src := PrintDocument(d);
            && FitsSpan(span, src) && Legal(v)
            && src[span.valStart..span.valEnd] == Print(v)
            && (src[span.valStart] == '{' <==> v.Object?)
            && ParseDocument(Print(v)) == Some(Document("", v, ""))
  {
    hide BeforeField, AfterField, SpanAt, Print, Fits, ParseDocument;
    var v, span := d.value.members[i].value, SpanAt(d.value.members, |d.pre|, i);
    SpansFit(d.pre, d.value, d.post);
    FieldFits(d, i);
    FieldPlace(d, i, v);
    LegalMemberOf(d.value.members, i);
    PrintThen(v, AfterField(d, i));
    SpliceBetween(PrintDocument(d), BeforeField(d, i), Print(v), AfterField(d, i), "");
    ValueBegins(v, "");
    LegalDocumentOf(v);
  }

  lemma FieldFits(d: Document, i: nat)
    requires d.value.Object? && i < |d.value.members| && Fits(SpansOf(d.value, |d.pre|), PrintDocument(d))
    ensures FitsSpan(SpanAt(d.value.members, |d.pre|, i), PrintDocument(d))
  {
    hide SpanAt, PrintDocument, FitsSpan;
    assert SpansOf(d.value, |d.pre|).members[i] == SpanAt(d.value.members, |d.pre|, i);
  }

  lemma LegalDocumentOf(v: Value)
    requires Legal(v)
    ensures ParseDocument(Print(v)) == Some(Document("", v, ""))
  {
    var d := Document("", v, "");
    ParseDocumentComplete(d);
    assert PrintDocument(d) == Print(v);
  }

  /** The object a field holds, with its members' places in the text. */
  function FieldSpans(d: Document, field: string): Option<Spans>
    requires d.value.Object?
  {
    var i := FieldIndex(d, field);
    if HoldsObject(d, field) then Some(SpansOf(d.value.members[i].value,
        SpanAt(d.value.members, |d.pre|, i).valStart)) else None
  }

  lemma TopSpans(src: string)
    requires IsPackageJson(src)
    ensures ObjectIn(src, 0, |src|) == Ok(SpansOf(DocumentOf(src).value, |DocumentOf(src).pre|))
  {
    hide SpansOf;
    assert src[0..|src|] == src;
  }

  /** Validates a text and parses its top-level object. */
  method ParsePackageJson(src: string) returns (r: Result<Spans, JsonError>)
    ensures r == if IsPackageJson(src) then Ok(SpansOf(DocumentOf(src).value, |DocumentOf(src).pre|))
              else Err(Rejection(src))
  {
    hide ParseDocument, SpansOf, LegalDocument, PrintDocument;
    if ParseDocument(src).None? {
      return Err(NotJson);
    }
    assert src[0..|src|] == src;
    r := ParseObject(src, 0, |src|);
    if IsPackageJson(src) { TopSpans(src); }
  }

  /** The object held by a top-level field, or nothing when the field is absent or holds
      something else. */
  method DependencyField(src: string, field: string) returns (r: Result<Option<Spans>, JsonError>)
    ensures r == if IsPackageJson(src) then Ok(FieldSpans(DocumentOf(src), field)) else Err(Rejection(src))
  {
    hide ParseDocument, SpanAt, Fits, LegalDocument, PrintDocument, Print, ObjectIn;
    var top :- ParsePackageJson(src);
    ghost var d := DocumentOf(src);
    SpansCarryNames(d.value, |d.pre|);
    var i := MemberIndex(top, field, d.value.members);
    if i < 0 {
      return Ok(None);
    }
    FieldText(d, i);
    var target := top.members[i];
    if src[target.valStart] != '{' {
      return Ok(None);
    }
    FieldObject(d, i);
    var deps := ParseObject(src, target.valStart, target.valEnd);
    r := Ok(Some(deps.value)); // a part of a valid text that begins with a brace always parses
  }

  lemma FieldObject(d: Document, i: nat)
    requires LegalDocument(d) && d.value.Object? && i < |d.value.members| && d.value.members[i].value.Object?
    ensures var span := SpanAt(d.value.members, |d.pre|, i); var src := PrintDocument(d);
            && span.valStart <= span.valEnd <= |src|
            && ParseDocument(src[span.valStart..span.valEnd]).Some?
            && ObjectIn(src, span.valStart, span.valEnd) == Ok(SpansOf(d.value.members[i].value, span.valStart))
  {
    hide SpanAt, Print, ParseDocument, SpansOf, LegalDocument;
    FieldText(d, i);
  }

  // ---------------------------------------------------------------- dropping copies

  lemma {:induction false} SameNames(ms: seq<Member>, ms': seq<Member>, name: string)
    requires |ms| == |ms'| && forall k :: 0 <= k < |ms| ==> KeyName(ms[k]) == KeyName(ms'[k])
    ensures LastIndex(ms, name) == LastIndex(ms', name)
  {
    hide KeyName;
    if ms != [] { SameNames(ms[..|ms| - 1], ms'[..|ms| - 1], name); }
  }

  lemma FieldStays(d: Document, i: nat, v: Value, field: string)
    requires d.value.Object? && i < |d.value.members|
    ensures FieldIndex(WithValue(d, i, v), field) == FieldIndex(d, field)
  {
    SameNames(d.value.members, WithValue(d, i, v).value.members, field);
  }

  lemma ReplacedTwice(d: Document, i: nat, v: Value, w: Value)
    requires d.value.Object? && i < |d.value.members|
    ensures WithValue(WithValue(d, i, v), i, w) == WithValue(d, i, w)
  {
    var ms := d.value.members;
    assert ms[i := ms[i].(value := v)][i := ms[i].(value := w)] == ms[i := ms[i].(value := w)];
  }

  /** The document with one entry of a field deleted. */
  function Without(d: Document, field: string, j: nat): Document
    requires d.value.Object? && HoldsObject(d, field) && j < |Deps(d, field)|
  {
    WithValue(d, FieldIndex(d, field), Object(DeleteAt(Deps(d, field), j), ""))
  }

  lemma WithoutIsLegal(d: Document, field: string, j: nat)
    requires LegalDocument(d) && d.value.Object? && HoldsObject(d, field) && j < |Deps(d, field)|
    ensures Without(d, field, j).value.Object?
    ensures LegalDocument(Without(d, field, j)) && HoldsObject(Without(d, field, j), field)
    ensures FieldIndex(Without(d, field, j), field) == FieldIndex(d, field)
    ensures Deps(Without(d, field, j), field) == DeleteAt(Deps(d, field), j)
  {
    hide LegalMember, DeleteAt;
    var i := FieldIndex(d, field);
    LegalMemberOf(d.value.members, i);
    LegalParts(d.value.members[i]);
    DeleteIsLegal(Deps(d, field), j);
    WithValueIsLegal(d, i, Object(DeleteAt(Deps(d, field), j), ""));
    FieldStays(d, i, Object(DeleteAt(Deps(d, field), j), ""), field);
  }

  lemma TrimGoesOn(d: Document, field: string, name: string, keep: nat)
    requires d.value.Object? && HoldsObject(d, field) && Count(Deps(d, field), name) > keep
    requires FirstIndex(Deps(d, field), name) < |Deps(d, field)|
    requires var next := Without(d, field, FirstIndex(Deps(d, field), name));
             HoldsObject(next, field) && FieldIndex(next, field) == FieldIndex(d, field)
             && Deps(next, field) == DeleteAt(Deps(d, field), FirstIndex(Deps(d, field), name))
    ensures var next := Without(d, field, FirstIndex(Deps(d, field), name));
            Count(Deps(next, field), name) == Count(Deps(d, field), name) - 1
            && TrimDocument(next, field, name, keep) == TrimDocument(d, field, name, keep)
  {
    hide DeleteAt, Count, FirstIndex, KeyName, LastIndex;
    var deps, i := Deps(d, field), FieldIndex(d, field);
    var j := FirstIndex(deps, name);
    CountDeleted(deps, j, name);
    ReplacedTwice(d, i, Object(DeleteAt(deps, j), ""), Object(Trim(DeleteAt(deps, j), name, keep), ""));
  }

  lemma WithoutText(d: Document, field: string, j: nat)
    requires LegalDocument(d) && d.value.Object? && HoldsObject(d, field) && j < |Deps(d, field)|
    ensures var obj := FieldSpans(d, field).value; var src := PrintDocument(d);
            && Fits(obj, src) && |obj.members| == |Deps(d, field)|
            && DeleteMember(src, obj, j) == PrintDocument(Without(d, field, j))
  {
    hide SpanAt, Print, PrintTo, Fits, BeforeField, AfterField, LegalMember, DeleteAt, DeleteMember;
    var i := FieldIndex(d, field);
    var v := d.value.members[i].value;
    LegalMemberOf(d.value.members, i);
    LegalParts(d.value.members[i]);
    FieldPlace(d, i, Object(DeleteAt(v.members, j), ""));
    DeletedText(BeforeField(d, i), v, j, AfterField(d, i));
  }

  lemma NamesOfField(d: Document, field: string)
    requires d.value.Object? && HoldsObject(d, field)
    ensures FieldSpans(d, field).Some? && Names(FieldSpans(d, field).value.members, Deps(d, field))
  {
    hide SpanAt, SpansOf, Names;
    var i := FieldIndex(d, field);
    SpansCarryNames(d.value.members[i].value, SpanAt(d.value.members, |d.pre|, i).valStart);
  }

  /** How many entries of a name a text's field holds. */
  ghost function Copies(src: string, field: string, name: string): nat {
    if IsPackageJson(src) && HoldsObject(DocumentOf(src), field) then Count(Deps(DocumentOf(src), field), name) else 0
  }

  lemma DeletedCopy(src: string, field: string, name: string, keep: nat, i: int)
    requires IsPackageJson(src) && HoldsObject(DocumentOf(src), field) && Copies(src, field, name) > keep
    requires i == FirstIndex(Deps(DocumentOf(src), field), name)
    ensures var d := DocumentOf(src); var obj := FieldSpans(d, field).value;
            && 0 <= i < |Deps(d, field)| == |obj.members| && Fits(obj, src)
            && var next := DeleteMember(src, obj, i);
            && IsPackageJson(next) && Copies(next, field, name) == Copies(src, field, name) - 1
            && TrimDocument(DocumentOf(next), field, name, keep) == TrimDocument(d, field, name, keep)
  {
    hide LegalDocument, PrintDocument, SpansOf, TrimDocument, Without, Fits, Count, FirstIndex, DeleteMember,
         FieldSpans, IsPackageJson;
    var d := DocumentOf(src);
    CountIsZero(Deps(d, field), name);
    WithoutIsLegal(d, field, i);
    TrimGoesOn(d, field, name, keep);
    WithoutText(d, field, i);
    DocumentOfPrint(Without(d, field, i));
  }

  lemma TrimDone(src: string, field: string, name: string, keep: nat)
    requires IsPackageJson(src) && Copies(src, field, name) <= keep
    ensures TrimDocument(DocumentOf(src), field, name, keep) == DocumentOf(src)
    ensures PrintDocument(DocumentOf(src)) == src
  {
    hide IsPackageJson, Count, PrintDocument, LegalDocument;
  }

  /** Deletes entries of a name until at most `keep` are left, re-parsing after each: the
      loop ends because each deletion lowers the number of copies by one. */
  method TrimDeps(text: string, field: string, name: string, keep: nat) returns (r: Result<string, JsonError>)
    ensures r == if IsPackageJson(text) then Ok(PrintDocument(TrimDocument(DocumentOf(text), field, name, keep)))
              else Err(Rejection(text))
  {
    hide LegalDocument, PrintDocument, SpansOf, TrimDocument, Fits, Count, FirstIndex, DeleteMember, IsPackageJson,
         Names, DocumentOf, Rejection;
    var src := text;
    while true
      invariant IsPackageJson(src) == IsPackageJson(text)
      invariant !IsPackageJson(text) ==> src == text
      invariant IsPackageJson(text) ==>
                TrimDocument(DocumentOf(src), field, name, keep) == TrimDocument(DocumentOf(text), field, name, keep)
      decreases Copies(src, field, name)
    {
      var found :- DependencyField(src, field);
      if found.None? {
        TrimDone(src, field, name, keep);
        return Ok(src);
      }
      NamesOfField(DocumentOf(src), field);
      var i, count := Find(found.value, name, Deps(DocumentOf(src), field));
      if count <= keep {
        TrimDone(src, field, name, keep);
        return Ok(src);
      }
      DeletedCopy(src, field, name, keep, i);
      src := DeleteMember(src, found.value, i);
    }
  }

  /** The text RemoveDep makes of a text. */
  function RemoveText(src: string, field: string, name: string): Result<string, JsonError> {
    if IsPackageJson(src) then Ok(PrintDocument(TrimDocument(DocumentOf(src), field, name, 0))) else Err(Rejection(src))
  }

  /** Removes every entry of a name from a field. */
  method RemoveDep(src: string, field: string, name: string) returns (r: Result<string, JsonError>)
    ensures r == RemoveText(src, field, name)
  {
    r := TrimDeps(src, field, name, 0);
  }

  /** Whether a field holds an entry of a name. */
  method HasDep(src: string, field: string, name: string) returns (r: Result<bool, JsonError>)
    ensures r == if IsPackageJson(src) then Ok(Copies(src, field, name) > 0) else Err(Rejection(src))
  {
    hide ParseDocument, SpansOf, Fits, Count, PrintDocument, LegalDocument, IsPackageJson, DocumentOf, Rejection,
         LastIndex;
    var found :- DependencyField(src, field);
    if found.None? {
      return Ok(false);
    }
    NamesOfField(DocumentOf(src), field);
    var i := MemberIndex(found.value, name, Deps(DocumentOf(src), field));
    CountIsZero(Deps(DocumentOf(src), field), name);
    r := Ok(i >= 0);
  }

  // ---------------------------------------------------------------- setting an entry

  lemma {:induction false} TrimDocumentIsLegal(d: Document, field: string, name: string, keep: nat)
    requires LegalDocument(d) && d.value.Object?
    ensures TrimDocument(d, field, name, keep).value.Object? && LegalDocument(TrimDocument(d, field, name, keep))
  {
    hide LegalMember, Trim, Count;
    if HoldsObject(d, field) {
      var i := FieldIndex(d, field);
      LegalMemberOf(d.value.members, i);
      LegalParts(d.value.members[i]);
      TrimIsLegal(Deps(d, field), name, keep);
      WithValueIsLegal(d, i, TrimValue(d.value.members[i].value, name, keep));
    }
  }

  lemma FieldFitsWithin(d: Document, i: nat)
    requires LegalDocument(d) && d.value.Object? && i < |d.value.members| && d.value.members[i].value.Object?
    ensures Fits(SpansOf(d.value.members[i].value, SpanAt(d.value.members, |d.pre|, i).valStart), PrintDocument(d))
    ensures Fits(SpansOf(d.value, |d.pre|), PrintDocument(d))
    ensures FitsSpan(SpanAt(d.value.members, |d.pre|, i), PrintDocument(d))
  {
    hide SpanAt, Print, PrintTo, Fits, BeforeField, AfterField, LegalMember;
    var v := d.value.members[i].value;
    LegalMemberOf(d.value.members, i);
    LegalParts(d.value.members[i]);
    FieldPlace(d, i, v);
    SpansFit(BeforeField(d, i), v, AfterField(d, i));
    SpansFit(d.pre, d.value, d.post);
    FieldFits(d, i);
  }

  /** The document with an entry set in a field holding at most one of its name: a missing
      field is added, one holding no object is replaced, an entry there keeps its place. */
  function PutEntry(t: Document, field: string, name: string, value: Value): (r: Document)
    requires LegalDocument(t) && t.value.Object?
    ensures r.value.Object?
  {
    SpansFit(t.pre, t.value, t.post);
    var src, top, ms := PrintDocument(t), SpansOf(t.value, |t.pre|), t.value.members;
    var unit, nl := DetectIndentUnit(src, top), DetectLineEnding(src);
    var entry := Entry(name, value);
    var i := FieldIndex(t, field);
    if i < 0 then
      var (indent, inline) := MemberIndent(src, top, unit);
      var deps := if inline then Object([entry], "") else Block(entry, indent, unit, nl);
      t.(value := InsertInto(src, t.value, |t.pre|, Entry(field, deps), unit, nl))
    else if !ms[i].value.Object? then
      FieldFits(t, i);
      WithValue(t, i, Block(entry, LineLeadingSpace(src, top.members[i].keyStart), unit, nl))
    else
      var deps := ms[i].value;
      var j := LastIndex(deps.members, name);
      if j >= 0 then WithValue(t, i, Object(deps.members[j := deps.members[j].(value := value)], ""))
      else
        FieldFitsWithin(t, i);
        WithValue(t, i, InsertInto(src, deps, top.members[i].valStart, entry, unit, nl))
  }

  /** The document SetDep makes of a document. */
  function SetDocument(d: Document, field: string, name: string, value: Value): (r: Document)
    requires LegalDocument(d) && d.value.Object?
    ensures r.value.Object?
  {
    TrimDocumentIsLegal(d, field, name, 1);
    PutEntry(TrimDocument(d, field, name, 1), field, name, value)
  }

  /** The text SetDep makes of a text. */
  function SetText(src: string, field: string, name: string, value: string): Result<string, JsonError> {
    if IsPackageJson(src) then Ok(PrintDocument(SetDocument(DocumentOf(src), field, name, Text(Encode(value)))))
    else Err(Rejection(src))
  }

  function Quoted(s: string): string {
    "\"" + Encode(s) + "\""
  }

  lemma EntryText(name: string, v: Value, text: string)
    requires Print(v) == text
    ensures KeyText(Entry(name, v)) + Print(v) == Quoted(name) + ": " + text
  {
    hide Encode, Print;
    assert "\"" + (Encode(name) + ("\"" + ("" + (":" + " ")))) == "\"" + Encode(name) + "\"" + ": ";
  }

  lemma QuotedText(value: string)
    ensures Print(Text(Encode(value))) == Quoted(value)
  {
  }

  lemma BlockPrint(m: Member, indent: string, unit: string, nl: string, entry: string)
    requires m.pre == "" && m.post == "" && KeyText(m) + Print(m.value) == entry
    ensures Print(Block(m, indent, unit, nl)) == "{" + nl + indent + unit + entry + nl + indent + "}"
  {
    hide KeyText;
    BlockText(m, nl + indent + unit, nl + indent, "");
    hide PrintTo;
    assert (nl + indent + unit) + entry + (nl + indent) == nl + indent + unit + entry + nl + indent;
  }

  lemma InlinePrint(m: Member, entry: string)
    requires m.pre == "" && m.post == "" && KeyText(m) + Print(m.value) == entry
    ensures Print(Object([m], "")) == "{" + entry + "}"
  {
    hide KeyText;
    BlockText(m, "", "", "");
    assert m.(pre := "", post := "") == m;
  }

  lemma SplicedValue(x: string, v: Value, w: Value, y: string)
    ensures |x| + |Print(v)| <= |x + PrintTo(v, y)|
    ensures Splice(x + PrintTo(v, y), |x|, |x| + |Print(v)|, Print(w)) == x + PrintTo(w, y)
  {
    hide Print, PrintTo, Splice;
    PrintThen(v, y);
    PrintThen(w, y);
    SpliceBetween(x + PrintTo(v, y), x, Print(v), y, Print(w));
    assert |x + Print(v)| == |x| + |Print(v)|;
  }

  /** The text of a field's object holding one entry, as SetDep writes it. */
  function BlockString(entry: string, indent: string, unit: string, nl: string): string {
    "{" + nl + indent + unit + entry + nl + indent + "}"
  }

  lemma FieldAdded(t: Document, field: string, name: string, v: Value, entry: string)
    requires LegalDocument(t) && t.value.Object? && FieldIndex(t, field) < 0
    requires KeyText(Entry(name, v)) + Print(v) == entry
    ensures var src := PrintDocument(t); var top := SpansOf(t.value, |t.pre|);
            && Fits(top, src)
            && var unit := DetectIndentUnit(src, top); var nl := DetectLineEnding(src);
            && var (indent, inline) := MemberIndent(src, top, unit);
            && var body := if inline then "{" + entry + "}" else BlockString(entry, indent, unit, nl);
            && InsertMember(src, top, Quoted(field) + ": " + body, unit, nl) ==
                PrintDocument(PutEntry(t, field, name, v))
  {
    hide Print, PrintTo, Fits, SpanAt, KeyText, InsertMember, InsertInto, DetectIndentUnit, DetectLineEnding,
         MemberIndent, Legal, Block, Quoted, SpansOf;
    SpansFit(t.pre, t.value, t.post);
    var src, top := PrintDocument(t), SpansOf(t.value, |t.pre|);
    var unit, nl := DetectIndentUnit(src, top), DetectLineEnding(src);
    var (indent, inline) := MemberIndent(src, top, unit);
    var e := Entry(name, v);
    InlinePrint(e, entry);
    BlockPrint(e, indent, unit, nl, entry);
    var deps := if inline then Object([e], "") else Block(e, indent, unit, nl);
    EntryText(field, deps, Print(deps));
    InsertedText(t.pre, t.value, Entry(field, deps), unit, nl, t.post);
  }

  lemma FieldReplaced(t: Document, field: string, name: string, v: Value, entry: string, i: int)
    requires LegalDocument(t) && t.value.Object? && i == FieldIndex(t, field) >= 0 && !t.value.members[i].value.Object?
    requires KeyText(Entry(name, v)) + Print(v) == entry
    ensures var src := PrintDocument(t); var top := SpansOf(t.value, |t.pre|);
            && Fits(top, src) && FitsSpan(top.members[i], src)
            && var indent := LineLeadingSpace(src, top.members[i].keyStart);
            && var body := BlockString(entry, indent, DetectIndentUnit(src, top), DetectLineEnding(src));
            && Splice(src, top.members[i].valStart, top.members[i].valEnd, body) ==
                PrintDocument(PutEntry(t, field, name, v))
  {
    hide Print, PrintTo, Fits, SpanAt, KeyText, DetectIndentUnit, DetectLineEnding, Block, LineLeadingSpace,
         BeforeField, AfterField, Splice, PrintDocument, LegalDocument;
    LegalValue(t);
    SpansFit(t.pre, t.value, t.post);
    DocumentText(t);
    FieldFits(t, i);
    var src, top := PrintDocument(t), SpansOf(t.value, |t.pre|);
    var body := Block(Entry(name, v), LineLeadingSpace(src, top.members[i].keyStart), DetectIndentUnit(src, top),
        DetectLineEnding(src));
    BlockPrint(Entry(name, v), LineLeadingSpace(src, top.members[i].keyStart), DetectIndentUnit(src, top),
               DetectLineEnding(src), entry);
    FieldPlace(t, i, body);
    SplicedValue(BeforeField(t, i), t.value.members[i].value, body, AfterField(t, i));
  }

  lemma LegalValue(d: Document)
    requires LegalDocument(d)
    ensures Legal(d.value)
  {
  }

  lemma DocumentText(d: Document)
    ensures PrintDocument(d) == d.pre + PrintTo(d.value, d.post)
  {
  }

  lemma EntryReplaced(t: Document, field: string, name: string, v: Value, j: int)
    requires LegalDocument(t) && t.value.Object? && HoldsObject(t, field) && j == LastIndex(Deps(t, field), name) >= 0
    ensures var src := PrintDocument(t); var deps := FieldSpans(t, field).value;
            && |deps.members| == |Deps(t, field)| && FitsSpan(deps.members[j], src)
            && Splice(src, deps.members[j].valStart, deps.members[j].valEnd, Print(v)) ==
                PrintDocument(PutEntry(t, field, name, v))
  {
    hide Print, PrintTo, Fits, SpanAt, BeforeField, AfterField, Splice, PrintDocument, LegalDocument, DetectIndentUnit,
         LastIndex, UpToValue, Tail;
    var i := FieldIndex(t, field);
    var w := t.value.members[i].value;
    var ms := w.members;
    FieldFitsWithin(t, i);
    assert FieldSpans(t, field).value.members[j] == SpanAt(ms, SpanAt(t.value.members, |t.pre|, i).valStart, j);
    FitsMember(FieldSpans(t, field).value, PrintDocument(t), j);
    FieldLegal(t, i);
    var a, c := BeforeField(t, i), AfterField(t, i);
    FieldPlace(t, i, Object(ms[j := ms[j].(value := v)], ""));
    PrintOfObject(w, c);
    PlacesAreSpans(a, ms, j);
    At(a, ms, j, c);
    ReplacedValue(a, ms, j, v, c);
    ThroughIsUpTo(a, ms, j);
    SplicedValue(UpToValue(a, ms, j), ms[j].value, v, ms[j].post + Tail(ms, j, c));
  }

  lemma FitsMember(obj: Spans, src: string, j: nat)
    requires Fits(obj, src) && j < |obj.members|
    ensures FitsSpan(obj.members[j], src)
  {
  }

  lemma ThroughIsUpTo(a: string, ms: seq<Member>, j: nat)
    requires j < |ms|
    ensures |ThroughValue(a, ms, j)| == |UpToValue(a, ms, j)| + |Print(ms[j].value)|
  {
    hide UpToValue, Print;
  }

  lemma FieldLegal(d: Document, i: nat)
    requires LegalDocument(d) && d.value.Object? && i < |d.value.members|
    ensures Legal(d.value.members[i].value)
  {
    LegalMemberOf(d.value.members, i);
    LegalParts(d.value.members[i]);
  }

  lemma EntryAdded(t: Document, field: string, name: string, v: Value, entry: string)
    requires LegalDocument(t) && t.value.Object? && HoldsObject(t, field) && LastIndex(Deps(t, field), name) < 0
    requires KeyText(Entry(name, v)) + Print(v) == entry
    ensures var src := PrintDocument(t); var deps := FieldSpans(t, field).value;
            && Fits(SpansOf(t.value, |t.pre|), src) && Fits(deps, src)
            && InsertMember(src, deps, entry, DetectIndentUnit(src, SpansOf(t.value, |t.pre|)), DetectLineEnding(src))
               == PrintDocument(PutEntry(t, field, name, v))
  {
    hide Print, PrintTo, Fits, SpanAt, BeforeField, AfterField, PrintDocument, LegalDocument, DetectIndentUnit,
         DetectLineEnding, LastIndex, InsertInto, InsertMember, KeyText;
    var i := FieldIndex(t, field);
    var w := t.value.members[i].value;
    FieldFitsWithin(t, i);
    FieldLegal(t, i);
    var src := PrintDocument(t);
    var unit, nl := DetectIndentUnit(src, SpansOf(t.value, |t.pre|)), DetectLineEnding(src);
    var a, c := BeforeField(t, i), AfterField(t, i);
    FieldPlace(t, i, w);
    var r := InsertInto(src, w, |a|, Entry(name, v), unit, nl);
    FieldPlace(t, i, r);
    InsertedText(a, w, Entry(name, v), unit, nl, c);
  }

  /** Sets an entry of a field: copies but the last are dropped, then the text is parsed
      and the entry's bytes, or those of its field, are replaced or inserted. */
  method SetDep(text: string, field: string, name: string, value: string) returns (r: Result<string, JsonError>)
    ensures r == SetText(text, field, name, value)
  {
    hide Print, Fits, SpanAt, BeforeField, AfterField, PrintDocument, LegalDocument, IsPackageJson, DocumentOf,
         Rejection,
      DetectIndentUnit, DetectLineEnding, MemberIndent, LastIndex, InsertMember, KeyText, PutEntry, TrimDocument,
          Splice, Names;
    var src :- TrimDeps(text, field, name, 1);
    ghost var t := TrimDocument(DocumentOf(text), field, name, 1);
    TrimDocumentIsLegal(DocumentOf(text), field, name, 1);
    DocumentOfPrint(t);
    ghost var v := Text(Encode(value));
    var encoded := Quoted(value);
    var entry := Quoted(name) + ": " + encoded;
    QuotedText(value);
    EntryText(name, v, encoded);
    r := SetTrimmed(src, field, name, encoded, entry, t, v);
  }

  /** SetDep once copies are dropped. */
  method SetTrimmed(src: string, field: string, name: string, encoded: string, entry: string, ghost t: Document,
                    ghost v: Value)
    returns (r: Result<string, JsonError>)
    requires IsPackageJson(src) && t == DocumentOf(src) && Print(v) == encoded
    requires KeyText(Entry(name, v)) + Print(v) == entry
    ensures r == Ok(PrintDocument(PutEntry(t, field, name, v)))
  {
    hide Print, Fits, SpanAt, PrintDocument, LegalDocument, IsPackageJson, ObjectIn, ParseDocument,
      DetectIndentUnit, DetectLineEnding, MemberIndent, LastIndex, InsertMember, KeyText, PutEntry, Splice, Names,
          DocumentOf;
    assert LegalDocument(t) && src == PrintDocument(t);
    var parsed := ParsePackageJson(src);
    var top := parsed.value;
    SpansCarryNames(t.value, |t.pre|);
    LegalValue(t);
    SpansFit(t.pre, t.value, t.post);
    DocumentText(t);
    var unit, nl := DetectIndentUnit(src, top), DetectLineEnding(src);
    var i := MemberIndex(top, field, t.value.members);
    if i < 0 {
      FieldAdded(t, field, name, v, entry);
      var (indent, inline) := MemberIndent(src, top, unit);
      var body := if inline then "{" + entry + "}" else BlockString(entry, indent, unit, nl);
      return Ok(InsertMember(src, top, Quoted(field) + ": " + body, unit, nl));
    }
    var target := top.members[i];
    FieldText(t, i);
    if src[target.valStart] != '{' {
      FieldReplaced(t, field, name, v, entry, i);
      var indent := LineLeadingSpace(src, target.keyStart);
      return Ok(Splice(src, target.valStart, target.valEnd, BlockString(entry, indent, unit, nl)));
    }
    FieldObject(t, i);
    var held := ParseObject(src, target.valStart, target.valEnd);
    var deps := held.value;
    NamesOfField(t, field);
    var j := MemberIndex(deps, name, Deps(t, field));
    if j >= 0 {
      EntryReplaced(t, field, name, v, j);
      return Ok(Splice(src, deps.members[j].valStart, deps.members[j].valEnd, encoded));
    }
    EntryAdded(t, field, name, v, entry);
    r := Ok(InsertMember(src, deps, entry, unit, nl));
  }
}
