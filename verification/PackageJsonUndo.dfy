/** How edits of a package.json text undo and repeat each other, and what a reader of the
    edited text finds. */
module PackageJsonUndo {
  import opened Wrappers
  import opened JsonText
  import opened JsonTree
  import opened JsonSpans
  import opened JsonEdits
  import opened JsonObjects
  import opened JsonCores
  import opened PackageJson
  import opened PackageJsonLaws

  // ---------------------------------------------------------------- texts

  lemma SetTextParses(src: string, field: string, name: string, value: string)
    requires IsPackageJson(src)
    ensures var out := SetText(src, field, name, value);
            && out.Ok? && IsPackageJson(out.value)
            && DocumentOf(out.value) == SetDocument(DocumentOf(src), field, name, Text(Encode(value)))
  {
    hide LegalDocument, SetDocument, Encode, IsPackageJson, PrintDocument;
    DecodeEncode(value);
    SetIsLegal(DocumentOf(src), field, name, Text(Encode(value)));
    DocumentOfPrint(SetDocument(DocumentOf(src), field, name, Text(Encode(value))));
  }

  lemma RemoveTextParses(src: string, field: string, name: string)
    requires IsPackageJson(src)
    ensures var out := RemoveText(src, field, name);
            && out.Ok? && IsPackageJson(out.value)
            && DocumentOf(out.value) == TrimDocument(DocumentOf(src), field, name, 0)
  {
    hide LegalDocument, TrimDocument, IsPackageJson, PrintDocument;
    TrimDocumentIsLegal(DocumentOf(src), field, name, 0);
    DocumentOfPrint(TrimDocument(DocumentOf(src), field, name, 0));
  }

  /** What a reader finds in a field under a name: the decoded text of its last copy. */
  ghost predicate Reads(src: string, field: string, name: string, value: string) {
    && IsPackageJson(src) && HoldsObject(DocumentOf(src), field)
    && var deps := Deps(DocumentOf(src), field);
    && var j := LastIndex(deps, name);
    && j >= 0 && deps[j].value.Text? && IsBody(deps[j].value.body) && Decode(deps[j].value.body) == value
  }

  /** Setting an entry of any package.json: the result parses, its field holds the entry
      exactly once with that value, every other entry of the field keeps its bytes and its
      order, and every byte outside the field's value is kept. */
  lemma SetDepMeaning(src: string, field: string, name: string, value: string)
    requires IsPackageJson(src)
    ensures var out := SetText(src, field, name, value);
            && out.Ok? && IsPackageJson(out.value)
            && Copies(out.value, field, name) == 1 && Reads(out.value, field, name, value)
            && var d := DocumentOf(src); var r := DocumentOf(out.value);
            && Entries(r, field) == Assign(Entries(d, field), name, EntryCore(name, Text(Encode(value))))
            && Others(Entries(r, field), name) == Others(Entries(d, field), name)
            && OnlyFieldDiffers(d, r, field)
  {
    hide LegalDocument, SetDocument, Encode, IsPackageJson, DocumentOf, SetText, OnlyFieldDiffers, Assign, Others,
         Decode, IsBody, Named, Count, LastIndex;
    SetTextParses(src, field, name, value);
    var d, v := DocumentOf(src), Text(Encode(value));
    SetMeans(d, field, name, v);
    EntryCoreName(name, v);
    AssignSetsOnce(Entries(d, field), name, EntryCore(name, v));
    var r := SetDocument(d, field, name, v);
    NamedIsCount(Deps(r, field), name);
    CountIsZero(Deps(r, field), name);
    var j := LastIndex(Deps(r, field), name);
    CoreNamed(Deps(r, field)[j]);
    assert Entries(r, field)[j] == CoreOf(Deps(r, field)[j]);
    DecodeEncode(value);
  }

  /** Removing an entry: no copy of it is left, every other entry of the field keeps its
      bytes and its order, and a text without it is returned as it was. */
  lemma RemoveDepMeaning(src: string, field: string, name: string)
    requires IsPackageJson(src)
    ensures var out := RemoveText(src, field, name);
            && out.Ok? && IsPackageJson(out.value)
            && Copies(out.value, field, name) == 0
            && (Copies(src, field, name) == 0 ==> out.value == src)
            && var d := DocumentOf(src); var r := DocumentOf(out.value);
            && Entries(r, field) == Others(Entries(d, field), name)
            && (FieldIndex(d, field) >= 0 ==> OnlyFieldDiffers(d, r, field))
  {
    hide LegalDocument, Trim, Encode, DocumentOf, Others, Decode, IsBody, Named, Count, LastIndex, PrintDocument,
         KeepLast, ParseDocument;
    RemoveTextParses(src, field, name);
    var d := DocumentOf(src);
    var r := TrimDocument(d, field, name, 0);
    TrimDiffersInField(d, field, name, 0);
    KeepNoneIsOthers(Entries(d, field), name);
    if HoldsObject(d, field) {
      NamedIsCount(Deps(r, field), name);
    }
    if Copies(src, field, name) == 0 { TrimDone(src, field, name, 0); }
  }

  // ---------------------------------------------------------------- undoing a set

  lemma TrimDropsLast(ms: seq<Member>, m: Member, name: string)
    requires KeyName(m) == name && Count(ms, name) == 0
    ensures ms != [] ==> Trim(Append(ms, m), name, 0) == ms
    ensures Trim([m], name, 0) == []
    ensures ms != [] ==> Count(Append(ms, m), name) == 1
    ensures Count([m], name) == 1
  {
    hide KeyName, Count, FirstIndex, DeleteAt;
    CountOfOne(m, name);
    TrimOne(m, name);
    if ms != [] {
      var n, r := |ms| - 1, Append(ms, m);
      var head := ms[..n] + [ms[n].(post := "")];
      assert ms == ms[..n] + [ms[n]] && r == head + [r[n + 1]];
      KeyIgnoresBlanks(ms[n]);
      KeyIgnoresBlanks(m);
      CountOfOne(ms[n], name);
      CountOfOne(ms[n].(post := ""), name);
      CountOfOne(r[n + 1], name);
      CountSplit(ms[..n], [ms[n]], name);
      CountSplit(ms[..n], [ms[n].(post := "")], name);
      CountSplit(head, [r[n + 1]], name);
      CountIsZero(head, name);
      CountIsZero(r, name);
      assert forall k :: 0 <= k <= n ==> r[k] == head[k];
      assert FirstIndex(r, name) == n + 1;
      DroppedLast(ms, m);
      TrimNone(ms, name);
    }
  }

  lemma TrimNone(ms: seq<Member>, name: string)
    requires Count(ms, name) == 0
    ensures Trim(ms, name, 0) == ms
  {
  }

  lemma TrimOne(m: Member, name: string)
    requires KeyName(m) == name
    ensures Trim([m], name, 0) == []
  {
    hide KeyName;
    assert [m][1..] == [];
  }

  lemma DroppedLast(ms: seq<Member>, m: Member)
    requires ms != []
    ensures DeleteAt(Append(ms, m), |ms|) == ms
  {
    var n, r := |ms| - 1, Append(ms, m);
    assert r[..n] == ms[..n] && r[n].(post := r[n + 1].post) == ms[n];
    assert ms == ms[..n] + [ms[n]];
  }

  /** When removing an entry just set gives the text back: the field held an object without
      it, and that object, if empty, had nothing between its braces. */
  predicate LeavesNoTrace(d: Document, field: string, name: string)
    requires d.value.Object?
  {
    && HoldsObject(d, field) && Count(Deps(d, field), name) == 0
    && (Deps(d, field) == [] ==> d.value.members[FieldIndex(d, field)].value.blank == "")
  }

  lemma RemoveUndoesSetThere(d: Document, field: string, name: string, v: Value)
    requires LegalDocument(d) && d.value.Object? && LeavesNoTrace(d, field, name)
    ensures TrimDocument(SetDocument(d, field, name, v), field, name, 0) == d
  {
    hide Legal, LegalMembers, SpanAt, Fits, DetectIndentUnit, DetectLineEnding, LastIndex, PrintDocument, Print,
         Encode, KeyName,
      MemberIndent, LineLeadingSpace, Count, Trim;
    var i, ms := FieldIndex(d, field), Deps(d, field);
    var w := d.value.members[i].value;
    CountIsZero(ms, name);
    FieldFitsWithin(d, i);
    BlankWhenHeld(d, i);
    SpansFit(d.pre, d.value, d.post);
    var src, top := PrintDocument(d), SpansOf(d.value, |d.pre|);
    var unit, nl := DetectIndentUnit(src, top), DetectLineEnding(src);
    var at := SpanAt(d.value.members, |d.pre|, i).valStart;
    var put := InsertInto(src, w, at, Entry(name, v), unit, nl);
    EntryCoreName(name, v);
    KeyIgnoresBlanks(Entry(name, v));
    TrimDropsLast(ms, if ms != [] then put.members[|ms|].(post := "") else put.members[0], name);
    FieldStays(d, i, put, field);
    assert SetDocument(d, field, name, v) == WithValue(d, i, put);
    ReplacedTwice(d, i, put, Object(ms, ""));
    SameValue(d, i);
    if ms != [] { SameAppend(ms, put.members[|ms|]); }
  }

  lemma SameAppend(ms: seq<Member>, m: Member)
    requires ms != []
    ensures Append(ms, m.(post := "")) == Append(ms, m)
  {
  }

  lemma KeyIgnoresBlanks(m: Member)
    ensures forall pre, post :: KeyName(m.(pre := pre, post := post)) == KeyName(m)
    ensures forall pre :: KeyName(m.(pre := pre)) == KeyName(m)
    ensures forall pre :: KeyName(m.(pre := pre).(post := "")) == KeyName(m)
    ensures forall post :: KeyName(m.(post := post)) == KeyName(m)
  {
  }

  lemma BlankWhenHeld(d: Document, i: nat)
    requires LegalDocument(d) && d.value.Object? && i < |d.value.members| && d.value.members[i].value.Object?
    ensures d.value.members[i].value.members != [] ==> d.value.members[i].value.blank == ""
    ensures d.value.blank == ""
  {
    FieldLegal(d, i);
  }

  lemma SameValue(d: Document, i: nat)
    requires d.value.Object? && i < |d.value.members| && d.value.blank == ""
    ensures WithValue(d, i, d.value.members[i].value) == d
  {
    var ms := d.value.members;
    assert ms[i := ms[i].(value := ms[i].value)] == ms;
  }

  lemma CollapsedBlank(d: Document, field: string, name: string, v: Value)
    requires LegalDocument(d) && d.value.Object? && HoldsObject(d, field) && Deps(d, field) == []
    requires d.value.members[FieldIndex(d, field)].value.blank != ""
    ensures TrimDocument(SetDocument(d, field, name, v), field, name, 0) != d
  {
    hide LegalDocument, SetDocument, LastIndex, KeyName, Encode, Trim, Assign;
    var r := SetDocument(d, field, name, v);
    SetMeans(d, field, name, v);
    EntryCoreName(name, v);
    AssignAppends([], name, EntryCore(name, v));
    AssignSetsOnce(Entries(d, field), name, EntryCore(name, v));
    NamedIsCount(Deps(r, field), name);
    FieldStays(r, FieldIndex(r, field), TrimValue(r.value.members[FieldIndex(r, field)].value, name, 0), field);
  }

  /** Removing an entry just set restores the text byte for byte exactly when the text had
      a field to hold it and no such entry. */
  lemma RemoveUndoesSet(src: string, field: string, name: string, value: string)
    requires IsPackageJson(src)
    ensures SetText(src, field, name, value).Ok?
    ensures RemoveText(SetText(src, field, name, value).value, field, name) == Ok(src)
        <==> LeavesNoTrace(DocumentOf(src), field, name)
  {
    hide LegalDocument, SetDocument, Encode, IsPackageJson, OnlyFieldDiffers, Assign, Others, Count, LastIndex,
         TrimDocument, RemoveText, SetText;
    var d, v := DocumentOf(src), Text(Encode(value));
    SetTextParses(src, field, name, value);
    var text := SetText(src, field, name, value).value;
    RemoveTextParses(text, field, name);
    RemoveDepMeaning(text, field, name);
    var back := RemoveText(text, field, name).value;
    assert back == src <==> DocumentOf(back) == d;
    if LeavesNoTrace(d, field, name) {
      RemoveUndoesSetThere(d, field, name, v);
    } else {
      SetMeans(d, field, name, v);
      TrimDiffersInField(DocumentOf(text), field, name, 0);
      if HoldsObject(d, field) && Count(Deps(d, field), name) == 0 { CollapsedBlank(d, field, name, v); }
    }
  }

  // ---------------------------------------------------------------- setting again

  /** A document whose entry of a name holds another value, everything else in place. */
  function Revalued(r: Document, field: string, name: string, v: Value): Document
    requires r.value.Object? && HoldsObject(r, field) && LastIndex(Deps(r, field), name) >= 0
  {
    var ms, j := Deps(r, field), LastIndex(Deps(r, field), name);
    WithValue(r, FieldIndex(r, field), Object(ms[j := ms[j].(value := v)], ""))
  }

  lemma InsertedValue(src: string, w: Value, at: nat, m: Member, v: Value, unit: string, nl: string)
    requires w.Object? && Fits(SpansOf(w, at), src) && AllBlank(unit)
    ensures var r, r' := InsertInto(src, w, at, m, unit, nl), InsertInto(src, w, at, m.(value := v), unit, nl);
            var n := |w.members|;
            |r.members| == n + 1 && r'== Object(r.members[n := r.members[n].(value := v)], "")
  {
    hide Fits, SpansOf, MemberIndent, LineLeadingSpace;
  }

  lemma PutAgainInNewField(t: Document, field: string, name: string, v: Value, w: Value)
    requires LegalDocument(t) && t.value.Object? && FieldIndex(t, field) < 0
    ensures var r := PutEntry(t, field, name, v);
            HoldsObject(r, field) && LastIndex(Deps(r, field), name) == 0 && |Deps(r, field)| == 1
            && Revalued(r, field, name, w) == PutEntry(t, field, name, w)
  {
    hide Legal, LegalMembers, SpanAt, Fits, DetectIndentUnit, DetectLineEnding, LastIndex, PrintDocument, Print,
         Encode, KeyName,
      MemberIndent, InsertInto, LineLeadingSpace;
    SpansFit(t.pre, t.value, t.post);
    DocumentText(t);
    var src, top := PrintDocument(t), SpansOf(t.value, |t.pre|);
    var unit, nl := DetectIndentUnit(src, top), DetectLineEnding(src);
    var (indent, inline) := MemberIndent(src, top, unit);
    var deps := if inline then Object([Entry(name, v)], "") else Block(Entry(name, v), indent, unit, nl);
    var deps' := if inline then Object([Entry(name, w)], "") else Block(Entry(name, w), indent, unit, nl);
    InsertedLast(src, t.value, |t.pre|, Entry(field, deps), unit, nl);
    InsertedValue(src, t.value, |t.pre|, Entry(field, deps), deps', unit, nl);
    EntryCoreName(field, deps);
    OneNamed(deps.members[0], name, v);
    assert deps' == Object(deps.members[0 := deps.members[0].(value := w)], "");
  }

  lemma OneNamed(m: Member, name: string, v: Value)
    requires m.key == Encode(name)
    ensures LastIndex([m], name) == 0
  {
    hide Encode;
    DecodeEncode(name);
  }

  lemma PutAgainInReplacedField(t: Document, field: string, name: string, v: Value, w: Value)
    requires LegalDocument(t) && t.value.Object? && FieldIndex(t, field) >= 0 && !HoldsObject(t, field)
    ensures var r := PutEntry(t, field, name, v);
            HoldsObject(r, field) && LastIndex(Deps(r, field), name) == 0 && |Deps(r, field)| == 1
            && Revalued(r, field, name, w) == PutEntry(t, field, name, w)
  {
    hide Legal, LegalMembers, SpanAt, Fits, DetectIndentUnit, DetectLineEnding, LastIndex, PrintDocument, Print,
         Encode, KeyName, LineLeadingSpace;
    SpansFit(t.pre, t.value, t.post);
    DocumentText(t);
    var i := FieldIndex(t, field);
    FieldFits(t, i);
    var src, top := PrintDocument(t), SpansOf(t.value, |t.pre|);
    var indent := LineLeadingSpace(src, top.members[i].keyStart);
    var deps := Block(Entry(name, v), indent, DetectIndentUnit(src, top), DetectLineEnding(src));
    var deps' := Block(Entry(name, w), indent, DetectIndentUnit(src, top), DetectLineEnding(src));
    FieldStays(t, i, deps, field);
    OneNamed(deps.members[0], name, v);
    ReplacedTwice(t, i, deps, deps');
    assert deps' == Object(deps.members[0 := deps.members[0].(value := w)], "");
  }

  lemma PutAgainInObject(t: Document, field: string, name: string, v: Value, w: Value)
    requires LegalDocument(t) && t.value.Object? && HoldsObject(t, field)
    ensures var r := PutEntry(t, field, name, v);
            HoldsObject(r, field) && LastIndex(Deps(r, field), name) >= 0
            && Revalued(r, field, name, w) == PutEntry(t, field, name, w)
  {
    hide Legal, LegalMembers, SpanAt, Fits, DetectIndentUnit, DetectLineEnding, LastIndex, PrintDocument, Print,
         Encode, KeyName, InsertInto;
    SpansFit(t.pre, t.value, t.post);
    DocumentText(t);
    var i := FieldIndex(t, field);
    FieldFitsWithin(t, i);
    var deps := t.value.members[i].value;
    var ms, j := deps.members, LastIndex(deps.members, name);
    var src, top := PrintDocument(t), SpansOf(t.value, |t.pre|);
    if j >= 0 {
      var put := Object(ms[j := ms[j].(value := v)], "");
      FieldStays(t, i, put, field);
      ValueKeepsName(ms, j, v, name);
      ReplacedTwice(t, i, put, Object(ms[j := ms[j].(value := w)], ""));
      assert put.members[j := put.members[j].(value := w)] == ms[j := ms[j].(value := w)];
    } else {
      var at, unit, nl := SpanAt(t.value.members, |t.pre|, i).valStart, DetectIndentUnit(src, top),
          DetectLineEnding(src);
      var put := InsertInto(src, deps, at, Entry(name, v), unit, nl);
      FieldStays(t, i, put, field);
      EntryCoreName(name, v);
      InsertedLast(src, deps, at, Entry(name, v), unit, nl);
      InsertedValue(src, deps, at, Entry(name, v), w, unit, nl);
      ReplacedTwice(t, i, put, InsertInto(src, deps, at, Entry(name, w), unit, nl));
    }
  }

  lemma ValueKeepsName(ms: seq<Member>, j: nat, v: Value, name: string)
    requires j < |ms| && j == LastIndex(ms, name)
    ensures LastIndex(ms[j := ms[j].(value := v)], name) == j
  {
    SameNames(ms, ms[j := ms[j].(value := v)], name);
  }

  lemma SetAgain(d: Document, field: string, name: string, v: Value, w: Value)
    requires LegalDocument(d) && d.value.Object? && Legal(v)
    ensures var r := SetDocument(d, field, name, v);
            LegalDocument(r) && SetDocument(r, field, name, w) == SetDocument(d, field, name, w)
  {
    hide LegalDocument, PutEntry, TrimDocument, OnlyFieldDiffers, Assign, KeepLast, Count, Encode, LastIndex, Legal;
    var t, r := TrimDocument(d, field, name, 1), SetDocument(d, field, name, v);
    TrimDocumentIsLegal(d, field, name, 1);
    SetIsLegal(d, field, name, v);
    SetMeans(d, field, name, v);
    EntryCoreName(name, v);
    AssignSetsOnce(Entries(d, field), name, EntryCore(name, v));
    NamedIsCount(Deps(r, field), name);
    if FieldIndex(t, field) < 0 { PutAgainInNewField(t, field, name, v, w); }
    else if !HoldsObject(t, field) { PutAgainInReplacedField(t, field, name, v, w); }
    else { PutAgainInObject(t, field, name, v, w); }
    assert TrimDocument(r, field, name, 1) == r by { NothingToTrim(r, field, name); }
    PutThere(r, field, name, w);
  }

  lemma NothingToTrim(r: Document, field: string, name: string)
    requires r.value.Object? && HoldsObject(r, field) && Count(Deps(r, field), name) <= 1
    ensures TrimDocument(r, field, name, 1) == r
  {
    hide Count, LastIndex;
  }

  lemma PutThere(r: Document, field: string, name: string, w: Value)
    requires LegalDocument(r) && r.value.Object? && HoldsObject(r, field) && LastIndex(Deps(r, field), name) >= 0
    ensures PutEntry(r, field, name, w) == Revalued(r, field, name, w)
  {
    hide Legal, LegalMembers, SpanAt, Fits, DetectIndentUnit, DetectLineEnding, LastIndex, PrintDocument, Print, Block,
         InsertInto;
  }

  /** Setting an entry twice leaves what setting it to the second value alone leaves, byte
      for byte; with one value, setting is idempotent. */
  lemma LastSetWins(src: string, field: string, name: string, first: string, second: string)
    requires IsPackageJson(src)
    ensures SetText(src, field, name, first).Ok?
    ensures SetText(SetText(src, field, name, first).value, field, name, second) == SetText(src, field, name, second)
  {
    hide LegalDocument, SetDocument, Encode, PrintDocument, ParseDocument, Legal;
    SetTextParses(src, field, name, first);
    DecodeEncode(first);
    LegalText(first);
    SetAgain(DocumentOf(src), field, name, Text(Encode(first)), Text(Encode(second)));
  }

  lemma LegalText(value: string)
    ensures Legal(Text(Encode(value)))
  {
    hide Encode;
    DecodeEncode(value);
  }

  // ---------------------------------------------------------------- the final newline

  /** The text with a final newline, of the kind it already uses, unless it has one. */
  function EnsureTrailingNewline(src: string): string {
    if src != "" && src[|src| - 1] == '\n' then src else src + DetectLineEnding(src)
  }

  /** A final newline changes nothing a reader of the document sees, and is added once. */
  lemma TrailingNewlineKeepsDocument(src: string)
    requires IsPackageJson(src)
    ensures var out, d := EnsureTrailingNewline(src), DocumentOf(src);
            && out[|out| - 1] == '\n' && EnsureTrailingNewline(out) == out
            && IsPackageJson(out)
            && DocumentOf(out) == d.(post := d.post + out[|src|..])
  {
    hide LegalDocument, PrintDocument, ParseDocument, DetectLineEnding;
    var d, nl := DocumentOf(src), DetectLineEnding(src);
    assert nl[|nl| - 1] == '\n' by { NewlineEnds(src); }
    var added := if EnsureTrailingNewline(src) == src then "" else nl;
    assert src + nl != src;
    BlankPost(d, added);
    DocumentOfPrint(d.(post := d.post + added));
    assert src + "" == src;
  }

  lemma BlankPost(d: Document, more: string)
    requires LegalDocument(d) && AllBlank(more)
    ensures LegalDocument(d.(post := d.post + more))
    ensures PrintDocument(d.(post := d.post + more)) == PrintDocument(d) + more
  {
    hide PrintTo, Legal;
    PrintToAppend(d.value, d.post, more);
  }
}
