/** What the edits of package.json make of its lines: the line endings the text uses are the
    ones it goes on using, and what is added is indented as its neighbours are. */
module PackageJsonLines {
  import opened Wrappers
  import opened JsonText
  import opened JsonTree
  import opened JsonSpans
  import opened JsonEdits
  import opened JsonObjects
  import opened PackageJson
  import opened PackageJsonLaws
  import opened PackageJsonUndo

  // ---------------------------------------------------------------- line endings

  /** Every line break is that of a Windows text. */
  predicate IsCRLF(s: string) {
    forall i :: 0 <= i < |s| && s[i] == '\n' ==> i > 0 && s[i - 1] == '\r'
  }

  /** A text without carriage returns stays without, and one whose line breaks are all of the
      Windows kind, if it has any, gets no other. */
  predicate KeepsLineEndings(src: string, out: string) {
    ('\r' !in src ==> '\r' !in out) && ('\n' in src && IsCRLF(src) ==> IsCRLF(out))
  }

  lemma JoinedCRLF(a: string, b: string)
    requires IsCRLF(a) && IsCRLF(b)
    ensures IsCRLF(a + b)
  {
    var s := a + b;
    forall i | 0 <= i < |s| && s[i] == '\n' ensures i > 0 && s[i - 1] == '\r' {
      if i >= |a| { assert b[i - |a|] == '\n'; }
    }
  }

  lemma SpliceLines(src: string, start: nat, end: nat, text: string)
    requires start <= end <= |src|
    ensures '\r' !in src && '\r' !in text ==> '\r' !in Splice(src, start, end, text)
    ensures IsCRLF(src) && IsCRLF(text) && (end == |src| || src[end] != '\n') ==> IsCRLF(Splice(src, start, end, text))
  {
    var tail := src[end..];
    assert forall i :: 0 <= i < start ==> src[..start][i] == src[i];
    assert forall i :: 0 <= i < |tail| ==> tail[i] == src[end + i];
    if IsCRLF(src) && IsCRLF(text) && (end == |src| || src[end] != '\n') {
      assert IsCRLF(tail);
      JoinedCRLF(src[..start], text);
      JoinedCRLF(src[..start] + text, tail);
    }
  }

  /** The object stands between its braces, its keys begin with a quote and its values end in no
      blank. */
  predicate IsSolid(obj: Spans, src: string)
    requires Fits(obj, src)
  {
    && src[obj.open] == '{' && src[obj.close - 1] == '}'
    && forall i :: 0 <= i < |obj.members| ==> IsSolidMember(obj.members[i], src)
  }

  predicate IsSolidMember(m: Span, src: string) {
    FitsSpan(m, src) && src[m.keyStart] == '\"' && !IsBlank(src[m.valEnd - 1])
  }

  lemma PrintEnds(v: Value)
    requires Legal(v)
    ensures Print(v) != "" && !IsBlank(Print(v)[|Print(v)| - 1])
    ensures v.Object? ==> Print(v)[0] == '{' && Print(v)[|Print(v)| - 1] == '}'
  {
    match v {
      case Text(body) => assert Print(v) == ("\"" + body) + "\"";
      case Atom(text) => assert IsAtomChar(text[|text| - 1]);
      case Object(ms, blank) =>
        if ms != [] { PrintMembersAppend(ms, "", "}"); }
        assert "" + "}" == "}" && "}" + "" == "}";
        assert Print(v) == ("{" + if ms == [] then blank else PrintMembersTo(ms, "")) + "}";
      case Array(items, blank) =>
        if items != [] { PrintItemsAppend(items, "", "]"); }
        assert "" + "]" == "]" && "]" + "" == "]";
        assert Print(v) == ("[" + if items == [] then blank else PrintItemsTo(items, "")) + "]";
    }
  }

  lemma LastOf(x: string, y: string, z: string)
    requires y != ""
    ensures (x + y + z)[|x + y| - 1] == y[|y| - 1]
  {
  }

  lemma ObjectIsSolid(a: string, v: Value, c: string)
    requires v.Object? && Legal(v)
    ensures Fits(SpansOf(v, |a|), a + PrintTo(v, c)) && IsSolid(SpansOf(v, |a|), a + PrintTo(v, c))
  {
    hide Print, PrintTo, FromKey, Fits, FitsSpan, UpToKey, UpToValue, Tail, Legal, IsBlank;
    var src, obj, ms := a + PrintTo(v, c), SpansOf(v, |a|), v.members;
    SpansFit(a, v, c);
    OpensWithin(obj, src);
    PrintThen(v, c);
    PrintEnds(v);
    LastOf(a, Print(v), c);
    assert src == a + Print(v) + c;
    forall i | 0 <= i < |ms| ensures IsSolidMember(obj.members[i], src) {
      FitsMember(obj, src, i);
      PrintOfObject(v, c);
      At(a, ms, i, c);
      PlacesAreSpans(a, ms, i);
      MemberIsLegal(v, i);
      PrintEnds(ms[i].value);
      QuoteOpens(ms[i], Tail(ms, i, c));
      SpanFits(obj.members[i], src);
      LastOf(UpToValue(a, ms, i), Print(ms[i].value), ms[i].post + Tail(ms, i, c));
    }
  }

  lemma SpanFits(m: Span, src: string)
    requires FitsSpan(m, src)
    ensures m.keyStart <= m.valStart < m.valEnd <= |src|
  {
  }

  lemma QuoteOpens(m: Member, after: string)
    ensures FromKey(m, after) != "" && FromKey(m, after)[0] == '\"'
  {
  }

  lemma MemberIsLegal(v: Value, i: nat)
    requires v.Object? && Legal(v) && i < |v.members|
    ensures Legal(v.members[i].value)
  {
    hide Legal, LegalMember;
    MembersAreLegal(v);
    LegalMemberOf(v.members, i);
    LegalParts(v.members[i]);
  }

  /** After a value of a Windows text no line breaks without a carriage return. */
  lemma AfterValue(obj: Spans, src: string, i: nat)
    requires Fits(obj, src) && IsSolid(obj, src) && i < |obj.members|
    ensures IsSolidMember(obj.members[i], src)
    ensures IsCRLF(src) ==> obj.members[i].valEnd == |src| || src[obj.members[i].valEnd] != '\n'
  {
    assert IsSolidMember(obj.members[i], src);
  }

  lemma DeleteKeepsLines(src: string, obj: Spans, i: nat)
    requires Fits(obj, src) && IsSolid(obj, src) && i < |obj.members|
    ensures '\r' !in src ==> '\r' !in DeleteMember(src, obj, i)
    ensures IsCRLF(src) ==> IsCRLF(DeleteMember(src, obj, i))
  {
    hide Splice, IsSolid, IsBlank;
    var victim := obj.members[i];
    AfterValue(obj, src, i);
    if i + 1 < |obj.members| {
      AfterValue(obj, src, i + 1);
      SpliceLines(src, victim.keyStart, obj.members[i + 1].keyStart, "");
    } else if i > 0 {
      AfterValue(obj, src, i - 1);
      SpliceLines(src, obj.members[i - 1].valEnd, victim.valEnd, "");
    } else {
      ClosesInBrace(obj, src);
      SpliceLines(src, obj.open + 1, obj.close - 1, "");
    }
  }

  lemma ClosesInBrace(obj: Spans, src: string)
    requires Fits(obj, src) && IsSolid(obj, src)
    ensures obj.open + 1 < obj.close <= |src| && src[obj.open] == '{' && src[obj.close - 1] == '}'
  {
  }

  // ---------------------------------------------------------------- what is inserted

  /** A piece of text that may go anywhere without spoiling a text's line endings. */
  predicate SuitsLines(piece: string, src: string) {
    ('\r' !in src ==> '\r' !in piece) && ('\n' in src && IsCRLF(src) ==> IsCRLF(piece))
  }

  lemma JoinedSuits(a: string, b: string, src: string)
    requires SuitsLines(a, src) && SuitsLines(b, src)
    ensures SuitsLines(a + b, src)
  {
    if '\n' in src && IsCRLF(src) { JoinedCRLF(a, b); }
  }

  lemma NoBreaksSuit(piece: string, src: string)
    requires '\r' !in piece && '\n' !in piece
    ensures SuitsLines(piece, src)
  {
  }

  lemma {:induction false} EncodedOnOneLine(s: string)
    ensures '\r' !in Encode(s) && '\n' !in Encode(s)
  {
    if s != "" { EncodedOnOneLine(s[1..]); }
  }

  lemma QuotedOnOneLine(s: string)
    ensures '\r' !in Quoted(s) && '\n' !in Quoted(s)
  {
    hide Encode;
    EncodedOnOneLine(s);
  }

  lemma {:induction false} FirstNewlineIs(src: string)
    ensures FirstNewline(src) < |src| <==> '\n' in src
    ensures FirstNewline(src) < |src| ==> src[FirstNewline(src)] == '\n'
  {
    if src != "" && src[0] != '\n' {
      FirstNewlineIs(src[1..]);
      assert src == [src[0]] + src[1..];
    }
  }

  /** The line ending inserted is the one a uniform text uses. */
  lemma LineEndingIs(src: string)
    ensures '\r' !in src ==> DetectLineEnding(src) == "\n"
    ensures IsCRLF(src) && '\n' in src ==> DetectLineEnding(src) == "\r\n"
    ensures SuitsLines(DetectLineEnding(src), src)
  {
    FirstNewlineIs(src);
    var i := FirstNewline(src);
    assert 0 < i < |src| ==> src[i - 1] in src;
    assert '\r' !in "\n" && "\r\n"[0] == '\r' && "\r\n"[1] == '\n';
  }

  lemma SpacesSuit(src: string, start: nat, piece: string)
    requires start + |piece| <= |src| && piece == src[start..start + |piece|]
    requires forall k :: 0 <= k < |piece| ==> IsSpace(piece[k])
    ensures SuitsLines(piece, src)
  {
    assert forall k :: 0 <= k < |piece| ==> piece[k] == src[start + k] && src[start + k] in src;
  }

  lemma IndentsSuit(src: string, pos: nat)
    requires pos <= |src|
    ensures SuitsLines(LineLeadingSpace(src, pos), src)
    ensures LineIndentOf(src, pos).Some? ==> SuitsLines(LineIndentOf(src, pos).value, src)
  {
    var start := LineStart(src, pos);
    var line := src[start..pos];
    RunIsSpaces(line);
    assert line[..SpaceRun(line)] == src[start..start + SpaceRun(line)];
    SpacesSuit(src, start, line[..SpaceRun(line)]);
  }

  lemma UnitSuits(src: string, top: Spans)
    requires Fits(top, src)
    ensures SuitsLines(DetectIndentUnit(src, top), src)
  {
    hide LineIndentOf, SuitsLines, FitsSpan;
    NoBreaksSuit("  ", src);
    if top.members != [] {
      FitsMember(top, src, 0);
      SpanFits(top.members[0], src);
      IndentsSuit(src, top.members[0].keyStart);
    }
  }

  lemma MemberIndentSuits(src: string, obj: Spans, unit: string)
    requires Fits(obj, src) && AllBlank(unit) && SuitsLines(unit, src)
    ensures SuitsLines(MemberIndent(src, obj, unit).0, src)
  {
    hide LineIndentOf, LineLeadingSpace, SuitsLines, FitsSpan;
    NoBreaksSuit("", src);
    if obj.members != [] {
      FitsMember(obj, src, |obj.members| - 1);
      SpanFits(obj.members[|obj.members| - 1], src);
      IndentsSuit(src, obj.members[|obj.members| - 1].keyStart);
    } else {
      OpensWithin(obj, src);
      IndentsSuit(src, obj.open);
      JoinedSuits(LineLeadingSpace(src, obj.open), unit, src);
    }
  }

  lemma SpliceKeeps(src: string, start: nat, end: nat, text: string)
    requires start <= end <= |src| && SuitsLines(text, src)
    requires IsCRLF(src) ==> end == |src| || src[end] != '\n'
    ensures KeepsLineEndings(src, Splice(src, start, end, text))
  {
    hide Splice;
    SpliceLines(src, start, end, text);
  }

  lemma InsertKeepsLines(src: string, obj: Spans, entry: string, unit: string, nl: string)
    requires Fits(obj, src) && IsSolid(obj, src) && AllBlank(unit)
    requires SuitsLines(entry, src) && SuitsLines(unit, src) && SuitsLines(nl, src)
    ensures KeepsLineEndings(src, InsertMember(src, obj, entry, unit, nl))
  {
    hide Splice, IsSolid, SuitsLines, KeepsLineEndings, LineLeadingSpace, MemberIndent, IsCRLF, FitsSpan;
    var (indent, inline) := MemberIndent(src, obj, unit);
    MemberIndentSuits(src, obj, unit);
    NoBreaksSuit(",", src);
    NoBreaksSuit(", ", src);
    JoinedSuits(nl, indent, src);
    JoinedSuits(nl + indent, entry, src);
    if obj.members != [] {
      var n := |obj.members| - 1;
      AfterValue(obj, src, n);
      FitsMember(obj, src, n);
      SpanFits(obj.members[n], src);
      JoinedSuits(", ", entry, src);
      JoinedSuits(",", nl + indent + entry, src);
      assert "," + (nl + indent + entry) == "," + nl + indent + entry;
      SpliceKeeps(src, obj.members[n].valEnd, obj.members[n].valEnd,
                  if inline then ", " + entry else "," + nl + indent + entry);
    } else {
      ClosesInBrace(obj, src);
      IndentsSuit(src, obj.open);
      JoinedSuits(nl + indent + entry, nl, src);
      JoinedSuits(nl + indent + entry + nl, LineLeadingSpace(src, obj.open), src);
      SpliceKeeps(src, obj.open + 1, obj.close - 1, nl + indent + entry + nl + LineLeadingSpace(src, obj.open));
    }
  }

  lemma BlockSuits(src: string, entry: string, indent: string, unit: string, nl: string)
    requires SuitsLines(entry, src) && SuitsLines(indent, src) && SuitsLines(unit, src) && SuitsLines(nl, src)
    ensures SuitsLines(BlockString(entry, indent, unit, nl), src) && SuitsLines("{" + entry + "}", src)
  {
    hide SuitsLines;
    NoBreaksSuit("{", src);
    NoBreaksSuit("}", src);
    JoinedSuits("{", entry, src);
    JoinedSuits("{" + entry, "}", src);
    JoinedSuits("{", nl, src);
    JoinedSuits("{" + nl, indent, src);
    JoinedSuits("{" + nl + indent, unit, src);
    JoinedSuits("{" + nl + indent + unit, entry, src);
    JoinedSuits("{" + nl + indent + unit + entry, nl, src);
    JoinedSuits("{" + nl + indent + unit + entry + nl, indent, src);
    JoinedSuits("{" + nl + indent + unit + entry + nl + indent, "}", src);
  }

  // ---------------------------------------------------------------- the editor

  lemma DocumentIsSolid(d: Document)
    requires LegalDocument(d) && d.value.Object?
    ensures var top := SpansOf(d.value, |d.pre|); Fits(top, PrintDocument(d)) && IsSolid(top, PrintDocument(d))
  {
    hide PrintTo, Fits, IsSolid, Legal;
    ObjectIsSolid(d.pre, d.value, d.post);
  }

  lemma FieldIsSolid(d: Document, field: string)
    requires LegalDocument(d) && d.value.Object? && HoldsObject(d, field)
    ensures var obj := FieldSpans(d, field).value; Fits(obj, PrintDocument(d)) && IsSolid(obj, PrintDocument(d))
  {
    hide PrintTo, Fits, IsSolid, Legal, SpanAt, BeforeField, AfterField, PrintDocument, LastIndex;
    var i := FieldIndex(d, field);
    FieldLegal(d, i);
    FieldPlace(d, i, d.value.members[i].value);
    ObjectIsSolid(BeforeField(d, i), d.value.members[i].value, AfterField(d, i));
  }

  /** Dropping copies of an entry keeps the line endings there are. */
  lemma {:induction false} TrimKeepsLines(src: string, field: string, name: string, keep: nat)
    requires IsPackageJson(src)
    ensures var out := PrintDocument(TrimDocument(DocumentOf(src), field, name, keep));
            ('\r' !in src ==> '\r' !in out) && (IsCRLF(src) ==> IsCRLF(out))
    decreases Copies(src, field, name)
  {
    hide PrintDocument, TrimDocument, FieldSpans, Fits, IsSolid, DeleteMember, Count, FirstIndex, LegalDocument,
         IsPackageJson, IsCRLF, DocumentOf, Names;
    if Copies(src, field, name) <= keep {
      TrimDone(src, field, name, keep);
    } else {
      var d := DocumentOf(src);
      var i := FirstIndex(Deps(d, field), name);
      DeletedCopy(src, field, name, keep, i);
      NamesOfField(d, field);
      FieldIsSolid(d, field);
      DeleteKeepsLines(src, FieldSpans(d, field).value, i);
      TrimKeepsLines(DeleteMember(src, FieldSpans(d, field).value, i), field, name, keep);
    }
  }

  lemma {:induction false} TrimLeaves(ms: seq<Member>, name: string, keep: nat)
    requires Count(ms, name) >= keep
    ensures Count(Trim(ms, name, keep), name) == keep
    decreases Count(ms, name)
  {
    hide DeleteAt, FirstIndex;
    if Count(ms, name) > keep {
      var i := FirstIndex(ms, name);
      CountIsZero(ms, name);
      CountDeleted(ms, i, name);
      TrimLeaves(DeleteAt(ms, i), name, keep);
    }
  }

  /** Only a text with copies to drop is changed before the entry is set, and then it has one. */
  lemma TrimmedOrSame(d: Document, field: string, name: string)
    requires d.value.Object?
    ensures var t := TrimDocument(d, field, name, 1);
            t == d || (t.value.Object? && HoldsObject(t, field) && LastIndex(Deps(t, field), name) >= 0)
  {
    hide Count, LastIndex, Trim;
    if HoldsObject(d, field) && Count(Deps(d, field), name) > 1 {
      var i := FieldIndex(d, field);
      FieldStays(d, i, TrimValue(d.value.members[i].value, name, 1), field);
      TrimLeaves(Deps(d, field), name, 1);
      CountIsZero(Trim(Deps(d, field), name, 1), name);
    }
  }

  lemma EntrySuits(src: string, name: string, value: string)
    ensures SuitsLines(Quoted(value), src) && SuitsLines(Quoted(name) + ": " + Quoted(value), src)
  {
    hide Encode, SuitsLines, Quoted;
    QuotedOnOneLine(name);
    QuotedOnOneLine(value);
    NoBreaksSuit(Quoted(name), src);
    NoBreaksSuit(Quoted(value), src);
    NoBreaksSuit(": ", src);
    JoinedSuits(Quoted(name), ": ", src);
    JoinedSuits(Quoted(name) + ": ", Quoted(value), src);
  }

  lemma AddedFieldKeepsLines(t: Document, field: string, name: string, value: string)
    requires LegalDocument(t) && t.value.Object? && FieldIndex(t, field) < 0
    ensures KeepsLineEndings(PrintDocument(t), PrintDocument(PutEntry(t, field, name, Text(Encode(value)))))
  {
    hide LegalDocument, PrintDocument, PutEntry, Fits, IsSolid, SuitsLines, KeepsLineEndings, InsertMember, Encode,
         DetectIndentUnit, DetectLineEnding, MemberIndent, Print, KeyText, LastIndex, Quoted, BlockString, SpansOf;
    var src, top, v := PrintDocument(t), SpansOf(t.value, |t.pre|), Text(Encode(value));
    var entry := Quoted(name) + ": " + Quoted(value);
    QuotedText(value);
    EntryText(name, v, Quoted(value));
    DocumentIsSolid(t);
    FieldAdded(t, field, name, v, entry);
    var unit, nl := DetectIndentUnit(src, top), DetectLineEnding(src);
    var (indent, inline) := MemberIndent(src, top, unit);
    EntrySuits(src, name, value);
    EntrySuits(src, name, field);
    UnitSuits(src, top);
    LineEndingIs(src);
    MemberIndentSuits(src, top, unit);
    BlockSuits(src, entry, indent, unit, nl);
    var body := if inline then "{" + entry + "}" else BlockString(entry, indent, unit, nl);
    NoBreaksSuit(": ", src);
    JoinedSuits(Quoted(field), ": ", src);
    JoinedSuits(Quoted(field) + ": ", body, src);
    InsertKeepsLines(src, top, Quoted(field) + ": " + body, unit, nl);
  }

  lemma ReplacedFieldKeepsLines(t: Document, field: string, name: string, value: string)
    requires LegalDocument(t) && t.value.Object? && FieldIndex(t, field) >= 0 && !HoldsObject(t, field)
    ensures KeepsLineEndings(PrintDocument(t), PrintDocument(PutEntry(t, field, name, Text(Encode(value)))))
  {
    hide LegalDocument, PrintDocument, PutEntry, Fits, FitsSpan, IsSolid, SuitsLines, KeepsLineEndings, Encode,
         DetectIndentUnit, DetectLineEnding, Print, KeyText, LastIndex, Quoted, BlockString, Splice, LineLeadingSpace,
         IsCRLF;
    var src, top, v := PrintDocument(t), SpansOf(t.value, |t.pre|), Text(Encode(value));
    var entry := Quoted(name) + ": " + Quoted(value);
    var i := FieldIndex(t, field);
    QuotedText(value);
    EntryText(name, v, Quoted(value));
    DocumentIsSolid(t);
    FieldReplaced(t, field, name, v, entry, i);
    EntrySuits(src, name, value);
    UnitSuits(src, top);
    LineEndingIs(src);
    SpanFits(top.members[i], src);
    IndentsSuit(src, top.members[i].keyStart);
    AfterValue(top, src, i);
    var indent := LineLeadingSpace(src, top.members[i].keyStart);
    BlockSuits(src, entry, indent, DetectIndentUnit(src, top), DetectLineEnding(src));
    SpliceKeeps(src, top.members[i].valStart, top.members[i].valEnd,
                BlockString(entry, indent, DetectIndentUnit(src, top), DetectLineEnding(src)));
  }

  lemma ReplacedEntryKeepsLines(t: Document, field: string, name: string, value: string)
    requires LegalDocument(t) && t.value.Object? && HoldsObject(t, field) && LastIndex(Deps(t, field), name) >= 0
    ensures var src, out := PrintDocument(t), PrintDocument(PutEntry(t, field, name, Text(Encode(value))));
            ('\r' !in src ==> '\r' !in out) && (IsCRLF(src) ==> IsCRLF(out))
  {
    hide LegalDocument, PrintDocument, PutEntry, Fits, FitsSpan, IsSolid, Encode, Print, LastIndex, Quoted, Splice,
         FieldSpans;
    var src, v := PrintDocument(t), Text(Encode(value));
    var j := LastIndex(Deps(t, field), name);
    QuotedText(value);
    NamesOfField(t, field);
    FieldIsSolid(t, field);
    EntryReplaced(t, field, name, v, j);
    var deps := FieldSpans(t, field).value;
    QuotedOnOneLine(value);
    SpanFits(deps.members[j], src);
    AfterValue(deps, src, j);
    SpliceLines(src, deps.members[j].valStart, deps.members[j].valEnd, Quoted(value));
  }

  lemma AddedEntryKeepsLines(t: Document, field: string, name: string, value: string)
    requires LegalDocument(t) && t.value.Object? && HoldsObject(t, field) && LastIndex(Deps(t, field), name) < 0
    ensures KeepsLineEndings(PrintDocument(t), PrintDocument(PutEntry(t, field, name, Text(Encode(value)))))
  {
    hide LegalDocument, PrintDocument, PutEntry, Fits, IsSolid, SuitsLines, KeepsLineEndings, InsertMember, Encode,
         DetectIndentUnit, DetectLineEnding, Print, KeyText, LastIndex, Quoted, FieldSpans, SpansOf;
    var src, top, v := PrintDocument(t), SpansOf(t.value, |t.pre|), Text(Encode(value));
    var entry := Quoted(name) + ": " + Quoted(value);
    QuotedText(value);
    EntryText(name, v, Quoted(value));
    NamesOfField(t, field);
    FieldIsSolid(t, field);
    EntryAdded(t, field, name, v, entry);
    EntrySuits(src, name, value);
    UnitSuits(src, top);
    LineEndingIs(src);
    InsertKeepsLines(src, FieldSpans(t, field).value, entry, DetectIndentUnit(src, top), DetectLineEnding(src));
  }

  /** Setting an entry goes on with the line endings the text uses: one without carriage returns
      gets none, and one whose line breaks are all of the Windows kind, if it has any, no other. */
  lemma SetKeepsLineEndings(src: string, field: string, name: string, value: string)
    requires IsPackageJson(src)
    ensures SetText(src, field, name, value).Ok?
    ensures KeepsLineEndings(src, SetText(src, field, name, value).value)
  {
    hide IsPackageJson, LegalDocument, PrintDocument, PutEntry, IsCRLF, Encode, LastIndex, TrimDocument, DocumentOf;
    var d := DocumentOf(src);
    assert LegalDocument(d) && d.value.Object? && src == PrintDocument(d);
    var t := TrimDocument(d, field, name, 1);
    TrimDocumentIsLegal(d, field, name, 1);
    TrimmedOrSame(d, field, name);
    TrimKeepsLines(src, field, name, 1);
    if FieldIndex(t, field) < 0 {
      AddedFieldKeepsLines(t, field, name, value);
    } else if !HoldsObject(t, field) {
      ReplacedFieldKeepsLines(t, field, name, value);
    } else if LastIndex(Deps(t, field), name) >= 0 {
      ReplacedEntryKeepsLines(t, field, name, value);
    } else {
      AddedEntryKeepsLines(t, field, name, value);
    }
  }

  /** So do removing an entry and ending the text in a newline. */
  lemma OtherEditsKeepLineEndings(src: string, field: string, name: string)
    requires IsPackageJson(src)
    ensures RemoveText(src, field, name).Ok? && KeepsLineEndings(src, RemoveText(src, field, name).value)
    ensures KeepsLineEndings(src, EnsureTrailingNewline(src))
  {
    hide IsPackageJson, PrintDocument, TrimDocument, DetectLineEnding, IsCRLF, DocumentOf;
    TrimKeepsLines(src, field, name, 0);
    LineEndingIs(src);
    SplitCRLF(src, DetectLineEnding(src));
  }

  lemma SplitCRLF(a: string, b: string)
    ensures IsCRLF(a) && IsCRLF(b) ==> IsCRLF(a + b)
  {
    if IsCRLF(a) && IsCRLF(b) { JoinedCRLF(a, b); }
  }

  // ---------------------------------------------------------------- indentation

  /** A piece of a text begins a line, behind the given indentation. */
  predicate BeginsLine(out: string, indent: string, piece: string) {
    exists pos :: 0 <= pos <= |out| - |piece| && out[pos..pos + |piece|] == piece
                  && LineIndentOf(out, pos) == Some(indent)
  }

  predicate AllSpaces(s: string) {
    forall k :: 0 <= k < |s| ==> IsSpace(s[k])
  }

  lemma BeginsAfter(out: string, head: string, indent: string, piece: string, tail: string)
    requires out == head + indent + piece + tail && head != "" && head[|head| - 1] == '\n' && AllSpaces(indent)
    ensures BeginsLine(out, indent, piece)
  {
    hide LineIndentOf;
    var pos := |head + indent|;
    assert out[..pos] == head + indent && out[pos..pos + |piece|] == piece;
    IndentedLine(out, pos, head, indent);
  }

  lemma LeadIsSpaces(src: string, pos: nat)
    requires pos <= |src|
    ensures AllSpaces(LineLeadingSpace(src, pos))
    ensures LineIndentOf(src, pos).Some? ==> AllSpaces(LineIndentOf(src, pos).value)
  {
    RunIsSpaces(src[LineStart(src, pos)..pos]);
  }

  /** A position's indentation is what stands before it on its line, when that is nothing but
      spaces, tabs and carriage returns. */
  lemma IndentIs(src: string, start: nat, pos: nat)
    requires start <= pos <= |src| && (start == 0 || src[start - 1] == '\n')
    requires forall k :: start <= k < pos ==> src[k] != '\n'
    ensures LineIndentOf(src, pos) == if forall k :: start <= k < pos ==> src[k] in " \t\r"
              then Some(src[start..pos]) else None
  {
    hide SpaceRun;
    if start > 0 { LineStartsAfterNewline(src, start, pos); } else { LineStartsAtOnce(src, pos); }
    var line := src[start..pos];
    if forall k :: start <= k < pos ==> src[k] in " \t\r" {
      forall i | 0 <= i < |line| ensures IsSpace(line[i]) { assert line[i] == src[start + i]; }
      AllSpacesRun(line);
    } else {
      var k :| start <= k < pos && src[k] !in " \t\r";
      RunIsSpaces(line);
      assert line[k - start] == src[k];
    }
  }

  lemma {:induction false} LineStartsAtOnce(src: string, pos: nat)
    requires pos <= |src| && forall k :: 0 <= k < pos ==> src[k] != '\n'
    ensures LineStart(src, pos) == 0
    decreases pos
  {
    if pos > 0 { LineStartsAtOnce(src, pos - 1); }
  }

  /** One level of indentation: that of the first member, or two spaces where it shows none. */
  ghost predicate IsOneLevel(src: string, top: Spans, unit: string)
    requires Fits(top, src)
  {
    if top.members == [] then unit == "  "
    else
      assert FitsSpan(top.members[0], src);
      match LineIndentOf(src, top.members[0].keyStart)
      case Some(indent) => unit == if indent == "" then "  " else indent
      case None => unit == "  "
  }

  lemma UnitIsOneLevel(src: string, top: Spans)
    requires Fits(top, src)
    ensures IsOneLevel(src, top, DetectIndentUnit(src, top)) && AllSpaces(DetectIndentUnit(src, top))
  {
    if top.members != [] {
      FitsMember(top, src, 0);
      LeadIsSpaces(src, top.members[0].keyStart);
    }
  }

  /** An object's text with one entry in it: the entry one level deeper than the brace. */
  lemma BlockLayout(head: string, entry: string, indent: string, unit: string, nl: string, tail: string)
    requires nl != "" && nl[|nl| - 1] == '\n' && AllSpaces(indent) && AllSpaces(unit)
    ensures var out := head + BlockString(entry, indent, unit, nl) + tail;
            BeginsLine(out, indent + unit, entry) && BeginsLine(out, indent, "}")
  {
    hide BeginsLine;
    var out := head + BlockString(entry, indent, unit, nl) + tail;
    assert out == (head + "{" + nl) + (indent + unit) + entry + (nl + indent + "}" + tail);
    BeginsAfter(out, head + "{" + nl, indent + unit, entry, nl + indent + "}" + tail);
    assert out == (head + "{" + nl + indent + unit + entry + nl) + indent + "}" + tail;
    BeginsAfter(out, head + "{" + nl + indent + unit + entry + nl, indent, "}", tail);
  }

  /** A field added to an object written over several lines begins a line indented as the last
      member is, and holds its entry one level deeper, the closing brace under its key. */
  lemma AddedFieldLayout(src: string, field: string, name: string, value: string, indent: string)
    requires IsPackageJson(src) && FieldIndex(DocumentOf(src), field) < 0
    requires var d := DocumentOf(src); var top := SpansOf(d.value, |d.pre|);
             && Fits(top, src) && top.members != []
             && LineIndentOf(src, SpansKey(top, src, |top.members| - 1)) == Some(indent)
    ensures var d := DocumentOf(src); var out := SetText(src, field, name, value);
            && out.Ok?
            && BeginsLine(out.value, indent, Quoted(field) + ": {")
            && BeginsLine(out.value, indent, "}")
            && exists unit :: IsOneLevel(src, SpansOf(d.value, |d.pre|), unit)
                              && BeginsLine(out.value, indent + unit, Quoted(name) + ": " + Quoted(value))
  {
    hide LegalDocument, PrintDocument, PutEntry, Fits, FitsSpan, Encode, DetectIndentUnit, DetectLineEnding, Print,
         KeyText, LastIndex, Quoted, SpansOf, BeginsLine, IsOneLevel, LineIndentOf, IsPackageJson, DocumentOf,
         InsertMember, MemberIndent, AllSpaces, AllBlank, Count, BlockString;
    var d, v := DocumentOf(src), Text(Encode(value));
    assert LegalDocument(d) && d.value.Object? && src == PrintDocument(d);
    assert TrimDocument(d, field, name, 1) == d;
    var top, entry := SpansOf(d.value, |d.pre|), Quoted(name) + ": " + Quoted(value);
    var unit, nl := DetectIndentUnit(src, top), DetectLineEnding(src);
    QuotedText(value);
    EntryText(name, v, Quoted(value));
    FieldAdded(d, field, name, v, entry);
    UnitIsOneLevel(src, top);
    NewlineEnds(src);
    var n := |top.members| - 1;
    FitsMember(top, src, n);
    SpanFits(top.members[n], src);
    LeadIsSpaces(src, top.members[n].keyStart);
    AddedText(src, top, indent, Quoted(field) + ": " + BlockString(entry, indent, unit, nl), unit, nl);
    FieldLayout(src[..top.members[n].valEnd] + "," + nl, Quoted(field), entry, indent, unit, nl,
                src[top.members[n].valEnd..]);
  }

  lemma FieldLayout(head: string, key: string, entry: string, indent: string, unit: string, nl: string, tail: string)
    requires nl != "" && nl[|nl| - 1] == '\n' && AllSpaces(indent) && AllSpaces(unit)
    requires head != "" && head[|head| - 1] == '\n'
    ensures var out := head + indent + (key + ": " + BlockString(entry, indent, unit, nl)) + tail;
            && BeginsLine(out, indent, key + ": {") && BeginsLine(out, indent, "}")
            && BeginsLine(out, indent + unit, entry)
  {
    hide BeginsLine, AllSpaces;
    var block := BlockString(entry, indent, unit, nl);
    var out := head + indent + (key + ": " + block) + tail;
    BlockLayout(head + indent + key + ": ", entry, indent, unit, nl, tail);
    assert out == (head + indent + key + ": ") + block + tail;
    var rest := nl + indent + unit + entry + nl + indent + "}";
    assert block == "{" + rest;
    hide BlockString;
    assert out == head + indent + (key + ": {") + (rest + tail);
    BeginsAfter(out, head, indent, key + ": {", rest + tail);
  }

  function SpansKey(obj: Spans, src: string, i: nat): (pos: nat)
    requires Fits(obj, src) && i < |obj.members|
    ensures pos <= |src|
  {
    assert FitsSpan(obj.members[i], src);
    obj.members[i].keyStart
  }

  lemma AddedText(src: string, obj: Spans, indent: string, entry: string, unit: string, nl: string)
    requires Fits(obj, src) && obj.members != [] && AllBlank(unit)
    requires LineIndentOf(src, SpansKey(obj, src, |obj.members| - 1)) == Some(indent)
    ensures var end := obj.members[|obj.members| - 1].valEnd;
            end <= |src| && MemberIndent(src, obj, unit) == (indent, false)
            && InsertMember(src, obj, entry, unit, nl) == src[..end] + "," + nl + indent + entry + src[end..]
  {
    var end := obj.members[|obj.members| - 1].valEnd;
    FitsMember(obj, src, |obj.members| - 1);
    assert src[..end] + ("," + nl + indent + entry) + src[end..] == src[..end] + "," + nl + indent + entry + src[end..];
  }

  /** An entry set in a field that held an empty object stands one level deeper than the line
      the object begins on, and the closing brace goes under that line's beginning. */
  lemma FirstEntryLayout(src: string, field: string, name: string, value: string)
    requires IsPackageJson(src) && HoldsObject(DocumentOf(src), field) && Deps(DocumentOf(src), field) == []
    ensures var d := DocumentOf(src); var out := SetText(src, field, name, value);
            && out.Ok? && FieldSpans(d, field).Some? && FieldSpans(d, field).value.open <= |src|
            && var lead := LineLeadingSpace(src, FieldSpans(d, field).value.open);
            && BeginsLine(out.value, lead, "}")
            && Fits(SpansOf(d.value, |d.pre|), src)
            && exists unit :: IsOneLevel(src, SpansOf(d.value, |d.pre|), unit)
                              && BeginsLine(out.value, lead + unit, Quoted(name) + ": " + Quoted(value))
  {
    hide LegalDocument, PrintDocument, PutEntry, Fits, FitsSpan, Encode, DetectIndentUnit, DetectLineEnding, Print,
         KeyText, Quoted, SpansOf, BeginsLine, IsOneLevel, LineLeadingSpace, IsPackageJson, DocumentOf, IsSolid;
    var d, v := DocumentOf(src), Text(Encode(value));
    assert LegalDocument(d) && d.value.Object? && src == PrintDocument(d);
    assert TrimDocument(d, field, name, 1) == d;
    var top, entry := SpansOf(d.value, |d.pre|), Quoted(name) + ": " + Quoted(value);
    DocumentIsSolid(d);
    var unit, nl := DetectIndentUnit(src, top), DetectLineEnding(src);
    QuotedText(value);
    EntryText(name, v, Quoted(value));
    NamesOfField(d, field);
    FieldIsSolid(d, field);
    EntryAdded(d, field, name, v, entry);
    UnitIsOneLevel(src, top);
    NewlineEnds(src);
    var obj := FieldSpans(d, field).value;
    OpensWithin(obj, src);
    ClosesInBrace(obj, src);
    LeadIsSpaces(src, obj.open);
    FirstText(src, obj, entry, unit, nl);
    BlockLayout(src[..obj.open], entry, LineLeadingSpace(src, obj.open), unit, nl, src[obj.close..]);
  }

  lemma FirstText(src: string, obj: Spans, entry: string, unit: string, nl: string)
    requires Fits(obj, src) && obj.members == [] && AllBlank(unit)
    requires src[obj.open] == '{' && src[obj.close - 1] == '}'
    ensures obj.open <= obj.close <= |src|
    ensures InsertMember(src, obj, entry, unit, nl)
         == src[..obj.open] + BlockString(entry, LineLeadingSpace(src, obj.open), unit, nl) + src[obj.close..]
  {
    hide LineLeadingSpace;
    var lead := LineLeadingSpace(src, obj.open);
    var inside := nl + (lead + unit) + entry + nl + lead;
    assert src[..obj.open + 1] == src[..obj.open] + "{";
    assert src[obj.close - 1..] == "}" + src[obj.close..];
    assert BlockString(entry, lead, unit, nl) == "{" + inside + "}";
    assert InsertMember(src, obj, entry, unit, nl) == src[..obj.open + 1] + inside + src[obj.close - 1..];
  }

  // ---------------------------------------------------------------- bytes kept

  /** A text with one stretch replaced. */
  ghost predicate DiffersAt(src: string, out: string, start: nat, end: nat, text: string) {
    start <= end <= |src| && out == src[..start] + text + src[end..]
  }

  /** Setting an entry a field holds once replaces that entry's value and no other byte. */
  lemma ReplacedEntryText(src: string, field: string, name: string, value: string)
    requires IsPackageJson(src) && Copies(src, field, name) == 1
    ensures var d := DocumentOf(src); var out := SetText(src, field, name, value);
            && HoldsObject(d, field) && out.Ok? && FieldSpans(d, field).Some?
            && var j := LastIndex(Deps(d, field), name);
            && 0 <= j < |FieldSpans(d, field).value.members|
            && var m := FieldSpans(d, field).value.members[j];
               DiffersAt(src, out.value, m.valStart, m.valEnd, Quoted(value))
  {
    hide LegalDocument, PrintDocument, PutEntry, Encode, Print, Quoted, SpansOf, FieldSpans, IsPackageJson, DocumentOf,
         Count, FitsSpan;
    var d, v := DocumentOf(src), Text(Encode(value));
    assert LegalDocument(d) && d.value.Object? && src == PrintDocument(d);
    assert TrimDocument(d, field, name, 1) == d;
    QuotedText(value);
    NamesOfField(d, field);
    CountIsZero(Deps(d, field), name);
    EntryReplaced(d, field, name, v, LastIndex(Deps(d, field), name));
    SpanFits(FieldSpans(d, field).value.members[LastIndex(Deps(d, field), name)], src);
  }

  /** Setting an entry a field's object does not hold writes it behind the last one and no other
      byte: on that one's line if it shares it, and else on a line of its own, indented alike. */
  lemma AddedEntryText(src: string, field: string, name: string, value: string)
    requires IsPackageJson(src) && HoldsObject(DocumentOf(src), field) && Deps(DocumentOf(src), field) != []
    requires Copies(src, field, name) == 0
    ensures var d := DocumentOf(src); var out := SetText(src, field, name, value);
            && out.Ok? && FieldSpans(d, field).Some? && Fits(FieldSpans(d, field).value, src)
            && |FieldSpans(d, field).value.members| > 0
            && var obj := FieldSpans(d, field).value;
               var n := |obj.members| - 1; var end := obj.members[n].valEnd;
               var entry := Quoted(name) + ": " + Quoted(value);
               match LineIndentOf(src, SpansKey(obj, src, n))
               case None => DiffersAt(src, out.value, end, end, ", " + entry)
               case Some(indent) =>
                 DiffersAt(src, out.value, end, end, "," + DetectLineEnding(src) + indent + entry)
  {
    hide LegalDocument, PrintDocument, PutEntry, Encode, Print, Quoted, SpansOf, FieldSpans, IsPackageJson, DocumentOf,
         Count, FitsSpan, DetectIndentUnit, DetectLineEnding, LineIndentOf, KeyText, Fits;
    var d, v := DocumentOf(src), Text(Encode(value));
    assert LegalDocument(d) && d.value.Object? && src == PrintDocument(d);
    assert TrimDocument(d, field, name, 1) == d;
    var entry := Quoted(name) + ": " + Quoted(value);
    QuotedText(value);
    EntryText(name, v, Quoted(value));
    NamesOfField(d, field);
    CountIsZero(Deps(d, field), name);
    DocumentIsSolid(d);
    FieldIsSolid(d, field);
    EntryAdded(d, field, name, v, entry);
    var obj := FieldSpans(d, field).value;
    FitsMember(obj, src, |obj.members| - 1);
    SpanFits(obj.members[|obj.members| - 1], src);
    SameKey(obj, src, |obj.members| - 1);
  }

  lemma SameKey(obj: Spans, src: string, i: nat)
    requires Fits(obj, src) && i < |obj.members|
    ensures SpansKey(obj, src, i) == obj.members[i].keyStart
  {
  }

  /** Removing an entry a field holds once takes out a stretch and no other byte: up to the next
      entry's key, or from the end of the entry before it, or all there is between the braces. */
  lemma RemovedEntryText(src: string, field: string, name: string)
    requires IsPackageJson(src) && Copies(src, field, name) == 1
    ensures var d := DocumentOf(src); var out := RemoveText(src, field, name);
            && HoldsObject(d, field) && out.Ok? && FieldSpans(d, field).Some?
            && var obj := FieldSpans(d, field).value; var j := FirstIndex(Deps(d, field), name); var n := |obj.members|;
            && j < n
            && if j + 1 < n then
                 DiffersAt(src, out.value, obj.members[j].keyStart, obj.members[j + 1].keyStart, "")
               else if j > 0 then
                 DiffersAt(src, out.value, obj.members[j - 1].valEnd, obj.members[j].valEnd, "")
               else obj.close > 0 && DiffersAt(src, out.value, obj.open + 1, obj.close - 1, "")
  {
    hide LegalDocument, PrintDocument, SpansOf, FieldSpans, IsPackageJson, DocumentOf, Count, FitsSpan, TrimDocument,
         FirstIndex, Fits;
    var d := DocumentOf(src);
    var j := FirstIndex(Deps(d, field), name);
    NamesOfField(d, field);
    DeletedCopy(src, field, name, 0, j);
    var obj := FieldSpans(d, field).value;
    TrimDone(DeleteMember(src, obj, j), field, name, 0);
    FieldIsSolid(d, field);
    DeletionFits(src, obj, j);
  }

  lemma DeletionFits(src: string, obj: Spans, j: nat)
    requires Fits(obj, src) && j < |obj.members|
    ensures var out, n := DeleteMember(src, obj, j), |obj.members|;
            if j + 1 < n then DiffersAt(src, out, obj.members[j].keyStart, obj.members[j + 1].keyStart, "")
            else if j > 0 then DiffersAt(src, out, obj.members[j - 1].valEnd, obj.members[j].valEnd, "")
            else obj.close > 0 && DiffersAt(src, out, obj.open + 1, obj.close - 1, "")
  {
    FitsMember(obj, src, j);
    if j + 1 < |obj.members| {
      FitsMember(obj, src, j + 1);
      assert obj.members[j + 1 - 1].valEnd <= obj.members[j + 1].keyStart;
    } else if j > 0 {
      FitsMember(obj, src, j - 1);
    }
  }
}
