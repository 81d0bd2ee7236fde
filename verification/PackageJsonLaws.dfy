/** The laws of the package.json editor, for every text it accepts: what a set or a removal
    means to a reader of the document, which bytes it keeps, and how edits undo each other. */
module PackageJsonLaws {
  import opened Wrappers
  import opened JsonText
  import opened JsonTree
  import opened JsonSpans
  import opened JsonEdits
  import opened JsonObjects
  import opened JsonCores
  import opened PackageJson

  // ---------------------------------------------------------------- results parse

  lemma OneMemberIsLegal(m: Member)
    requires LegalMember(m)
    ensures Legal(Object([m], ""))
  {
    hide LegalMember;
    assert [m][0] == m && [m][1..] == [];
    assert LegalMembers([m]);
  }

  lemma EntryIsLegal(name: string, v: Value, pre: string, post: string)
    requires Legal(v) && AllBlank(pre) && AllBlank(post)
    ensures LegalMember(Entry(name, v).(pre := pre, post := post)) && LegalMember(Entry(name, v))
  {
    hide Legal, IsBody;
    DecodeEncode(name);
  }

  lemma BlankSum(a: string, b: string)
    requires AllBlank(a) && AllBlank(b)
    ensures AllBlank(a + b)
  {
  }

  lemma BlockIsLegal(name: string, v: Value, indent: string, unit: string, nl: string)
    requires Legal(v) && AllBlank(indent) && AllBlank(unit) && AllBlank(nl)
    ensures Legal(Block(Entry(name, v), indent, unit, nl))
  {
    hide Legal, LegalMember, AllBlank;
    BlankSum(nl, indent);
    BlankSum(nl + indent, unit);
    EntryIsLegal(name, v, nl + indent + unit, nl + indent);
    OneMemberIsLegal(Entry(name, v).(pre := nl + indent + unit, post := nl + indent));
  }

  lemma AppendIsLegal(ms: seq<Member>, m: Member)
    requires ms != [] && LegalMembers(ms) && LegalMember(m)
    ensures LegalMembers(Append(ms, m))
  {
    hide LegalMembers, LegalMember, AllBlank;
    var n, r := |ms| - 1, Append(ms, m);
    LegalEach(ms);
    LegalEach(r);
    LegalParts(ms[n]);
    assert AllBlank("") by { EmptyIsBlank(); }
    LegalMoved(ms[n], "", "");
    LegalMoved(m, ms[n].post, ms[n].post);
    assert forall k :: 0 <= k < |r| ==> r[k] == if k < n then ms[k] else if k == n then ms[n].(post := "")
        else m.(post := ms[n].post);
  }

  lemma EmptyIsBlank()
    ensures AllBlank("") && AllBlank(" ")
  {
  }

  lemma ObjectIsLegal(ms: seq<Member>)
    requires LegalMembers(ms)
    ensures Legal(Object(ms, ""))
  {
  }

  lemma InsertIsLegal(src: string, w: Value, at: nat, name: string, v: Value, unit: string, nl: string)
    requires w.Object? && Legal(w) && Fits(SpansOf(w, at), src) && AllBlank(unit) && AllBlank(nl) && Legal(v)
    ensures Legal(InsertInto(src, w, at, Entry(name, v), unit, nl))
  {
    hide Legal, LegalMember, LegalMembers, AllBlank, SpanAt, Fits, Print, LineIndentOf, LineLeadingSpace;
    var (indent, inline) := MemberIndent(src, SpansOf(w, at), unit);
    BlankSum(nl, indent);
    EmptyIsBlank();
    if w.members != [] {
      var pre := if inline then " " else nl + indent;
      EntryIsLegal(name, v, pre, "");
      MembersAreLegal(w);
      AppendIsLegal(w.members, Entry(name, v).(pre := pre));
      ObjectIsLegal(Append(w.members, Entry(name, v).(pre := pre)));
    } else {
      OpensWithin(SpansOf(w, at), src);
      BlankSum(nl, LineLeadingSpace(src, at));
      EntryIsLegal(name, v, nl + indent, nl + LineLeadingSpace(src, at));
      OneMemberIsLegal(Entry(name, v).(pre := nl + indent, post := nl + LineLeadingSpace(src, at)));
    }
  }

  lemma ReplacedIsLegal(ms: seq<Member>, j: nat, v: Value)
    requires LegalMembers(ms) && j < |ms| && Legal(v)
    ensures LegalMembers(ms[j := ms[j].(value := v)])
  {
    hide LegalMembers;
    LegalEach(ms);
    LegalEach(ms[j := ms[j].(value := v)]);
  }

  lemma PutEntryIsLegal(t: Document, field: string, name: string, v: Value)
    requires LegalDocument(t) && t.value.Object? && Legal(v)
    ensures LegalDocument(PutEntry(t, field, name, v))
  {
    hide Legal, LegalMembers, LegalMember, SpanAt, Fits, Print, DetectIndentUnit, DetectLineEnding, MemberIndent,
         LineLeadingSpace,
      InsertInto, Block, LastIndex, PrintDocument;
    SpansFit(t.pre, t.value, t.post);
    DocumentText(t);
    MembersAreLegal(t.value);
    var src, top, ms := PrintDocument(t), SpansOf(t.value, |t.pre|), t.value.members;
    var unit, nl := DetectIndentUnit(src, top), DetectLineEnding(src);
    EmptyIsBlank();
    EntryIsLegal(name, v, "", "");
    var i := FieldIndex(t, field);
    if i < 0 {
      var (indent, inline) := MemberIndent(src, top, unit);
      OneMemberIsLegal(Entry(name, v));
      BlockIsLegal(name, v, indent, unit, nl);
      InsertIsLegal(src, t.value, |t.pre|, field,
                    if inline then Object([Entry(name, v)], "") else Block(Entry(name, v), indent, unit, nl), unit, nl);
    } else {
      FieldLegal(t, i);
      FieldFits(t, i);
      if !ms[i].value.Object? {
        BlockIsLegal(name, v, LineLeadingSpace(src, top.members[i].keyStart), unit, nl);
        WithValueIsLegal(t, i, Block(Entry(name, v), LineLeadingSpace(src, top.members[i].keyStart), unit, nl));
      } else {
        HeldPutIsLegal(t, i, name, v, unit, nl);
      }
    }
  }

  lemma HeldPutIsLegal(t: Document, i: nat, name: string, v: Value, unit: string, nl: string)
    requires LegalDocument(t) && t.value.Object? && i < |t.value.members| && t.value.members[i].value.Object?
    requires Legal(v)
    requires AllBlank(unit) && AllBlank(nl)
    ensures var w := t.value.members[i].value; var j := LastIndex(w.members, name);
            && (j >= 0 ==> LegalDocument(WithValue(t, i, Object(w.members[j := w.members[j].(value := v)], ""))))
            && var at := SpanAt(t.value.members, |t.pre|, i).valStart;
            && Fits(SpansOf(w, at), PrintDocument(t))
            && LegalDocument(WithValue(t, i, InsertInto(PrintDocument(t), w, at, Entry(name, v), unit, nl)))
  {
    hide Legal, LegalMembers, LegalMember, SpanAt, Fits, InsertInto, LastIndex, PrintDocument, AllBlank, LegalDocument;
    var w, at := t.value.members[i].value, SpanAt(t.value.members, |t.pre|, i).valStart;
    FieldLegal(t, i);
    FieldFitsWithin(t, i);
    InsertIsLegal(PrintDocument(t), w, at, name, v, unit, nl);
    WithValueIsLegal(t, i, InsertInto(PrintDocument(t), w, at, Entry(name, v), unit, nl));
    MembersAreLegal(w);
    var j := LastIndex(w.members, name);
    if j >= 0 {
      ReplacedIsLegal(w.members, j, v);
      ObjectIsLegal(w.members[j := w.members[j].(value := v)]);
      WithValueIsLegal(t, i, Object(w.members[j := w.members[j].(value := v)], ""));
    }
  }

  lemma SetIsLegal(d: Document, field: string, name: string, v: Value)
    requires LegalDocument(d) && d.value.Object? && Legal(v)
    ensures LegalDocument(SetDocument(d, field, name, v))
  {
    hide LegalDocument, PutEntry, TrimDocument, Legal;
    TrimDocumentIsLegal(d, field, name, 1);
    PutEntryIsLegal(TrimDocument(d, field, name, 1), field, name, v);
  }

  // ---------------------------------------------------------------- what a set means

  function EntryCore(name: string, v: Value): Core {
    Core(Encode(name), "", " ", v)
  }

  lemma EntryCoreName(name: string, v: Value)
    ensures EntryCore(name, v).Name() == name && KeyName(Entry(name, v)) == name
  {
    DecodeEncode(name);
  }

  /** The entries a field holds, blanks aside; none when it holds no object. */
  function Entries(d: Document, field: string): seq<Core>
    requires d.value.Object?
  {
    if HoldsObject(d, field) then Cores(Deps(d, field)) else []
  }

  /** Everything outside one field is, byte for byte, as it was; a field not there before
      is added last, taking over the blanks that stood before the closing brace. */
  ghost predicate OnlyFieldDiffers(d: Document, d': Document, field: string)
    requires d.value.Object? && d'.value.Object?
  {
    var ms, ms', i := d.value.members, d'.value.members, FieldIndex(d, field);
    && d'.pre == d.pre && d'.post == d.post
    && if i >= 0 then
         && |ms'| == |ms| && FieldIndex(d', field) == i
         && (forall k :: 0 <= k < |ms| && k != i ==> ms'[k] == ms[k])
         && ms'[i] == ms[i].(value := ms'[i].value)
       else
         && |ms'| == |ms| + 1 && FieldIndex(d', field) == |ms|
         && (forall k :: 0 <= k < |ms| - 1 ==> ms'[k] == ms[k])
         && (ms != [] ==> ms'[|ms| - 1] == ms[|ms| - 1].(post := "") && ms'[|ms|].post == ms[|ms| - 1].post)
  }

  lemma WithValueDiffersInField(d: Document, i: int, v: Value, field: string)
    requires d.value.Object? && i == FieldIndex(d, field) >= 0
    ensures OnlyFieldDiffers(d, WithValue(d, i, v), field)
  {
    FieldStays(d, i, v, field);
  }

  lemma TrimDiffersInField(d: Document, field: string, name: string, keep: nat)
    requires d.value.Object?
    ensures var t := TrimDocument(d, field, name, keep);
            && t.value.Object? && FieldIndex(t, field) == FieldIndex(d, field)
            && HoldsObject(t, field) == HoldsObject(d, field)
            && (t == d || (FieldIndex(d, field) >= 0 && exists v :: t == WithValue(d, FieldIndex(d, field), v)))
            && Entries(t, field) == KeepLast(Entries(d, field), name, keep)
  {
    hide Trim, Cores, LastIndex, KeyName;
    if HoldsObject(d, field) {
      var i := FieldIndex(d, field);
      var v := d.value.members[i].value;
      TrimKeepsLast(v.members, name, keep);
      NamedIsCount(v.members, name);
      if Count(v.members, name) <= keep {
        KeepEnough(Cores(v.members), name, keep);
      } else {
        FieldStays(d, i, TrimValue(v, name, keep), field);
      }
    }
  }

  lemma LastIndexOfAppend(ms: seq<Member>, m: Member, name: string)
    requires KeyName(m) == name
    ensures LastIndex(ms + [m], name) == |ms|
  {
  }

  lemma InsertedLast(src: string, w: Value, at: nat, m: Member, unit: string, nl: string)
    requires w.Object? && Fits(SpansOf(w, at), src) && AllBlank(unit)
    ensures var r := InsertInto(src, w, at, m, unit, nl).members; var n := |w.members|;
            && |r| == n + 1 && CoreOf(r[n]) == CoreOf(m)
            && LastIndex(r, KeyName(m)) == n
            && Cores(r) == Cores(w.members) + [CoreOf(m)]
            && (forall k :: 0 <= k < n - 1 ==> r[k] == w.members[k])
            && (n > 0 ==> r[n - 1] == w.members[n - 1].(post := "") && r[n].post == w.members[n - 1].post)
  {
    hide Fits, SpansOf, MemberIndent, LineLeadingSpace, Cores;
    var r, n := InsertInto(src, w, at, m, unit, nl).members, |w.members|;
    if w.members != [] { CoresOfAppend(w.members, r[n]); }
    assert r == r[..n] + [r[n]];
    LastIndexOfAppend(r[..n], r[n], KeyName(m));
  }

  lemma SingleCore(m: Member, name: string, v: Value)
    requires m.key == Encode(name) && m.mid == "" && m.gap == " " && m.value == v
    ensures Cores([m]) == [EntryCore(name, v)]
  {
    hide Encode;
    assert CoreOf(m) == EntryCore(name, v);
  }

  /** A field that was not there is added last, holding the entry. */
  lemma PutAddsField(t: Document, field: string, name: string, v: Value)
    requires LegalDocument(t) && t.value.Object? && FieldIndex(t, field) < 0
    ensures var r := PutEntry(t, field, name, v);
            OnlyFieldDiffers(t, r, field) && Entries(r, field) == [EntryCore(name, v)]
  {
    hide Legal, LegalMembers, SpanAt, Fits, DetectIndentUnit, DetectLineEnding, MemberIndent, InsertInto, LastIndex,
         PrintDocument, Cores,
      Print, Encode, KeyName;
    SpansFit(t.pre, t.value, t.post);
    DocumentText(t);
    var src, top := PrintDocument(t), SpansOf(t.value, |t.pre|);
    var unit, nl := DetectIndentUnit(src, top), DetectLineEnding(src);
    var (indent, inline) := MemberIndent(src, top, unit);
    var deps := if inline then Object([Entry(name, v)], "") else Block(Entry(name, v), indent, unit, nl);
    SingleCore(deps.members[0], name, v);
    EntryCoreName(field, deps);
    InsertedLast(src, t.value, |t.pre|, Entry(field, deps), unit, nl);
  }

  /** A field holding something else is given an object holding the entry. */
  lemma PutReplacesField(t: Document, field: string, name: string, v: Value)
    requires LegalDocument(t) && t.value.Object? && FieldIndex(t, field) >= 0 && !HoldsObject(t, field)
    ensures var r := PutEntry(t, field, name, v);
            OnlyFieldDiffers(t, r, field) && Entries(r, field) == [EntryCore(name, v)]
  {
    hide Legal, LegalMembers, SpanAt, Fits, DetectIndentUnit, DetectLineEnding, LastIndex, PrintDocument, Cores, Print,
         Encode, KeyName,
      LineLeadingSpace, OnlyFieldDiffers;
    SpansFit(t.pre, t.value, t.post);
    DocumentText(t);
    var i := FieldIndex(t, field);
    FieldFits(t, i);
    var src, top := PrintDocument(t), SpansOf(t.value, |t.pre|);
    var deps := Block(Entry(name, v), LineLeadingSpace(src, top.members[i].keyStart), DetectIndentUnit(src, top),
        DetectLineEnding(src));
    SingleCore(deps.members[0], name, v);
    WithValueDiffersInField(t, i, deps, field);
    FieldStays(t, i, deps, field);
  }

  /** In a field holding an object the entry's one copy takes the value, or it is added. */
  lemma PutSetsEntry(t: Document, field: string, name: string, v: Value)
    requires LegalDocument(t) && t.value.Object? && HoldsObject(t, field) && Count(Deps(t, field), name) <= 1
    ensures var r := PutEntry(t, field, name, v);
            OnlyFieldDiffers(t, r, field) && Entries(r, field) == Assign(Entries(t, field), name, EntryCore(name, v))
  {
    hide Legal, LegalMembers, SpanAt, Fits, DetectIndentUnit, DetectLineEnding, LastIndex, PrintDocument, Print,
         Encode, KeyName,
      InsertInto, OnlyFieldDiffers, Assign;
    SpansFit(t.pre, t.value, t.post);
    DocumentText(t);
    var i := FieldIndex(t, field);
    FieldFitsWithin(t, i);
    var deps := t.value.members[i].value;
    var ms, j := deps.members, LastIndex(deps.members, name);
    var src, top := PrintDocument(t), SpansOf(t.value, |t.pre|);
    NamedIsCount(ms, name);
    CountIsZero(ms, name);
    EntryCoreName(name, v);
    if j >= 0 {
      var w := Object(ms[j := ms[j].(value := v)], "");
      WithValueDiffersInField(t, i, w, field);
      FieldStays(t, i, w, field);
      CoreNamed(ms[j]);
      AssignReplaces(Cores(ms), j, name, EntryCore(name, v));
      assert Cores(w.members) == Cores(ms)[j := Cores(ms)[j].(value := v)];
    } else {
      var w := InsertInto(src, deps, SpanAt(t.value.members, |t.pre|, i).valStart, Entry(name, v),
          DetectIndentUnit(src, top), DetectLineEnding(src));
      WithValueDiffersInField(t, i, w, field);
      FieldStays(t, i, w, field);
      InsertedLast(src, deps, SpanAt(t.value.members, |t.pre|, i).valStart, Entry(name, v), DetectIndentUnit(src, top),
                   DetectLineEnding(src));
      AssignAppends(Cores(ms), name, EntryCore(name, v));
    }
  }

  lemma CoreNamed(m: Member)
    ensures CoreOf(m).Name() == KeyName(m)
  {
  }

  lemma CopiesLeft(d: Document, field: string, name: string, keep: nat)
    requires d.value.Object? && HoldsObject(d, field)
    ensures var t := TrimDocument(d, field, name, keep);
            t.value.Object? && HoldsObject(t, field) && Count(Deps(t, field), name) <= keep
  {
    hide Count, LastIndex;
    TrimDiffersInField(d, field, name, keep);
    TrimCount(Deps(d, field), name, keep);
    FieldStays(d, FieldIndex(d, field), TrimValue(d.value.members[FieldIndex(d, field)].value, name, keep), field);
  }

  lemma {:induction false} TrimCount(ms: seq<Member>, name: string, keep: nat)
    ensures Count(Trim(ms, name, keep), name) <= keep
    decreases Count(ms, name)
  {
    hide DeleteAt, FirstIndex;
    if Count(ms, name) > keep {
      var i := FirstIndex(ms, name);
      CountIsZero(ms, name);
      CountDeleted(ms, i, name);
      TrimCount(DeleteAt(ms, i), name, keep);
    }
  }

  lemma OnlyFieldTwice(d: Document, t: Document, r: Document, field: string)
    requires d.value.Object? && t.value.Object? && r.value.Object?
    requires t == d || (FieldIndex(d, field) >= 0 && exists v :: t == WithValue(d, FieldIndex(d, field), v))
    requires FieldIndex(t, field) == FieldIndex(d, field) && OnlyFieldDiffers(t, r, field)
    ensures OnlyFieldDiffers(d, r, field)
  {
    hide LastIndex;
  }

  /** Setting an entry of a document: the field's entries become what assigning the name
      makes of them, and nothing else differs. */
  lemma SetMeans(d: Document, field: string, name: string, v: Value)
    requires LegalDocument(d) && d.value.Object?
    ensures var r := SetDocument(d, field, name, v);
            && OnlyFieldDiffers(d, r, field)
            && HoldsObject(r, field)
            && Entries(r, field) == Assign(Entries(d, field), name, EntryCore(name, v))
  {
    hide LegalDocument, PutEntry, TrimDocument, OnlyFieldDiffers, Assign, KeepLast, Count, Encode;
    var t := TrimDocument(d, field, name, 1);
    TrimDocumentIsLegal(d, field, name, 1);
    TrimDiffersInField(d, field, name, 1);
    if HoldsObject(d, field) {
      CopiesLeft(d, field, name, 1);
      PutSetsEntry(t, field, name, v);
      AssignAfterKeep(Entries(d, field), name, EntryCore(name, v));
    } else {
      if FieldIndex(t, field) < 0 { PutAddsField(t, field, name, v); } else { PutReplacesField(t, field, name, v); }
      AssignAppends([], name, EntryCore(name, v));
      assert Entries(d, field) == [] && [] + [EntryCore(name, v)] == [EntryCore(name, v)];
    }
    OnlyFieldTwice(d, t, SetDocument(d, field, name, v), field);
    AssignIsNotEmpty(Entries(d, field), name, EntryCore(name, v));
  }

  lemma {:induction false} AssignIsNotEmpty(cs: seq<Core>, name: string, entry: Core)
    ensures Assign(cs, name, entry) != []
  {
    if cs != [] { AssignIsNotEmpty(cs[1..], name, entry); }
  }

  // ---------------------------------------------------------------- layout

  lemma {:induction false} LineStartsAfterNewline(src: string, start: nat, pos: nat)
    requires 0 < start <= pos <= |src| && src[start - 1] == '\n' && forall k :: start <= k < pos ==> src[k] != '\n'
    ensures LineStart(src, pos) == start
    decreases pos
  {
    if start < pos { LineStartsAfterNewline(src, start, pos - 1); }
  }

  lemma {:induction false} AllSpacesRun(s: string)
    requires forall k :: 0 <= k < |s| ==> IsSpace(s[k])
    ensures SpaceRun(s) == |s|
  {
    if s != "" { AllSpacesRun(s[1..]); }
  }

  lemma {:induction false} RunIsSpaces(s: string)
    ensures forall k :: 0 <= k < SpaceRun(s) ==> IsSpace(s[k])
  {
    if s != "" && IsSpace(s[0]) {
      RunIsSpaces(s[1..]);
      assert forall k :: 0 < k < SpaceRun(s) ==> s[k] == s[1..][k - 1];
    }
  }

  lemma IndentIsSpaces(src: string, pos: nat)
    requires pos <= |src| && LineIndentOf(src, pos).Some?
    ensures forall k :: 0 <= k < |LineIndentOf(src, pos).value| ==> IsSpace(LineIndentOf(src, pos).value[k])
  {
    RunIsSpaces(src[LineStart(src, pos)..pos]);
  }

  lemma IndentedLine(src: string, pos: nat, head: string, indent: string)
    requires pos <= |src| && src[..pos] == head + indent && head != "" && head[|head| - 1] == '\n'
    requires forall k :: 0 <= k < |indent| ==> IsSpace(indent[k])
    ensures LineIndentOf(src, pos) == Some(indent)
  {
    assert |head| + |indent| == pos;
    assert src[|head| - 1] == src[..pos][|head| - 1];
    assert forall k :: |head| <= k < pos ==> src[k] == src[..pos][k] == indent[k - |head|];
    LineStartsAfterNewline(src, |head|, pos);
    assert src[|head|..pos] == indent;
    AllSpacesRun(indent);
  }

  /** An entry added to an object written over several lines stands on a line of its own,
      indented as the member before it is. */
  lemma EntryTakesSiblingIndent(a: string, v: Value, m: Member, unit: string, c: string)
    requires v.Object? && Legal(v) && v.members != [] && AllBlank(unit)
    requires Fits(SpansOf(v, |a|), a + PrintTo(v, c))
    requires var src := a + PrintTo(v, c); LineIndentOf(src, SpansOf(v, |a|).members[|v.members| - 1].keyStart).Some?
    ensures var src := a + PrintTo(v, c); var n := |v.members|;
            var r := InsertInto(src, v, |a|, m, unit, DetectLineEnding(src)); var out := a + PrintTo(r, c);
            && |r.members| == n + 1
            && SpanAt(r.members, |a|, n).keyStart <= |out|
            && LineIndentOf(out, SpanAt(r.members, |a|, n).keyStart)
               == LineIndentOf(src, SpansOf(v, |a|).members[n - 1].keyStart)
  {
    hide Print, PrintTo, SpanAt, Fits, LineIndentOf, DetectLineEnding, Before, FromKey, Tail;
    var src, n := a + PrintTo(v, c), |v.members|;
    FitsMember(SpansOf(v, |a|), src, n - 1);
    var last := SpansOf(v, |a|).members[n - 1].keyStart;
    var indent, nl := LineIndentOf(src, last).value, DetectLineEnding(src);
    var r := InsertInto(src, v, |a|, m, unit, nl);
    var out := a + PrintTo(r, c);
    IndentIsSpaces(src, last);
    NewlineEnds(src);
    assert r.members[n].pre == nl + indent;
    PlacesAreSpans(a, r.members, n);
    At(a, r.members, n, c);
    var head := a + ("{" + Before(r.members[..n])) + nl;
    assert UpToKey(a, r.members, n) == head + indent;
    assert out[..|UpToKey(a, r.members, n)|] == UpToKey(a, r.members, n);
    IndentedLine(out, |UpToKey(a, r.members, n)|, head, indent);
  }

  lemma NewlineEnds(src: string)
    ensures DetectLineEnding(src)[|DetectLineEnding(src)| - 1] == '\n'
  {
  }
}
