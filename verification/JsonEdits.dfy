/** Edits of one dependency entry, stated on documents: what remains of a field when
    copies of an entry are dropped, and where an entry or a field is put. */
module JsonEdits {
  import opened Wrappers
  import opened JsonText
  import opened JsonTree
  import opened JsonSpans

  // ---------------------------------------------------------------- lines of a text

  predicate IsSpace(c: char) {
    c == ' ' || c == '\t' || c == '\r'
  }

  function SpaceRun(s: string): (n: nat)
    ensures n <= |s| && AllBlank(s[..n])
  {
    if s == "" || !IsSpace(s[0]) then 0
    else
      var n := 1 + SpaceRun(s[1..]);
      assert forall i :: 0 < i < n ==> s[i] == s[1..][i - 1];
      n
  }

  function LineStart(src: string, pos: nat): (start: nat)
    requires pos <= |src|
    ensures start <= pos
  {
    if pos == 0 || src[pos - 1] == '\n' then pos else LineStart(src, pos - 1)
  }

  /** What stands between the start of a position's line and the position, if only spaces. */
  function LineIndentOf(src: string, pos: nat): (r: Option<string>)
    requires pos <= |src|
    ensures r.Some? ==> AllBlank(r.value)
  {
    var line := src[LineStart(src, pos)..pos];
    if SpaceRun(line) == |line| then (assert line[..|line|] == line; Some(line)) else None
  }

  function LineLeadingSpace(src: string, pos: nat): (r: string)
    requires pos <= |src|
    ensures AllBlank(r)
  {
    var line := src[LineStart(src, pos)..pos];
    line[..SpaceRun(line)]
  }

  function FirstNewline(src: string): (i: nat)
    ensures i <= |src|
  {
    if src == "" || src[0] == '\n' then 0 else 1 + FirstNewline(src[1..])
  }

  function DetectLineEnding(src: string): (nl: string)
    ensures AllBlank(nl) && nl != ""
  {
    var i := FirstNewline(src);
    if 0 < i < |src| && src[i - 1] == '\r' then "\r\n" else "\n"
  }

  /** Offsets that lie inside a text, in the order of the text. */
  predicate Fits(obj: Spans, src: string) {
    && obj.open + 1 < obj.close <= |src|
    && (forall i :: 0 <= i < |obj.members| ==> FitsSpan(obj.members[i], src))
    && (forall i :: 0 < i < |obj.members| ==> obj.members[i - 1].valEnd <= obj.members[i].keyStart)
  }

  predicate FitsSpan(m: Span, src: string) {
    m.keyStart <= m.valStart < m.valEnd <= |src|
  }

  function DetectIndentUnit(src: string, top: Spans): (unit: string)
    requires Fits(top, src)
    ensures AllBlank(unit)
  {
    var indent := if top.members != [] then LineIndentOf(src, top.members[0].keyStart) else None;
    if indent.Some? && indent.value != "" then indent.value else "  "
  }

  /** The indentation a new member takes, and whether the object stands on one line. */
  function MemberIndent(src: string, obj: Spans, unit: string): (r: (string, bool))
    requires Fits(obj, src) && AllBlank(unit)
    ensures AllBlank(r.0)
  {
    if obj.members != [] then
      match LineIndentOf(src, obj.members[|obj.members| - 1].keyStart)
      case Some(indent) => (indent, false)
      case None => ("", true)
    else (LineLeadingSpace(src, obj.open) + unit, false)
  }

  // ---------------------------------------------------------------- text edits

  function DeleteMember(src: string, obj: Spans, i: nat): string
    requires Fits(obj, src) && i < |obj.members|
  {
    var victim := obj.members[i];
    if i + 1 < |obj.members| then
      assert FitsSpan(obj.members[i + 1], src) && obj.members[i + 1 - 1].valEnd <= obj.members[i + 1].keyStart;
      Splice(src, victim.keyStart, obj.members[i + 1].keyStart, "")
    else if i > 0 then Splice(src, obj.members[i - 1].valEnd, victim.valEnd, "")
    else Splice(src, obj.open + 1, obj.close - 1, "")
  }

  function InsertMember(src: string, obj: Spans, entry: string, unit: string, nl: string): string
    requires Fits(obj, src) && AllBlank(unit)
  {
    var (indent, inline) := MemberIndent(src, obj, unit);
    if obj.members != [] then
      var end := obj.members[|obj.members| - 1].valEnd;
      Splice(src, end, end, if inline then ", " + entry else "," + nl + indent + entry)
    else
      Splice(src, obj.open + 1, obj.close - 1, nl + indent + entry + nl + LineLeadingSpace(src, obj.open))
  }

  // ---------------------------------------------------------------- members by name

  function Count(ms: seq<Member>, name: string): (n: nat) {
    if ms == [] then 0 else (if KeyName(ms[0]) == name then 1 else 0) + Count(ms[1..], name)
  }

  /** The first member of a name, or the number of members. */
  function FirstIndex(ms: seq<Member>, name: string): (i: nat)
    ensures i <= |ms|
    ensures i < |ms| ==> KeyName(ms[i]) == name
    ensures forall k :: 0 <= k < i ==> KeyName(ms[k]) != name
  {
    if ms == [] || KeyName(ms[0]) == name then 0
    else
      var i := 1 + FirstIndex(ms[1..], name);
      assert forall k :: 0 < k < i ==> ms[k] == ms[1..][k - 1];
      i
  }

  /** The last member of a name, the one whose value readers of the object see; -1 when none. */
  function LastIndex(ms: seq<Member>, name: string): (i: int)
    ensures -1 <= i < |ms|
    ensures i >= 0 ==> KeyName(ms[i]) == name
    ensures forall k :: i < k < |ms| ==> KeyName(ms[k]) != name
  {
    if ms == [] then -1
    else
      var n := |ms| - 1;
      if KeyName(ms[n]) == name then n else LastIndex(ms[..n], name)
  }

  lemma {:induction false} CountSplit(ps: seq<Member>, qs: seq<Member>, name: string)
    ensures Count(ps + qs, name) == Count(ps, name) + Count(qs, name)
  {
    if ps == [] {
      assert ps + qs == qs;
    } else {
      assert (ps + qs)[1..] == ps[1..] + qs;
      CountSplit(ps[1..], qs, name);
    }
  }

  lemma {:induction false} CountIsZero(ms: seq<Member>, name: string)
    ensures Count(ms, name) == 0 <==> FirstIndex(ms, name) == |ms|
    ensures Count(ms, name) == 0 <==> forall k :: 0 <= k < |ms| ==> KeyName(ms[k]) != name
    ensures Count(ms, name) == 0 <==> LastIndex(ms, name) == -1
  {
    if ms != [] {
      CountIsZero(ms[1..], name);
      assert forall k :: 0 < k < |ms| ==> ms[k] == ms[1..][k - 1];
    }
  }

  /** Deleting a member lowers the count of its name by one and of no other. */
  lemma CountDeleted(ms: seq<Member>, i: nat, name: string)
    requires i < |ms|
    ensures Count(DeleteAt(ms, i), name) == Count(ms, name) - (if KeyName(ms[i]) == name then 1 else 0)
  {
    assert ms == ms[..i] + ([ms[i]] + ms[i + 1..]);
    CountSplit(ms[..i], [ms[i]] + ms[i + 1..], name);
    CountSplit([ms[i]], ms[i + 1..], name);
    if i + 1 < |ms| {
      var next := ms[i + 1].(pre := ms[i].pre);
      assert DeleteAt(ms, i) == ms[..i] + ([next] + ms[i + 2..]);
      assert ms[i + 1..] == [ms[i + 1]] + ms[i + 2..];
      CountSplit(ms[..i], [next] + ms[i + 2..], name);
      CountSplit([next], ms[i + 2..], name);
      CountSplit([ms[i + 1]], ms[i + 2..], name);
      assert KeyName(next) == KeyName(ms[i + 1]);
    } else if i > 0 {
      var last := ms[i - 1].(post := ms[i].post);
      assert ms[..i] == ms[..i - 1] + [ms[i - 1]];
      CountSplit(ms[..i - 1], [ms[i - 1]], name);
      CountSplit(ms[..i - 1], [last], name);
      assert KeyName(last) == KeyName(ms[i - 1]);
    }
  }

  // ---------------------------------------------------------------- documents

  /** The members left when copies of a name are deleted, first ones first, down to `keep`. */
  function Trim(ms: seq<Member>, name: string, keep: nat): (r: seq<Member>)
    decreases Count(ms, name)
  {
    if Count(ms, name) <= keep then ms
    else
      var i := FirstIndex(ms, name);
      CountIsZero(ms, name);
      CountDeleted(ms, i, name);
      Trim(DeleteAt(ms, i), name, keep)
  }

  function TrimValue(v: Value, name: string, keep: nat): Value
    requires v.Object?
  {
    if Count(v.members, name) <= keep then v else Object(Trim(v.members, name, keep), "")
  }

  /** A document whose top-level member i holds another value. */
  function WithValue(d: Document, i: nat, v: Value): Document
    requires d.value.Object? && i < |d.value.members|
  {
    d.(value := Object(d.value.members[i := d.value.members[i].(value := v)], ""))
  }

  /** The top-level member a field's readers see, -1 when there is none. */
  function FieldIndex(d: Document, field: string): (i: int)
    requires d.value.Object?
    ensures -1 <= i < |d.value.members|
  {
    LastIndex(d.value.members, field)
  }

  /** Whether a field holds an object. */
  predicate HoldsObject(d: Document, field: string)
    requires d.value.Object?
  {
    var i := FieldIndex(d, field);
    i >= 0 && d.value.members[i].value.Object?
  }

  function Deps(d: Document, field: string): seq<Member>
    requires d.value.Object? && HoldsObject(d, field)
  {
    d.value.members[FieldIndex(d, field)].value.members
  }

  function TrimDocument(d: Document, field: string, name: string, keep: nat): Document
    requires d.value.Object?
  {
    if !HoldsObject(d, field) then d
    else
      var i := FieldIndex(d, field);
      if Count(Deps(d, field), name) <= keep then d
      else WithValue(d, i, TrimValue(d.value.members[i].value, name, keep))
  }

  /** A new entry, before its place gives it surrounding blanks. */
  function Entry(name: string, value: Value): Member {
    Member("", Encode(name), "", " ", value, "")
  }

  /** An object holding one entry on a line of its own. */
  function Block(m: Member, indent: string, unit: string, nl: string): Value {
    Object([m.(pre := nl + indent + unit, post := nl + indent)], "")
  }

  /** An object with an entry added at its end, laid out like the members it has. */
  function InsertInto(src: string, v: Value, at: nat, m: Member, unit: string, nl: string): (r: Value)
    requires v.Object? && Fits(SpansOf(v, at), src) && AllBlank(unit)
    ensures r.Object?
  {
    var (indent, inline) := MemberIndent(src, SpansOf(v, at), unit);
    if v.members != [] then Object(Append(v.members, m.(pre := if inline then " " else nl + indent)), "")
    else Object([m.(pre := nl + indent, post := nl + LineLeadingSpace(src, at))], "")
  }

  // ---------------------------------------------------------------- spans fit

  lemma PrintNonempty(v: Value)
    requires Legal(v)
    ensures Print(v) != ""
  {
    PrintStartsValue(v, "");
  }

  lemma LegalMemberOf(ms: seq<Member>, i: nat)
    requires LegalMembers(ms) && i < |ms|
    ensures LegalMember(ms[i])
  {
    if i > 0 { LegalMemberOf(ms[1..], i - 1); }
  }

  lemma UpToNext(a: string, ms: seq<Member>, i: nat)
    requires i + 1 < |ms|
    ensures |ThroughValue(a, ms, i)| <= |UpToKey(a, ms, i + 1)|
  {
    hide UpToKey, ThroughValue, Before, KeyText, Print;
    BeforeGrows(ms, i);
    PlacesLength(a, ms, i);
    PlacesLength(a, ms, i + 1);
  }

  lemma PlacesLength(a: string, ms: seq<Member>, i: nat)
    requires i < |ms|
    ensures |UpToKey(a, ms, i)| == |a| + 1 + |Before(ms[..i])| + |ms[i].pre|
    ensures |ThroughValue(a, ms, i)| == |UpToKey(a, ms, i)| + |KeyText(ms[i])| + |Print(ms[i].value)|
  {
    hide Before, KeyText, Print;
  }

  lemma BeforeGrows(ms: seq<Member>, i: nat)
    requires i < |ms|
    ensures |Before(ms[..i + 1])|
         == |Before(ms[..i])| + |ms[i].pre| + |KeyText(ms[i])| + |Print(ms[i].value)| + |ms[i].post| + 1
  {
    var m := ms[i];
    if i == 0 {
      assert ms[..1] == [m] && [m][1..] == [] && "," + "" == ",";
      FromKeyParts(m, ",");
      PrintThen(m.value, m.post + ",");
      assert Before([m]) == m.pre + FromKey(m, ",");
      assert Before(ms[..0]) == "";
    } else {
      BeforeGrows(ms[1..], i - 1);
      assert ms[1..][..i] == ms[..i + 1][1..] && ms[1..][..i - 1] == ms[..i][1..];
      PrintMemberAppend(ms[0], ",", Before(ms[1..][..i]));
      PrintMemberAppend(ms[0], ",", Before(ms[1..][..i - 1]));
    }
  }

  lemma BracesFit(v: Value)
    requires v.Object? && Legal(v)
    ensures |Print(v)| >= 2
  {
    if v.members != [] {
      assert v == Object(v.members, "");
      At("", v.members, |v.members| - 1, "");
      PlacesLength("", v.members, |v.members| - 1);
    }
  }

  lemma SpansFit(a: string, v: Value, c: string)
    requires v.Object? && Legal(v)
    ensures Fits(SpansOf(v, |a|), a + PrintTo(v, c))
  {
    var src, obj, ms := a + PrintTo(v, c), SpansOf(v, |a|), v.members;
    BracesFit(v);
    PrintThen(v, c);
    assert |src| == |a| + |Print(v)| + |c|;
    forall i | 0 <= i < |ms|
      ensures FitsSpan(obj.members[i], src)
      ensures i > 0 ==> obj.members[i - 1].valEnd <= obj.members[i].keyStart
    {
      At(a, ms, i, c);
      PlacesAreSpans(a, ms, i);
      LegalMemberOf(ms, i);
      PrintNonempty(ms[i].value);
      if i > 0 {
        PlacesAreSpans(a, ms, i - 1);
        UpToNext(a, ms, i - 1);
      }
    }
  }
}
