/** The parsed objects of a package.json text: their members' places are read off the
    text, and splicing at those places is an edit of the document and nothing else. */
module JsonObjects {
  import opened Wrappers
  import opened JsonText
  import opened JsonTree
  import opened JsonSpans
  import opened JsonEdits
  import opened JsonSkip

  datatype JsonError = NotJson | NotAnObject

  // ---------------------------------------------------------------- splices as edits

  lemma PrintOfObject(v: Value, c: string)
    requires v.Object? && Legal(v) && v.members != []
    ensures v == Object(v.members, "")
  {
  }

  lemma PlacesAdvance(a: string, ms: seq<Member>, i: nat)
    requires i + 1 < |ms|
    ensures |UpToKey(a, ms, i)| <= |ThroughValue(a, ms, i)| <= |UpToKey(a, ms, i + 1)| <= |ThroughValue(a, ms, i + 1)|
  {
    PlacesLength(a, ms, i);
    PlacesLength(a, ms, i + 1);
    UpToNext(a, ms, i);
  }

  lemma DeletedBeforeText(a: string, ms: seq<Member>, i: nat, c: string)
    requires i + 1 < |ms|
    ensures var src := a + PrintTo(Object(ms, ""), c);
            && |UpToKey(a, ms, i)| <= |UpToKey(a, ms, i + 1)| <= |src|
            && Splice(src, |UpToKey(a, ms, i)|, |UpToKey(a, ms, i + 1)|, "") ==
                a + PrintTo(Object(DeleteAt(ms, i), ""), c)
  {
    hide UpToKey, FromKey, PrintTo, UpToValue, ThroughValue, Tail, Splice, DeleteAt;
    PlacesAdvance(a, ms, i);
    At(a, ms, i, c);
    At(a, ms, i + 1, c);
    DeletedBeforeAnother(a, ms, i, c);
    Cut(a + PrintTo(Object(ms, ""), c), UpToKey(a, ms, i), FromKey(ms[i], Tail(ms, i, c)),
        UpToKey(a, ms, i + 1), FromKey(ms[i + 1], Tail(ms, i + 1, c)));
  }

  lemma DeletedAfterText(a: string, ms: seq<Member>, i: nat, c: string)
    requires 0 < i && i + 1 == |ms|
    ensures var src := a + PrintTo(Object(ms, ""), c);
            && |ThroughValue(a, ms, i - 1)| <= |ThroughValue(a, ms, i)| <= |src|
            && Splice(src, |ThroughValue(a, ms, i - 1)|, |ThroughValue(a, ms, i)|, "")
               == a + PrintTo(Object(DeleteAt(ms, i), ""), c)
  {
    hide UpToKey, FromKey, PrintTo, UpToValue, ThroughValue, Tail, Splice, DeleteAt;
    PlacesAdvance(a, ms, i - 1);
    At(a, ms, i - 1, c);
    At(a, ms, i, c);
    DeletedAfterAnother(a, ms, i, c);
    Cut(a + PrintTo(Object(ms, ""), c), ThroughValue(a, ms, i - 1), ms[i - 1].post + Tail(ms, i - 1, c),
        ThroughValue(a, ms, i), ms[i].post + Tail(ms, i, c));
  }

  /** Dropping what stands between two places of a text. */
  lemma Cut(src: string, x: string, x': string, y: string, y': string)
    requires src == x + x' && src == y + y' && |x| <= |y|
    ensures Splice(src, |x|, |y|, "") == x + y'
  {
    assert src[..|x|] == x && src[|y|..] == y';
  }

  lemma DeletedText(a: string, v: Value, i: nat, c: string)
    requires v.Object? && Legal(v) && i < |v.members|
    ensures Fits(SpansOf(v, |a|), a + PrintTo(v, c))
    ensures DeleteMember(a + PrintTo(v, c), SpansOf(v, |a|), i) == a + PrintTo(Object(DeleteAt(v.members, i), ""), c)
  {
    hide UpToKey, FromKey, PrintMembersTo, UpToValue, ThroughValue, Print, PrintTo, SpanAt, Fits, Legal, Splice,
         DeleteAt;
    SpansFit(a, v, c);
    var ms, obj := v.members, SpansOf(v, |a|);
    assert forall k :: 0 <= k < |ms| ==> obj.members[k] == SpanAt(ms, |a|, k);
    PlacesAreSpans(a, ms, i);
    if i + 1 < |ms| {
      PrintOfObject(v, c);
      PlacesAreSpans(a, ms, i + 1);
      DeletedBeforeText(a, ms, i, c);
    } else if i > 0 {
      PrintOfObject(v, c);
      PlacesAreSpans(a, ms, i - 1);
      DeletedAfterText(a, ms, i, c);
    } else {
      EmptiedText(a, v, "", c);
      EmptyObjectText(c);
      DeletedOnly(ms);
    }
  }

  lemma EmptyObjectText(c: string)
    ensures PrintTo(Object([], ""), c) == "{" + ("" + ("}" + c))
  {
  }

  lemma DeletedOnly(ms: seq<Member>)
    requires |ms| == 1
    ensures DeleteAt(ms, 0) == []
  {
  }

  /** What stands between an object's braces. */
  lemma Braces(v: Value)
    requires v.Object? && Legal(v)
    ensures |Print(v)| >= 2 && Print(v) == "{" + (Print(v)[1..|Print(v)| - 1] + "}")
  {
    BracesFit(v);
    var inside := if v.members == [] then v.blank else PrintMembersTo(v.members, "");
    if v.members != [] {
      PrintMembersAppend(v.members, "", "}");
      assert "" + "}" == "}" && "}" + "" == "}";
    }
    assert Print(v) == "{" + (inside + "}");
    hide Print, PrintMembersTo;
    assert Print(v)[1..|Print(v)| - 1] == inside;
  }

  /** Writing between an object's braces. */
  lemma EmptiedText(a: string, v: Value, text: string, c: string)
    requires v.Object? && Legal(v)
    ensures var src := a + PrintTo(v, c);
            && |a| + 1 <= |a| + |Print(v)| - 1 <= |src|
            && Splice(src, |a| + 1, |a| + |Print(v)| - 1, text) == a + ("{" + (text + ("}" + c)))
  {
    hide PrintTo, Print, Splice, Legal;
    PrintThen(v, c);
    Braces(v);
    SpliceInside(a + PrintTo(v, c), a, Print(v)[1..|Print(v)| - 1], c, text);
  }

  lemma SpliceInside(src: string, a: string, inside: string, c: string, text: string)
    requires src == a + (("{" + (inside + "}")) + c)
    ensures Splice(src, |a| + 1, |a| + 1 + |inside|, text) == a + ("{" + (text + ("}" + c)))
  {
    assert src == (a + "{") + (inside + ("}" + c));
    SpliceBetween(src, a + "{", inside, "}" + c, text);
  }

  lemma InsertedText(a: string, v: Value, m: Member, unit: string, nl: string, c: string)
    requires v.Object? && Legal(v) && AllBlank(unit) && m.pre == "" && m.post == ""
    ensures Fits(SpansOf(v, |a|), a + PrintTo(v, c))
    ensures InsertMember(a + PrintTo(v, c), SpansOf(v, |a|), KeyText(m) + Print(m.value), unit, nl)
         == a + PrintTo(InsertInto(a + PrintTo(v, c), v, |a|, m, unit, nl), c)
  {
    hide Print, PrintTo, Fits, KeyText, InsertMember, InsertInto, Legal;
    SpansFit(a, v, c);
    if v.members != [] {
      PrintOfObject(v, c);
      InsertedAfter(a, v.members, m, unit, nl, c);
    } else {
      InsertedAlone(a, v, m, unit, nl, c);
    }
  }

  lemma InsertedAfter(a: string, ms: seq<Member>, m: Member, unit: string, nl: string, c: string)
    requires ms != [] && AllBlank(unit) && m.pre == "" && m.post == ""
    requires Fits(SpansOf(Object(ms, ""), |a|), a + PrintTo(Object(ms, ""), c))
    ensures var v := Object(ms, ""); var src := a + PrintTo(v, c);
            InsertMember(src, SpansOf(v, |a|), KeyText(m) + Print(m.value), unit, nl)
              == a + PrintTo(InsertInto(src, v, |a|, m, unit, nl), c)
  {
    hide Print, PrintTo, Fits, SpanAt, KeyText, Append, Splice, MemberIndent;
    var v := Object(ms, "");
    var src, entry := a + PrintTo(v, c), KeyText(m) + Print(m.value);
    var (indent, inline) := MemberIndent(src, SpansOf(v, |a|), unit);
    AppendedText(a, ms, m, if inline then " " else nl + indent, c);
    assert "," + (nl + indent) + entry == "," + nl + indent + entry;
    assert "," + " " + entry == ", " + entry;
  }

  lemma InsertedAlone(a: string, v: Value, m: Member, unit: string, nl: string, c: string)
    requires v.Object? && v.members == [] && Legal(v) && AllBlank(unit) && m.pre == "" && m.post == ""
    requires Fits(SpansOf(v, |a|), a + PrintTo(v, c))
    ensures var src := a + PrintTo(v, c);
            InsertMember(src, SpansOf(v, |a|), KeyText(m) + Print(m.value), unit, nl)
              == a + PrintTo(InsertInto(src, v, |a|, m, unit, nl), c)
  {
    hide Print, PrintTo, Fits, SpanAt, KeyText, Splice, MemberIndent, LineLeadingSpace, Legal;
    var src, entry := a + PrintTo(v, c), KeyText(m) + Print(m.value);
    var (indent, inline) := MemberIndent(src, SpansOf(v, |a|), unit);
    OpensWithin(SpansOf(v, |a|), src);
    var close := nl + LineLeadingSpace(src, |a|);
    EmptiedText(a, v, nl + indent + entry + close, c);
    BlockText(m, nl + indent, close, c);
    assert nl + indent + entry + close == nl + indent + entry + nl + LineLeadingSpace(src, |a|);
  }

  lemma OpensWithin(obj: Spans, src: string)
    requires Fits(obj, src)
    ensures obj.open <= |src|
  {
  }

  lemma AppendedText(a: string, ms: seq<Member>, m: Member, pre: string, c: string)
    requires ms != [] && m.pre == "" && m.post == ""
    requires Fits(SpansOf(Object(ms, ""), |a|), a + PrintTo(Object(ms, ""), c))
    ensures var end := SpanAt(ms, |a|, |ms| - 1).valEnd;
            var src := a + PrintTo(Object(ms, ""), c);
            && end <= |src|
            && Splice(src, end, end, "," + pre + (KeyText(m) + Print(m.value)))
               == a + PrintTo(Object(Append(ms, m.(pre := pre)), ""), c)
  {
    hide UpToKey, FromKey, PrintTo, UpToValue, ThroughValue, Tail, Print, SpanAt, Fits, KeyText, Append, Splice;
    var n, src := |ms| - 1, a + PrintTo(Object(ms, ""), c);
    PlacesAreSpans(a, ms, n);
    At(a, ms, n, c);
    Appended(a, ms, m.(pre := pre), c);
    KeyTextMoved(m, pre);
    var x, z := ThroughValue(a, ms, n), ms[n].post + Tail(ms, n, c);
    assert src == x + ("" + z) && x + "" == x;
    SpliceBetween(src, x, "", z, "," + pre + (KeyText(m) + Print(m.value)));
  }

  lemma KeyTextMoved(m: Member, pre: string)
    ensures KeyText(m.(pre := pre)) == KeyText(m)
  {
  }

  lemma BlockText(m: Member, pre: string, post: string, c: string)
    requires m.pre == "" && m.post == ""
    ensures PrintTo(Object([m.(pre := pre, post := post)], ""), c)
         == "{" + (pre + (KeyText(m) + Print(m.value)) + post + ("}" + c))
  {
    var end := m.(pre := pre, post := post);
    FromKeyParts(end, "}" + c);
    PrintThen(m.value, post + ("}" + c));
    assert KeyText(end) == KeyText(m);
    assert PrintMembersTo([end], "}" + c) == pre + FromKey(end, "}" + c);
    hide FromKey, PrintTo, Print, KeyText, PrintMembersTo;
  }

  // ---------------------------------------------------------------- a field's place

  function BeforeField(d: Document, i: nat): string
    requires d.value.Object? && i < |d.value.members|
  {
    UpToValue(d.pre, d.value.members, i)
  }

  function AfterField(d: Document, i: nat): string
    requires d.value.Object? && i < |d.value.members|
  {
    d.value.members[i].post + Tail(d.value.members, i, d.post)
  }

  lemma FieldPlace(d: Document, i: nat, v: Value)
    requires LegalDocument(d) && d.value.Object? && i < |d.value.members|
    ensures PrintDocument(d) == BeforeField(d, i) + PrintTo(d.value.members[i].value, AfterField(d, i))
    ensures PrintDocument(WithValue(d, i, v)) == BeforeField(d, i) + PrintTo(v, AfterField(d, i))
    ensures SpanAt(d.value.members, |d.pre|, i).valStart == |BeforeField(d, i)|
    ensures SpanAt(d.value.members, |d.pre|, i).valEnd == |BeforeField(d, i)| + |Print(d.value.members[i].value)|
  {
    PrintOfObject(d.value, d.post);
    PlacesAreSpans(d.pre, d.value.members, i);
    At(d.pre, d.value.members, i, d.post);
    ReplacedValue(d.pre, d.value.members, i, v, d.post);
  }

  lemma {:induction false} LegalEach(ms: seq<Member>)
    ensures LegalMembers(ms) <==> forall i :: 0 <= i < |ms| ==> LegalMember(ms[i])
  {
    hide LegalMember;
    if ms != [] {
      LegalEach(ms[1..]);
      assert forall i :: 0 < i < |ms| ==> ms[i] == ms[1..][i - 1];
      assert (forall i :: 0 <= i < |ms| ==> LegalMember(ms[i])) ==>
          forall i :: 0 <= i < |ms[1..]| ==> LegalMember(ms[1..][i]) by {
        assert forall i :: 0 <= i < |ms[1..]| ==> ms[1..][i] == ms[i + 1];
      }
    }
  }

  lemma WithValueIsLegal(d: Document, i: nat, v: Value)
    requires LegalDocument(d) && d.value.Object? && i < |d.value.members| && Legal(v)
    ensures LegalDocument(WithValue(d, i, v))
  {
    var ms := d.value.members;
    LegalEach(ms);
    LegalEach(ms[i := ms[i].(value := v)]);
  }

  lemma LegalMoved(m: Member, pre: string, post: string)
    requires LegalMember(m) && AllBlank(pre) && AllBlank(post)
    ensures LegalMember(m.(pre := pre)) && LegalMember(m.(post := post)) && LegalMember(m.(pre := pre, post := post))
  {
    hide Legal, AllBlank, IsBody;
  }

  lemma LegalParts(m: Member)
    requires LegalMember(m)
    ensures AllBlank(m.pre) && AllBlank(m.post) && Legal(m.value)
  {
  }

  lemma DeleteIsLegal(ms: seq<Member>, i: nat)
    requires LegalMembers(ms) && i < |ms|
    ensures LegalMembers(DeleteAt(ms, i))
  {
    hide LegalMembers, LegalMember, AllBlank, DeleteAt;
    var r := DeleteAt(ms, i);
    LegalEach(ms);
    LegalEach(r);
    LegalParts(ms[i]);
    if i + 1 < |ms| {
      LegalMoved(ms[i + 1], ms[i].pre, ms[i].post);
    } else if i > 0 {
      LegalMoved(ms[i - 1], ms[i].pre, ms[i].post);
    }
    DeletedAt(ms, i);
    forall k | 0 <= k < |r| ensures LegalMember(r[k]) {
      assert LegalMember(ms[k]);
      if k + 1 < |ms| { assert LegalMember(ms[k + 1]); }
    }
  }

  lemma DeletedAt(ms: seq<Member>, i: nat)
    requires i < |ms|
    ensures |DeleteAt(ms, i)| == |ms| - 1
    ensures var r := DeleteAt(ms, i);
            if i + 1 < |ms| then
              forall k :: 0 <= k < |r| ==>
                  r[k] == if k < i then ms[k] else if k == i then ms[i + 1].(pre := ms[i].pre) else ms[k + 1]
            else
              forall k :: 0 <= k < |r| ==> r[k] == if k < i - 1 then ms[k] else ms[i - 1].(post := ms[i].post)
  {
  }

  lemma {:induction false} TrimIsLegal(ms: seq<Member>, name: string, keep: nat)
    requires LegalMembers(ms)
    ensures LegalMembers(Trim(ms, name, keep))
    decreases Count(ms, name)
  {
    if Count(ms, name) > keep {
      var i := FirstIndex(ms, name);
      CountIsZero(ms, name);
      CountDeleted(ms, i, name);
      DeleteIsLegal(ms, i);
      TrimIsLegal(DeleteAt(ms, i), name, keep);
    }
  }

  // ---------------------------------------------------------------- parsing

  /** The object a stretch of the text holds, with its members' places in the whole text. */
  function ObjectIn(src: string, start: nat, end: nat): Result<Spans, JsonError>
    requires start <= end <= |src|
  {
    match ParseDocument(src[start..end])
    case None => Err(NotJson)
    case Some(d) => if d.value.Object? then Ok(SpansOf(d.value, start + |d.pre|)) else Err(NotAnObject)
  }

  /** A text the editor accepts: one JSON object and blanks around it. */
  predicate IsPackageJson(src: string) {
    ParseDocument(src).Some? && ParseDocument(src).value.value.Object?
  }

  function DocumentOf(src: string): (d: Document)
    requires IsPackageJson(src)
    ensures d.value.Object? && LegalDocument(d) && src == PrintDocument(d)
  {
    ParseDocumentExact(src, ParseDocument(src).value);
    ParseDocument(src).value
  }

  lemma DocumentOfPrint(d: Document)
    requires LegalDocument(d) && d.value.Object?
    ensures IsPackageJson(PrintDocument(d)) && DocumentOf(PrintDocument(d)) == d
  {
    ParseDocumentExact(PrintDocument(d), d);
  }

  function Rejection(src: string): JsonError
    requires !IsPackageJson(src)
  {
    if ParseDocument(src).None? then NotJson else NotAnObject
  }

  lemma MemberText(ms: seq<Member>, k: nat, c: string)
    requires k < |ms|
    ensures PrintMembersTo(ms[k..], "}" + c) == ms[k].pre + FromKey(ms[k], Tail(ms, k, c))
    ensures Starts(Tail(ms, k, c), ',') || Starts(Tail(ms, k, c), '}')
    ensures k + 1 < |ms| ==> Tail(ms, k, c) == "," + PrintMembersTo(ms[k + 1..], "}" + c)
    ensures k + 1 == |ms| ==> Tail(ms, k, c) == "}" + c
  {
    hide PrintTo;
    assert ms[k..][1..] == ms[k + 1..];
  }

  /** What the reader of an object's members has before it once it has read k of them. */
  function Ahead(v: Value, k: nat, c: string): string
    requires v.Object? && k <= |v.members|
  {
    if v.members == [] then v.blank + ("}" + c)
    else if k == 0 then PrintMembersTo(v.members, "}" + c)
    else v.members[k - 1].post + Tail(v.members, k - 1, c)
  }

  /** The separators before the next member's key, or before the closing brace. */
  function Gap(v: Value, k: nat): string
    requires v.Object? && k <= |v.members|
  {
    if v.members == [] then v.blank
    else if k == 0 then v.members[0].pre
    else v.members[k - 1].post + if k < |v.members| then "," + v.members[k].pre else ""
  }

  lemma AheadOfMember(v: Value, k: nat, c: string)
    requires v.Object? && Legal(v) && k < |v.members|
    ensures Ahead(v, k, c) == Gap(v, k) + FromKey(v.members[k], Tail(v.members, k, c))
    ensures AllSeparators(Gap(v, k)) && !Starts(Unblanked(Ahead(v, k, c)), '}')
  {
    hide FromKey, Tail, PrintMembersTo, Legal;
    var ms := v.members;
    MembersAreLegal(v);
    LegalMemberOf(ms, k);
    MemberText(ms, k, c);
    BlanksSeparate(ms[k].pre);
    var key := FromKey(ms[k], Tail(ms, k, c));
    KeyOpens(ms[k], Tail(ms, k, c));
    if k == 0 {
      assert ms[0..] == ms;
      BlanksThen(ms[0].pre, key);
    } else {
      LegalMemberOf(ms, k - 1);
      MemberText(ms, k - 1, c);
      BlanksSeparate(ms[k - 1].post);
      BlanksThen(ms[k - 1].post, Tail(ms, k - 1, c));
      assert Tail(ms, k - 1, c) == "," + (ms[k].pre + key);
      assert ms[k - 1].post + ("," + (ms[k].pre + key)) == (ms[k - 1].post + ("," + ms[k].pre)) + key;
    }
  }

  lemma KeyOpens(m: Member, tail: string)
    ensures Starts(FromKey(m, tail), '\"')
  {
    hide PrintTo;
  }

  lemma AheadOfEnd(v: Value, c: string)
    requires v.Object? && Legal(v)
    ensures var s := Ahead(v, |v.members|, c);
            Starts(Unblanked(s), '}') && NextToken(s) == Some((Closing, c))
  {
    hide Tail, PrintMembersTo, Legal, NextToken;
    var ms := v.members;
    ObjectIsLegal(v);
    assert [ '}' ] + c == "}" + c;
    if ms == [] {
      BlanksThen(v.blank, "}" + c);
      ClosingIsRead(v.blank, '}', c, 0);
    } else {
      LegalMemberOf(ms, |ms| - 1);
      MemberText(ms, |ms| - 1, c);
      BlanksThen(ms[|ms| - 1].post, "}" + c);
      ClosingIsRead(ms[|ms| - 1].post, '}', c, 0);
    }
  }

  lemma ObjectIsLegal(v: Value)
    requires v.Object? && Legal(v)
    ensures AllBlank(v.blank) && LegalMembers(v.members)
  {
  }

  /** Where the reader stands in the whole text after k members. */
  ghost predicate StandsAt(src: string, pos: nat, end: nat, open: nat, v: Value, k: nat, c: string)
    requires pos <= end <= |src| && v.Object? && k <= |v.members|
  {
    src[pos..end] == Ahead(v, k, c) && pos == if k == 0 then open + 1 else SpanAt(v.members, open, k - 1).valEnd
  }

  /** What reading a member's tokens gives: where its key starts, where its value starts, and
      what follows the value once its brackets are closed. */
  lemma MemberTokens(v: Value, k: nat, c: string)
    requires v.Object? && Legal(v) && k < |v.members|
    ensures var m, tail := v.members[k], Tail(v.members, k, c); var ahead := Ahead(v, k, c);
              var first := NextToken(ahead);
            && Separated(ahead) == FromKey(m, tail)
            && first.Some? && first.value.0 == Str(m.key)
            && var value := NextToken(first.value.1);
            && Separated(first.value.1) == PrintTo(m.value, m.post + tail)
            && value.Some? && Closed(Weight(value.value.0), value.value.1) == Some(m.post + tail)
  {
    hide FromKey, PrintTo, Tail, PrintMembersTo, Legal, NextToken, Separated, Ahead, Gap, LegalMember;
    var m, tail := v.members[k], Tail(v.members, k, c);
    MembersAreLegal(v);
    LegalMemberOf(v.members, k);
    PartsAreLegal(m);
    MemberText(v.members, k, c);
    AheadOfMember(v, k, c);
    SeparatorsPass(Gap(v, k), FromKey(m, tail));
    SeparatorsPass(m.pre, FromKey(m, tail)) by { BlanksSeparate(m.pre); }
    KeyIsRead(m, tail, 1);
    BlankOrRestFollows(m.post, tail);
    ValueIsSkipped(m.value, m.post + tail, 0);
    FirstToken(m.value, m.post + tail);
    ResumedIs(0, PrintTo(m.value, m.post + tail));
  }

  lemma PartsAreLegal(m: Member)
    requires LegalMember(m)
    ensures AllBlank(m.pre) && AllBlank(m.post) && Legal(m.value)
  {
  }

  lemma ResumedIs(depth: int, s: string)
    requires NextToken(s).Some?
    ensures Resumed(depth, s) == Closed(depth + Weight(NextToken(s).value.0), NextToken(s).value.1)
  {
    hide NextToken, Closed;
  }

  /** The places read are the member's span. */
  lemma MemberSpan(src: string, pos: nat, end: nat, open: nat, v: Value, k: nat, c: string, keyStart: nat,
                   valStart: nat, valEnd: nat)
    requires v.Object? && Legal(v) && k < |v.members|
    requires pos <= end <= |src| && StandsAt(src, pos, end, open, v, k, c)
    requires keyStart <= end && valStart <= end && valEnd <= end
    requires var m, tail := v.members[k], Tail(v.members, k, c);
             && src[keyStart..end] == FromKey(m, tail) && src[valStart..end] == PrintTo(m.value, m.post + tail)
             && src[valEnd..end] == m.post + tail
    ensures SpanAt(v.members, open, k) == Span(KeyName(v.members[k]), keyStart, valStart, valEnd)
    ensures StandsAt(src, valEnd, end, open, v, k + 1, c)
  {
    hide FromKey, PrintTo, Print, Tail, PrintMembersTo, Legal, Before, KeyText;
    var m, tail := v.members[k], Tail(v.members, k, c);
    AheadOfMember(v, k, c);
    FromKeyParts(m, tail);
    PrintThen(m.value, m.post + tail);
    assert |src[pos..end]| == |Gap(v, k)| + |FromKey(m, tail)|;
    if k == 0 {
      assert v.members[..0] == [];
      BeforeNone();
    } else {
      BeforeGrows(v.members, k - 1);
    }
  }

  lemma BeforeNone()
    ensures Before([]) == ""
  {
  }

  /** Reads one member token by token: its key's place, its value's place and its value's end. */
  method ReadMember(src: string, pos: nat, end: nat, ghost open: nat, ghost v: Value, ghost k: nat, ghost c: string)
    returns (span: Span)
    requires v.Object? && Legal(v) && k < |v.members|
    requires pos <= end <= |src| && StandsAt(src, pos, end, open, v, k, c)
    ensures span == SpanAt(v.members, open, k)
    ensures pos < span.valEnd <= end && StandsAt(src, span.valEnd, end, open, v, k + 1, c)
  {
    hide NextToken, Separated, FromKey, PrintTo, Tail, Legal, SpanAt, Ahead, Decode;
    MemberTokens(v, k, c);
    var keyStart, key, afterKey := ReadToken(src, pos, end);
    var valStart, first, inValue := ReadToken(src, afterKey, end);
    var valEnd := SkipValue(src, inValue, end, first);
    MemberSpan(src, pos, end, open, v, k, c, keyStart, valStart, valEnd);
    NameOfKey(v, k);
    span := Span(Decode(key.body), keyStart, valStart, valEnd);
  }

  lemma NameOfKey(v: Value, k: nat)
    requires v.Object? && Legal(v) && k < |v.members|
    ensures IsBody(v.members[k].key) && KeyName(v.members[k]) == Decode(v.members[k].key)
  {
    hide Decode;
    MembersAreLegal(v);
    LegalMemberOf(v.members, k);
  }

  /** Reads an object's members up to its closing brace, and where that brace ends. */
  method ReadMembers(src: string, open: nat, end: nat, ghost v: Value, ghost c: string)
    returns (members: seq<Span>, close: int)
    requires open < end <= |src| && v.Object? && Legal(v)
    requires StandsAt(src, open + 1, end, open, v, 0, c)
    ensures |members| == |v.members| && forall i :: 0 <= i < |members| ==> members[i] == SpanAt(v.members, open, i)
    ensures close == end - |c|
  {
    hide Ahead, Unblanked, SpanAt, Legal, NextToken;
    members := [];
    var pos := open + 1;
    AheadIs(v, c);
    while !Starts(Unblanked(src[pos..end]), '}')
      invariant open < pos <= end && |members| <= |v.members|
      invariant StandsAt(src, pos, end, open, v, |members|, c)
      invariant forall i :: 0 <= i < |members| ==> members[i] == SpanAt(v.members, open, i)
      decreases |v.members| - |members|
    {
      var span := ReadMember(src, pos, end, open, v, |members|, c);
      members, pos := members + [span], span.valEnd;
    }
    var _, _, after := ReadToken(src, pos, end);
    assert |src[after..end]| == |c|;
    close := after;
  }

  /** Whether another member is ahead shows in the next character that is not blank. */
  lemma AheadIs(v: Value, c: string)
    requires v.Object? && Legal(v)
    ensures forall k: nat :: k <= |v.members| ==> (Starts(Unblanked(Ahead(v, k, c)), '}') <==> k == |v.members|)
    ensures NextToken(Ahead(v, |v.members|, c)) == Some((Closing, c))
  {
    hide Ahead, Unblanked, Legal, NextToken, Gap;
    AheadOfEnd(v, c);
    forall k: nat | k < |v.members| ensures !Starts(Unblanked(Ahead(v, k, c)), '}') { AheadOfMember(v, k, c); }
  }

  /** Parses the object a stretch of valid JSON holds, member by member. */
  method ParseObject(src: string, start: nat, end: nat) returns (r: Result<Spans, JsonError>)
    requires start <= end <= |src| && ParseDocument(src[start..end]).Some?
    ensures r == ObjectIn(src, start, end)
  {
    hide SpanAt, SpansOf, ObjectIn, ParseDocument, Print, PrintTo, Unblanked, StandsAt, Legal, NextToken, Separated;
    ghost var d := ParseDocument(src[start..end]).value;
    ObjectInIs(src, start, end, d);
    BeginsObject(src, start, end, d);
    var open, first, _ := ReadToken(src, start, end);
    if first != Opening('{') {
      return Err(NotAnObject);
    }
    assert |src[open..end]| == |PrintTo(d.value, d.post)|;
    var members, close := ReadMembers(src, open, end, d.value, d.post);
    SpansAreThese(d.value, open, members);
    r := Ok(Spans(open, close, members));
  }

  lemma SpansAreThese(v: Value, open: nat, members: seq<Span>)
    requires v.Object? && |members| == |v.members|
    requires forall i :: 0 <= i < |members| ==> members[i] == SpanAt(v.members, open, i)
    ensures SpansOf(v, open) == Spans(open, open + |Print(v)|, members)
  {
    hide SpanAt, Print;
  }

  lemma ObjectInIs(src: string, start: nat, end: nat, d: Document)
    requires start <= end <= |src| && ParseDocument(src[start..end]) == Some(d)
    ensures ObjectIn(src, start, end) == if d.value.Object? then Ok(SpansOf(d.value, start + |d.pre|))
              else Err(NotAnObject)
  {
    hide ParseDocument, SpansOf;
  }

  lemma BeginsObject(src: string, start: nat, end: nat, d: Document)
    requires start <= end <= |src| && ParseDocument(src[start..end]) == Some(d)
    ensures var text := PrintTo(d.value, d.post); var open := end - |text|;
            && Separated(src[start..end]) == text && NextToken(src[start..end]).Some?
            && (NextToken(src[start..end]).value.0 == Opening('{') <==> d.value.Object?)
            && (d.value.Object? ==>
                  && Legal(d.value) && open == start + |d.pre| && open < end
                  && |text| == |Print(d.value)| + |d.post|
                  && StandsAt(src, open + 1, end, open, d.value, 0, d.post))
  {
    hide PrintTo, Print, ParseDocument, Legal, NextToken, Separated;
    ParseDocumentExact(src[start..end], d);
    var text := PrintTo(d.value, d.post);
    BlanksSeparate(d.pre);
    SeparatorsPass(d.pre, text);
    FollowsBlanks(d.value, d.post);
    FirstToken(d.value, d.post);
    PrintThen(d.value, d.post);
    assert src[start..end] == d.pre + text;
    if d.value.Object? {
      ObjectText(d.value, d.post);
      SuffixAfter(src, start, end, d.pre, text);
    }
  }

  lemma FollowsBlanks(v: Value, blank: string)
    requires AllBlank(blank)
    ensures Follows(v, blank)
  {
    if blank != "" { assert IsBlank(blank[0]); }
  }

  lemma ObjectText(v: Value, c: string)
    requires v.Object?
    ensures PrintTo(v, c) != "" && PrintTo(v, c)[1..] == Ahead(v, 0, c)
  {
  }

  lemma SuffixAfter(src: string, start: nat, end: nat, x: string, text: string)
    requires start <= end <= |src| && src[start..end] == x + text && text != ""
    ensures end - |text| == start + |x| && src[end - |text| + 1..end] == text[1..]
  {
    assert forall k :: 0 < k < |text| ==> src[start + |x| + k] == src[start..end][|x| + k] == text[k];
  }

  lemma MembersAreLegal(v: Value)
    requires Legal(v) && v.Object?
    ensures LegalMembers(v.members)
  {
  }

  lemma ValueBegins(v: Value, c: string)
    requires Legal(v)
    ensures PrintTo(v, c) != "" && (PrintTo(v, c)[0] == '{' <==> v.Object?)
  {
    PrintStartsValue(v, c);
    if v.Atom? { assert IsAtomChar(v.text[0]); }
  }
}
