/** JSON documents with every byte of their concrete syntax: printing them, parsing
    them (RFC 8259, sections 2 to 5), and that the two are inverse. */
module JsonTree {
  import opened Wrappers
  import opened JsonText

  /** A value as written. Blanks are kept where they stand: inside an empty object or
      array, and around each member's key, colon and value. */
  datatype Value =
    | Text(body: string)
    | Atom(text: string)
    | Object(members: seq<Member>, blank: string)
    | Array(items: seq<Item>, blank: string)

  datatype Member = Member(pre: string, key: string, mid: string, gap: string, value: Value, post: string)

  datatype Item = Item(pre: string, value: Value, post: string)

  datatype Document = Document(pre: string, value: Value, post: string)

  // ---------------------------------------------------------------- printing

  /** A value as written, followed by what comes after it. */
  function PrintTo(v: Value, after: string): string
    decreases v, 1
  {
    match v
    case Text(body) => "\"" + (body + ("\"" + after))
    case Atom(text) => text + after
    case Object(members, blank) =>
      "{" + (if members == [] then blank + ("}" + after) else PrintMembersTo(members, "}" + after))
    case Array(items, blank) =>
      "[" + (if items == [] then blank + ("]" + after) else PrintItemsTo(items, "]" + after))
  }

  /** A member from its key's opening quote on. */
  function FromKey(m: Member, after: string): string
    decreases m, 2
  {
    "\"" + (m.key + ("\"" + (m.mid + (":" + (m.gap + PrintTo(m.value, m.post + after))))))
  }

  function PrintMemberTo(m: Member, after: string): string
    decreases m, 3
  {
    m.pre + FromKey(m, after)
  }

  function PrintMembersTo(ms: seq<Member>, after: string): string
    requires ms != []
    decreases ms, 0
  {
    PrintMemberTo(ms[0], if |ms| == 1 then after else "," + PrintMembersTo(ms[1..], after))
  }

  function PrintItemTo(item: Item, after: string): string
    decreases item, 2
  {
    item.pre + PrintTo(item.value, item.post + after)
  }

  function PrintItemsTo(items: seq<Item>, after: string): string
    requires items != []
    decreases items, 0
  {
    PrintItemTo(items[0], if |items| == 1 then after else "," + PrintItemsTo(items[1..], after))
  }

  function Print(v: Value): string {
    PrintTo(v, "")
  }

  function PrintDocument(d: Document): string {
    d.pre + PrintTo(d.value, d.post)
  }

  // ---------------------------------------------------------------- legality

  predicate Legal(v: Value)
    decreases v, 1
  {
    match v
    case Text(body) => IsBody(body)
    case Atom(text) => IsAtom(text)
    case Object(members, blank) => AllBlank(blank) && (members != [] ==> blank == "") && LegalMembers(members)
    case Array(items, blank) => AllBlank(blank) && (items != [] ==> blank == "") && LegalItems(items)
  }

  predicate LegalMember(m: Member)
    decreases m, 2
  {
    AllBlank(m.pre) && IsBody(m.key) && AllBlank(m.mid) && AllBlank(m.gap) && Legal(m.value) && AllBlank(m.post)
  }

  predicate LegalMembers(ms: seq<Member>)
    decreases ms, 0
  {
    ms == [] || (LegalMember(ms[0]) && LegalMembers(ms[1..]))
  }

  predicate LegalItem(item: Item)
    decreases item, 2
  {
    AllBlank(item.pre) && Legal(item.value) && AllBlank(item.post)
  }

  predicate LegalItems(items: seq<Item>)
    decreases items, 0
  {
    items == [] || (LegalItem(items[0]) && LegalItems(items[1..]))
  }

  predicate LegalDocument(d: Document) {
    AllBlank(d.pre) && Legal(d.value) && AllBlank(d.post)
  }

  // ---------------------------------------------------------------- parsing

  function Blanks(s: string): string {
    s[..BlankRun(s)]
  }

  function Unblanked(s: string): string {
    s[BlankRun(s)..]
  }

  predicate Starts(s: string, c: char) {
    s != "" && s[0] == c
  }

  function ParseValue(s: string): (r: Option<(Value, string)>)
    ensures r.Some? ==> |r.value.1| < |s|
    decreases |s|, 1
  {
    if s == "" then None
    else if s[0] == '\"' then
      match ScanBody(s[1..])
      case None => None
      case Some((body, rest)) => Some((Text(body), rest))
    else if s[0] == '{' then
      var inner := s[1..];
      if Starts(Unblanked(inner), '}') then Some((Object([], Blanks(inner)), Unblanked(inner)[1..]))
      else
        match ParseMembers(inner)
        case None => None
        case Some((members, rest)) => Some((Object(members, ""), rest))
    else if s[0] == '[' then
      var inner := s[1..];
      if Starts(Unblanked(inner), ']') then Some((Array([], Blanks(inner)), Unblanked(inner)[1..]))
      else
        match ParseItems(inner)
        case None => None
        case Some((items, rest)) => Some((Array(items, ""), rest))
    else
      var n := AtomRun(s);
      if IsAtom(s[..n]) then Some((Atom(s[..n]), s[n..])) else None
  }

  /** The key of a member, from its opening quote to the blanks after its colon. */
  function ParseKey(s: string): (r: Option<(string, string, string, string)>)
    ensures r.Some? ==> |r.value.3| < |s|
  {
    if !Starts(s, '\"') then None
    else
      match ScanBody(s[1..])
      case None => None
      case Some((key, s1)) =>
        var s2 := Unblanked(s1);
        if !Starts(s2, ':') then None
        else Some((key, Blanks(s1), Blanks(s2[1..]), Unblanked(s2[1..])))
  }

  function ParseMember(s: string): (r: Option<(Member, string)>)
    ensures r.Some? ==> |r.value.1| < |s|
    decreases |s|, 2
  {
    match ParseKey(Unblanked(s))
    case None => None
    case Some((key, mid, gap, s1)) =>
      match ParseValue(s1)
      case None => None
      case Some((value, s2)) => Some((Member(Blanks(s), key, mid, gap, value, Blanks(s2)), Unblanked(s2)))
  }

  function ParseMembers(s: string): (r: Option<(seq<Member>, string)>)
    ensures r.Some? ==> |r.value.1| < |s|
    decreases |s|, 3
  {
    match ParseMember(s)
    case None => None
    case Some((m, s1)) =>
      if Starts(s1, '}') then Some(([m], s1[1..]))
      else if !Starts(s1, ',') then None
      else
        match ParseMembers(s1[1..])
        case None => None
        case Some((ms, rest)) => Some(([m] + ms, rest))
  }

  function ParseItem(s: string): (r: Option<(Item, string)>)
    ensures r.Some? ==> |r.value.1| < |s|
    decreases |s|, 2
  {
    match ParseValue(Unblanked(s))
    case None => None
    case Some((value, s1)) => Some((Item(Blanks(s), value, Blanks(s1)), Unblanked(s1)))
  }

  function ParseItems(s: string): (r: Option<(seq<Item>, string)>)
    ensures r.Some? ==> |r.value.1| < |s|
    decreases |s|, 3
  {
    match ParseItem(s)
    case None => None
    case Some((item, s1)) =>
      if Starts(s1, ']') then Some(([item], s1[1..]))
      else if !Starts(s1, ',') then None
      else
        match ParseItems(s1[1..])
        case None => None
        case Some((items, rest)) => Some(([item] + items, rest))
  }

  function ParseDocument(s: string): Option<Document> {
    match ParseValue(Unblanked(s))
    case None => None
    case Some((value, rest)) => if Unblanked(rest) == "" then Some(Document(Blanks(s), value, Blanks(rest))) else None
  }

  // ---------------------------------------------------------------- completeness

  /** What may follow a value: for a number or a word, nothing that would extend it. */
  predicate Follows(v: Value, rest: string) {
    v.Atom? ==> rest == "" || !IsAtomChar(rest[0])
  }

  lemma BlanksThen(blank: string, rest: string)
    requires AllBlank(blank) && (rest == "" || !IsBlank(rest[0]))
    ensures Blanks(blank + rest) == blank && Unblanked(blank + rest) == rest
  {
    BlankRunExact(blank, rest);
  }

  lemma PrintStartsValue(v: Value, rest: string)
    requires Legal(v)
    ensures PrintTo(v, rest) != ""
    ensures var c := PrintTo(v, rest)[0]; !IsBlank(c) && c != '}' && c != ']'
  {
    if v.Atom? { assert IsAtomChar(v.text[0]); }
  }

  lemma BlanksThenValue(blank: string, v: Value, rest: string)
    requires AllBlank(blank) && Legal(v)
    ensures Blanks(blank + PrintTo(v, rest)) == blank && Unblanked(blank + PrintTo(v, rest)) == PrintTo(v, rest)
  {
    PrintStartsValue(v, rest);
    BlanksThen(blank, PrintTo(v, rest));
  }

  lemma ParseTextComplete(body: string, rest: string)
    requires IsBody(body)
    ensures ParseValue("\"" + (body + ("\"" + rest))) == Some((Text(body), rest))
  {
    var s := "\"" + (body + ("\"" + rest));
    assert s[1..] == body + "\"" + rest;
    ScanBodyComplete(body, rest);
  }

  lemma ParseAtomComplete(text: string, rest: string)
    requires IsAtom(text) && (rest == "" || !IsAtomChar(rest[0]))
    ensures ParseValue(text + rest) == Some((Atom(text), rest))
  {
    var s := text + rest;
    AtomRunExact(text, rest);
    assert s[..|text|] == text && s[|text|..] == rest;
    assert IsAtomChar(text[0]);
  }

  /** How an opening brace is read: an empty object, or members. */
  lemma ParseObjectStep(inner: string)
    ensures ParseValue("{" + inner) ==
      if Starts(Unblanked(inner), '}') then Some((Object([], Blanks(inner)), Unblanked(inner)[1..]))
      else if ParseMembers(inner).None? then None
      else Some((Object(ParseMembers(inner).value.0, ""), ParseMembers(inner).value.1))
  {
    var s := "{" + inner;
    assert s[0] == '{' && s[1..] == inner;
  }

  lemma ParseArrayStep(inner: string)
    ensures ParseValue("[" + inner) ==
      if Starts(Unblanked(inner), ']') then Some((Array([], Blanks(inner)), Unblanked(inner)[1..]))
      else if ParseItems(inner).None? then None
      else Some((Array(ParseItems(inner).value.0, ""), ParseItems(inner).value.1))
  {
    var s := "[" + inner;
    assert s[0] == '[' && s[1..] == inner;
  }

  lemma {:induction false} ParseValueComplete(v: Value, rest: string)
    requires Legal(v) && Follows(v, rest)
    ensures ParseValue(PrintTo(v, rest)) == Some((v, rest))
    decreases v, 1
  {
    hide ParseValue, ParseMembers, ParseItems;
    match v {
      case Text(body) => ParseTextComplete(body, rest);
      case Atom(text) => ParseAtomComplete(text, rest);
      case Object(members, blank) =>
        if members == [] {
          ParseObjectStep(blank + ("}" + rest));
          BlanksThen(blank, "}" + rest);
        } else {
          ParseObjectStep(PrintMembersTo(members, "}" + rest));
          MembersDoNotClose(members, "}" + rest);
          ParseMembersComplete(members, rest);
        }
      case Array(items, blank) =>
        if items == [] {
          ParseArrayStep(blank + ("]" + rest));
          BlanksThen(blank, "]" + rest);
        } else {
          ParseArrayStep(PrintItemsTo(items, "]" + rest));
          ItemsDoNotClose(items, "]" + rest);
          ParseItemsComplete(items, rest);
        }
    }
  }

  lemma MembersDoNotClose(ms: seq<Member>, rest: string)
    requires ms != [] && LegalMember(ms[0])
    ensures Starts(Unblanked(PrintMembersTo(ms, rest)), '\"')
  {
    BlanksThen(ms[0].pre, FromKey(ms[0], if |ms| == 1 then rest else "," + PrintMembersTo(ms[1..], rest)));
  }

  lemma ItemsDoNotClose(items: seq<Item>, rest: string)
    requires items != [] && LegalItem(items[0])
    ensures !Starts(Unblanked(PrintItemsTo(items, rest)), ']')
  {
    var item := items[0];
    var tail := item.post + (if |items| == 1 then rest else "," + PrintItemsTo(items[1..], rest));
    BlanksThenValue(item.pre, item.value, tail);
    PrintStartsValue(item.value, tail);
  }

  lemma ParseKeyComplete(m: Member, after: string)
    requires LegalMember(m)
    ensures ParseKey(FromKey(m, after)) == Some((m.key, m.mid, m.gap, PrintTo(m.value, m.post + after)))
  {
    var s3 := PrintTo(m.value, m.post + after);
    var s2 := ":" + (m.gap + s3);
    var s1 := m.mid + s2;
    assert FromKey(m, after)[1..] == m.key + "\"" + s1;
    ScanBodyComplete(m.key, s1);
    BlanksThen(m.mid, s2);
    assert s2[1..] == m.gap + s3;
    BlanksThenValue(m.gap, m.value, m.post + after);
  }

  lemma ParseMemberStep(s: string, key: string, mid: string, gap: string, s1: string, value: Value, s2: string)
    requires ParseKey(Unblanked(s)) == Some((key, mid, gap, s1)) && ParseValue(s1) == Some((value, s2))
    ensures ParseMember(s) == Some((Member(Blanks(s), key, mid, gap, value, Blanks(s2)), Unblanked(s2)))
  {
    hide ParseKey, ParseValue, Blanks, Unblanked;
  }

  lemma {:induction false} ParseMemberComplete(m: Member, rest: string)
    requires LegalMember(m) && (Starts(rest, ',') || Starts(rest, '}'))
    ensures ParseMember(PrintMemberTo(m, rest)) == Some((m, rest))
    decreases m, 2
  {
    hide ParseValue, ParseMember, PrintTo, Blanks, Unblanked, ParseKey, Legal, IsBody;
    BlanksThen(m.pre, FromKey(m, rest));
    ParseKeyComplete(m, rest);
    BlankOrRestFollows(m.post, rest);
    ParseValueComplete(m.value, m.post + rest);
    BlanksThen(m.post, rest);
    ParseMemberStep(PrintMemberTo(m, rest), m.key, m.mid, m.gap, PrintTo(m.value, m.post + rest), m.value,
                    m.post + rest);
  }

  lemma BlankOrRestFollows(blank: string, rest: string)
    requires AllBlank(blank) && rest != "" && !IsAtomChar(rest[0])
    ensures blank + rest != "" && !IsAtomChar((blank + rest)[0])
  {
    if blank != "" { assert IsBlank(blank[0]); }
  }

  lemma {:induction false} ParseMembersComplete(ms: seq<Member>, rest: string)
    requires ms != [] && LegalMembers(ms)
    ensures ParseMembers(PrintMembersTo(ms, "}" + rest)) == Some((ms, rest))
    decreases ms, 0
  {
    hide ParseMember, PrintMemberTo;
    if |ms| == 1 {
      ParseMemberComplete(ms[0], "}" + rest);
      assert ms == [ms[0]];
    } else {
      var tail := PrintMembersTo(ms[1..], "}" + rest);
      ParseMemberComplete(ms[0], "," + tail);
      assert ("," + tail)[1..] == tail;
      ParseMembersComplete(ms[1..], rest);
      assert ms == [ms[0]] + ms[1..];
    }
  }

  lemma {:induction false} ParseItemComplete(item: Item, rest: string)
    requires LegalItem(item) && (Starts(rest, ',') || Starts(rest, ']'))
    ensures ParseItem(PrintItemTo(item, rest)) == Some((item, rest))
    decreases item, 2
  {
    hide ParseValue, PrintTo, Blanks, Unblanked;
    BlanksThenValue(item.pre, item.value, item.post + rest);
    BlankOrRestFollows(item.post, rest);
    ParseValueComplete(item.value, item.post + rest);
    BlanksThen(item.post, rest);
  }

  lemma {:induction false} ParseItemsComplete(items: seq<Item>, rest: string)
    requires items != [] && LegalItems(items)
    ensures ParseItems(PrintItemsTo(items, "]" + rest)) == Some((items, rest))
    decreases items, 0
  {
    hide ParseItem, PrintItemTo;
    if |items| == 1 {
      ParseItemComplete(items[0], "]" + rest);
      assert items == [items[0]];
    } else {
      var tail := PrintItemsTo(items[1..], "]" + rest);
      ParseItemComplete(items[0], "," + tail);
      assert ("," + tail)[1..] == tail;
      ParseItemsComplete(items[1..], rest);
      assert items == [items[0]] + items[1..];
    }
  }

  /** Every legal document is read back exactly as it was written. */
  lemma ParseDocumentComplete(d: Document)
    requires LegalDocument(d)
    ensures ParseDocument(PrintDocument(d)) == Some(d)
  {
    hide ParseValue, PrintTo, Blanks, Unblanked;
    BlanksThenValue(d.pre, d.value, d.post);
    if d.post != "" { assert IsBlank(d.post[0]); }
    ParseValueComplete(d.value, d.post);
    assert d.post + "" == d.post;
    BlanksThen(d.post, "");
  }

  // ---------------------------------------------------------------- soundness

  lemma Unblank(s: string)
    ensures s == Blanks(s) + Unblanked(s) && AllBlank(Blanks(s))
  {
  }

  lemma StartsWith(s: string, c: char)
    requires Starts(s, c)
    ensures s == [c] + s[1..]
  {
  }

  lemma {:induction false} ParseValueSound(s: string)
    requires ParseValue(s).Some?
    ensures s == PrintTo(ParseValue(s).value.0, ParseValue(s).value.1) && Legal(ParseValue(s).value.0)
    decreases |s|, 1
  {
    if s[0] == '\"' {
      ParseTextSound(s);
    } else if s[0] == '{' {
      StartsWith(s, '{');
      ParseObjectStep(s[1..]);
      if Starts(Unblanked(s[1..]), '}') { EmptySound(s[1..], '}'); } else { ParseMembersSound(s[1..]); }
      hide ParseValue, ParseMembers, Blanks, Unblanked;
    } else if s[0] == '[' {
      StartsWith(s, '[');
      ParseArrayStep(s[1..]);
      if Starts(Unblanked(s[1..]), ']') { EmptySound(s[1..], ']'); } else { ParseItemsSound(s[1..]); }
      hide ParseValue, ParseItems, Blanks, Unblanked;
    }
  }

  lemma ParseTextSound(s: string)
    requires Starts(s, '\"') && ParseValue(s).Some?
    ensures s == PrintTo(ParseValue(s).value.0, ParseValue(s).value.1) && Legal(ParseValue(s).value.0)
  {
    hide ScanBody, IsBody;
    var (body, rest) := ScanBody(s[1..]).value;
    ScanBodySound(s[1..]);
    assert s == "\"" + (body + ("\"" + rest));
  }

  lemma EmptySound(s: string, close: char)
    requires Starts(Unblanked(s), close)
    ensures s == Blanks(s) + ([close] + Unblanked(s)[1..]) && AllBlank(Blanks(s))
  {
    Unblank(s);
    StartsWith(Unblanked(s), close);
  }

  lemma ParseKeySound(s: string)
    requires ParseKey(s).Some?
    ensures var (key, mid, gap, rest) := ParseKey(s).value;
            && s == "\"" + (key + ("\"" + (mid + (":" + (gap + rest)))))
            && IsBody(key) && AllBlank(mid) && AllBlank(gap)
  {
    hide Blanks, Unblanked, ScanBody, IsBody, Starts;
    var (key, s1) := ScanBody(s[1..]).value;
    var s2 := Unblanked(s1);
    StartsWith(s, '\"');
    StartsWith(s2, ':');
    ScanBodySound(s[1..]);
    Unblank(s1);
    Unblank(s2[1..]);
    KeyJoined(s, s[1..], key, s1, Blanks(s1), s2, s2[1..], Blanks(s2[1..]), Unblanked(s2[1..]));
  }

  lemma KeyJoined(s: string, s0: string, key: string, s1: string, mid: string, s2: string, s3: string, gap: string,
                  rest: string)
    requires s == ['\"'] + s0 && s0 == key + "\"" + s1 && s1 == mid + s2 && s2 == [':'] + s3 && s3 == gap + rest
    ensures s == "\"" + (key + ("\"" + (mid + (":" + (gap + rest)))))
  {
  }

  lemma {:induction false} ParseMemberSound(s: string)
    requires ParseMember(s).Some?
    ensures s == PrintMemberTo(ParseMember(s).value.0, ParseMember(s).value.1) && LegalMember(ParseMember(s).value.0)
    decreases |s|, 2
  {
    hide ParseValue, ParseKey, Blanks, Unblanked, PrintTo, Legal;
    Unblank(s);
    ParseKeySound(Unblanked(s));
    var (key, mid, gap, s1) := ParseKey(Unblanked(s)).value;
    ParseValueSound(s1);
    Unblank(ParseValue(s1).value.1);
  }

  lemma {:induction false} ParseMembersSound(s: string)
    requires ParseMembers(s).Some?
    ensures var (ms, rest) := ParseMembers(s).value;
            ms != [] && s == PrintMembersTo(ms, "}" + rest) && LegalMembers(ms)
    decreases |s|, 3
  {
    hide ParseMember, PrintMemberTo, LegalMember;
    ParseMemberSound(s);
    var (m, s1) := ParseMember(s).value;
    if Starts(s1, '}') {
      StartsWith(s1, '}');
      assert [m][1..] == [];
    } else {
      StartsWith(s1, ',');
      ParseMembersSound(s1[1..]);
      var (ms, rest) := ParseMembers(s1[1..]).value;
      assert ([m] + ms)[1..] == ms;
    }
  }

  lemma {:induction false} ParseItemSound(s: string)
    requires ParseItem(s).Some?
    ensures s == PrintItemTo(ParseItem(s).value.0, ParseItem(s).value.1) && LegalItem(ParseItem(s).value.0)
    decreases |s|, 2
  {
    hide ParseValue, Blanks, Unblanked, PrintTo, Legal;
    Unblank(s);
    ParseValueSound(Unblanked(s));
    Unblank(ParseValue(Unblanked(s)).value.1);
  }

  lemma {:induction false} ParseItemsSound(s: string)
    requires ParseItems(s).Some?
    ensures var (items, rest) := ParseItems(s).value;
            items != [] && s == PrintItemsTo(items, "]" + rest) && LegalItems(items)
    decreases |s|, 3
  {
    hide ParseItem, PrintItemTo, LegalItem;
    ParseItemSound(s);
    var (item, s1) := ParseItem(s).value;
    if Starts(s1, ']') {
      StartsWith(s1, ']');
      assert [item][1..] == [];
    } else {
      StartsWith(s1, ',');
      ParseItemsSound(s1[1..]);
      var (items, rest) := ParseItems(s1[1..]).value;
      assert ([item] + items)[1..] == items;
    }
  }

  /** A document that parses is exactly the print of a legal document: nothing in it is
      dropped or read twice, and no other document prints to it. */
  lemma ParseDocumentExact(s: string, d: Document)
    ensures ParseDocument(s) == Some(d) <==> LegalDocument(d) && s == PrintDocument(d)
  {
    if ParseDocument(s).Some? {
      Unblank(s);
      ParseValueSound(Unblanked(s));
      var (value, rest) := ParseValue(Unblanked(s)).value;
      Unblank(rest);
      assert rest == Blanks(rest);
    }
    if LegalDocument(d) { ParseDocumentComplete(d); }
  }
}
