/** Where the members of an object stand in its source text, and what cutting, replacing
    or adding text at those places makes of the object. */
module JsonSpans {
  import opened JsonText
  import opened JsonTree

  /** One member's key, decoded, and the offsets of its key and value. */
  datatype Span = Span(key: string, keyStart: nat, valStart: nat, valEnd: nat)

  /** An object's braces, `close` being one past the last, and its members. */
  datatype Spans = Spans(open: nat, close: nat, members: seq<Span>)

  // ---------------------------------------------------------------- text of a prefix

  lemma {:induction false} PrintToAppend(v: Value, a: string, b: string)
    ensures PrintTo(v, a + b) == PrintTo(v, a) + b
    decreases v, 1
  {
    match v {
      case Text(body) => assert body + ("\"" + (a + b)) == body + ("\"" + a) + b;
      case Atom(text) =>
      case Object(members, blank) =>
        if members != [] { PrintMembersAppend(members, "}" + a, b); }
        assert "}" + (a + b) == "}" + a + b;
      case Array(items, blank) =>
        if items != [] { PrintItemsAppend(items, "]" + a, b); }
        assert "]" + (a + b) == "]" + a + b;
    }
  }

  lemma {:induction false} FromKeyAppend(m: Member, a: string, b: string)
    ensures FromKey(m, a + b) == FromKey(m, a) + b
    decreases m, 2
  {
    assert m.post + (a + b) == m.post + a + b;
    PrintToAppend(m.value, m.post + a, b);
  }

  lemma {:induction false} PrintMemberAppend(m: Member, a: string, b: string)
    ensures PrintMemberTo(m, a + b) == PrintMemberTo(m, a) + b
    decreases m, 3
  {
    FromKeyAppend(m, a, b);
  }

  lemma {:induction false} PrintMembersAppend(ms: seq<Member>, a: string, b: string)
    requires ms != []
    ensures PrintMembersTo(ms, a + b) == PrintMembersTo(ms, a) + b
    decreases ms, 0
  {
    if |ms| == 1 {
      PrintMemberAppend(ms[0], a, b);
    } else {
      PrintMembersAppend(ms[1..], a, b);
      assert "," + PrintMembersTo(ms[1..], a + b) == "," + PrintMembersTo(ms[1..], a) + b;
      PrintMemberAppend(ms[0], "," + PrintMembersTo(ms[1..], a), b);
    }
  }

  lemma {:induction false} PrintItemAppend(item: Item, a: string, b: string)
    ensures PrintItemTo(item, a + b) == PrintItemTo(item, a) + b
    decreases item, 2
  {
    assert item.post + (a + b) == item.post + a + b;
    PrintToAppend(item.value, item.post + a, b);
  }

  lemma {:induction false} PrintItemsAppend(items: seq<Item>, a: string, b: string)
    requires items != []
    ensures PrintItemsTo(items, a + b) == PrintItemsTo(items, a) + b
    decreases items, 0
  {
    if |items| == 1 {
      PrintItemAppend(items[0], a, b);
    } else {
      PrintItemsAppend(items[1..], a, b);
      assert "," + PrintItemsTo(items[1..], a + b) == "," + PrintItemsTo(items[1..], a) + b;
      PrintItemAppend(items[0], "," + PrintItemsTo(items[1..], a), b);
    }
  }

  lemma PrintThen(v: Value, after: string)
    ensures PrintTo(v, after) == Print(v) + after
  {
    assert "" + after == after;
    PrintToAppend(v, "", after);
  }

  /** A member's text from its key's quote to the blanks after the colon. */
  function KeyText(m: Member): string {
    "\"" + (m.key + ("\"" + (m.mid + (":" + m.gap))))
  }

  lemma FromKeyParts(m: Member, after: string)
    ensures FromKey(m, after) == KeyText(m) + PrintTo(m.value, m.post + after)
  {
  }

  /** The text of members that others follow. */
  function Before(ps: seq<Member>): string {
    if ps == [] then "" else PrintMemberTo(ps[0], "," + Before(ps[1..]))
  }

  lemma {:induction false} Joined(ps: seq<Member>, qs: seq<Member>, after: string)
    requires qs != []
    ensures PrintMembersTo(ps + qs, after) == Before(ps) + PrintMembersTo(qs, after)
  {
    if ps == [] {
      assert ps + qs == qs;
    } else {
      var tail := PrintMembersTo(qs, after);
      assert (ps + qs)[1..] == ps[1..] + qs;
      Joined(ps[1..], qs, after);
      assert "," + (Before(ps[1..]) + tail) == "," + Before(ps[1..]) + tail;
      PrintMemberAppend(ps[0], "," + Before(ps[1..]), tail);
    }
  }

  // ---------------------------------------------------------------- places in an object

  /** The text up to member i's key, given the text before the object. */
  function UpToKey(a: string, ms: seq<Member>, i: nat): string
    requires i < |ms|
  {
    a + ("{" + (Before(ms[..i]) + ms[i].pre))
  }

  function UpToValue(a: string, ms: seq<Member>, i: nat): string
    requires i < |ms|
  {
    UpToKey(a, ms, i) + KeyText(ms[i])
  }

  function ThroughValue(a: string, ms: seq<Member>, i: nat): string
    requires i < |ms|
  {
    UpToValue(a, ms, i) + Print(ms[i].value)
  }

  /** The text after member i and its trailing blanks. */
  function Tail(ms: seq<Member>, i: nat, c: string): string
    requires i < |ms|
  {
    if i + 1 == |ms| then "}" + c else "," + PrintMembersTo(ms[i + 1..], "}" + c)
  }

  /** An object's text after `a` and before `c`, taken apart at member i. */
  lemma At(a: string, ms: seq<Member>, i: nat, c: string)
    requires i < |ms|
    ensures a + PrintTo(Object(ms, ""), c) == UpToKey(a, ms, i) + FromKey(ms[i], Tail(ms, i, c))
    ensures a + PrintTo(Object(ms, ""), c) == UpToValue(a, ms, i) + PrintTo(ms[i].value, ms[i].post + Tail(ms, i, c))
    ensures a + PrintTo(Object(ms, ""), c) == ThroughValue(a, ms, i) + (ms[i].post + Tail(ms, i, c))
  {
    var m, tail := ms[i], Tail(ms, i, c);
    assert ms == ms[..i] + ms[i..];
    Joined(ms[..i], ms[i..], "}" + c);
    assert ms[i..][1..] == ms[i + 1..];
    assert PrintMembersTo(ms[i..], "}" + c) == PrintMemberTo(m, tail);
    FromKeyParts(m, tail);
    PrintThen(m.value, m.post + tail);
    hide PrintTo, PrintMembersTo, FromKey, Before, KeyText, Tail;
    assert PrintMemberTo(m, tail) == m.pre + FromKey(m, tail);
    Regroup(a, Before(ms[..i]), m.pre, FromKey(m, tail));
    assert UpToKey(a, ms, i) + (KeyText(m) + PrintTo(m.value, m.post + tail))
        == UpToValue(a, ms, i) + PrintTo(m.value, m.post + tail);
  }

  lemma Regroup(a: string, b: string, p: string, x: string)
    ensures a + ("{" + (b + (p + x))) == a + ("{" + (b + p)) + x
  {
  }

  /** A member's key as its readers see it. */
  function KeyName(m: Member): string {
    if IsBody(m.key) then Decode(m.key) else m.key
  }

  function SpanAt(ms: seq<Member>, at: nat, i: nat): Span
    requires i < |ms|
  {
    var keyStart := at + 1 + |Before(ms[..i])| + |ms[i].pre|;
    var valStart := keyStart + |KeyText(ms[i])|;
    Span(KeyName(ms[i]), keyStart, valStart, valStart + |Print(ms[i].value)|)
  }

  /** The spans of an object whose brace opens at an offset. */
  function SpansOf(v: Value, at: nat): Spans
    requires v.Object?
  {
    Spans(at, at + |Print(v)|, seq(|v.members|, i requires 0 <= i < |v.members| => SpanAt(v.members, at, i)))
  }

  lemma PlacesAreSpans(a: string, ms: seq<Member>, i: nat)
    requires i < |ms|
    ensures SpanAt(ms, |a|, i) == Span(KeyName(ms[i]), |UpToKey(a, ms, i)|, |UpToValue(a, ms, i)|,
              |ThroughValue(a, ms, i)|)
  {
    hide Before, KeyText, Print;
  }

  // ---------------------------------------------------------------- splicing

  /** Replaces part of a text. */
  function Splice(src: string, start: nat, end: nat, text: string): string
    requires start <= end <= |src|
  {
    src[..start] + text + src[end..]
  }

  lemma SpliceBetween(src: string, x: string, y: string, z: string, text: string)
    requires src == x + (y + z)
    ensures |x + y| <= |src| && Splice(src, |x|, |x + y|, text) == x + (text + z)
  {
    assert src[|x + y|..] == z;
    assert src[..|x|] == x;
  }

  /** Putting another value in a member's place changes the object there and nowhere else. */
  lemma ReplacedValue(a: string, ms: seq<Member>, i: nat, v: Value, c: string)
    requires i < |ms|
    ensures var ms' := ms[i := ms[i].(value := v)];
            a + PrintTo(Object(ms', ""), c) == UpToValue(a, ms, i) + PrintTo(v, ms[i].post + Tail(ms, i, c))
  {
    var ms' := ms[i := ms[i].(value := v)];
    assert ms'[..i] == ms[..i] && ms'[i + 1..] == ms[i + 1..];
    At(a, ms', i, c);
  }

  /** The members left when one is deleted with the punctuation that held it: its successor
      takes over its indentation, or its predecessor what stood before the closing brace. */
  function DeleteAt(ms: seq<Member>, i: nat): (r: seq<Member>)
    requires i < |ms|
    ensures |r| == |ms| - 1
  {
    if i + 1 < |ms| then ms[..i] + [ms[i + 1].(pre := ms[i].pre)] + ms[i + 2..]
    else if i > 0 then ms[..i - 1] + [ms[i - 1].(post := ms[i].post)]
    else []
  }

  lemma DeletedBeforeAnother(a: string, ms: seq<Member>, i: nat, c: string)
    requires i + 1 < |ms|
    ensures a + PrintTo(Object(DeleteAt(ms, i), ""), c)
         == UpToKey(a, ms, i) + FromKey(ms[i + 1], Tail(ms, i + 1, c))
  {
    var ms' := DeleteAt(ms, i);
    At(a, ms', i, c);
    assert ms'[..i] == ms[..i] && ms'[i + 1..] == ms[i + 2..];
    assert Tail(ms', i, c) == Tail(ms, i + 1, c);
  }

  lemma DeletedAfterAnother(a: string, ms: seq<Member>, i: nat, c: string)
    requires 0 < i && i + 1 == |ms|
    ensures a + PrintTo(Object(DeleteAt(ms, i), ""), c)
         == ThroughValue(a, ms, i - 1) + (ms[i].post + Tail(ms, i, c))
  {
    var ms' := DeleteAt(ms, i);
    At(a, ms', i - 1, c);
    assert ms'[..i - 1] == ms[..i - 1];
  }

  /** Members with one more at the end: it takes over what stood before the closing brace. */
  function Append(ms: seq<Member>, m: Member): (r: seq<Member>)
    requires ms != []
    ensures |r| == |ms| + 1
  {
    var n := |ms| - 1;
    ms[..n] + [ms[n].(post := "")] + [m.(post := ms[n].post)]
  }

  lemma Appended(a: string, ms: seq<Member>, m: Member, c: string)
    requires ms != []
    ensures a + PrintTo(Object(Append(ms, m), ""), c)
         == ThroughValue(a, ms, |ms| - 1)
          + (("," + m.pre + (KeyText(m) + Print(m.value))) + (ms[|ms| - 1].post + Tail(ms, |ms| - 1, c)))
  {
    var n := |ms| - 1;
    var ms', end := Append(ms, m), m.(post := ms[n].post);
    At(a, ms', n, c);
    assert ms'[..n] == ms[..n] && ms'[n + 1..] == [end];
    FromKeyParts(end, "}" + c);
    PrintThen(m.value, ms[n].post + ("}" + c));
    assert KeyText(end) == KeyText(m);
    assert PrintMembersTo([end], "}" + c) == m.pre + FromKey(end, "}" + c);
    assert Tail(ms, n, c) == "}" + c;
    hide Before, KeyText, Print, PrintTo, FromKey, PrintMembersTo, ThroughValue;
    AfterComma(m.pre, KeyText(m), Print(m.value), ms[n].post, "}" + c);
  }

  lemma AfterComma(p: string, k: string, v: string, q: string, z: string)
    ensures "" + ("," + (p + (k + (v + (q + z))))) == ("," + p + (k + v)) + (q + z)
  {
  }
}
