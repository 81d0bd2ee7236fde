/** Reading JSON token by token, with the offset each token starts and ends at, and skipping a
    value by counting brackets: the count first comes back to zero at the value's own end. */
module JsonSkip {
  import opened Wrappers
  import opened JsonText
  import opened JsonTree

  datatype Token = Opening(mark: char) | Closing | Str(body: string) | Word

  // ---------------------------------------------------------------- one token

  predicate IsSeparator(c: char) {
    IsBlank(c) || c == ',' || c == ':'
  }

  predicate AllSeparators(s: string) {
    forall i :: 0 <= i < |s| ==> IsSeparator(s[i])
  }

  /** What is left of a text once the separators at its head are stepped over. */
  function Separated(s: string): (t: string)
    ensures |t| <= |s|
  {
    if s != "" && IsSeparator(s[0]) then Separated(s[1..]) else s
  }

  /** The token a text begins with, and what follows it. */
  function TokenAt(t: string): (r: Option<(Token, string)>)
    ensures r.Some? ==> |r.value.1| < |t|
  {
    if t == "" then None
    else if t[0] == '{' || t[0] == '[' then Some((Opening(t[0]), t[1..]))
    else if t[0] == '}' || t[0] == ']' then Some((Closing, t[1..]))
    else if t[0] == '\"' then
      match ScanBody(t[1..])
      case None => None
      case Some((body, rest)) => Some((Str(body), rest))
    else
      var n := AtomRun(t);
      if n == 0 then None else Some((Word, t[n..]))
  }

  /** The next token of a text, separators passed over, and what follows it. */
  function NextToken(s: string): (r: Option<(Token, string)>)
    ensures r.Some? ==> |r.value.1| < |s|
  {
    TokenAt(Separated(s))
  }

  lemma {:induction false} SeparatorsPass(sep: string, s: string)
    requires AllSeparators(sep)
    ensures Separated(sep + s) == Separated(s) && NextToken(sep + s) == NextToken(s)
  {
    if sep == "" {
      assert sep + s == s;
    } else {
      assert (sep + s)[1..] == sep[1..] + s;
      SeparatorsPass(sep[1..], s);
    }
  }

  lemma BlanksSeparate(blank: string)
    requires AllBlank(blank)
    ensures AllSeparators(blank) && AllSeparators("," + blank)
  {
    assert forall i :: 0 < i <= |blank| ==> ("," + blank)[i] == blank[i - 1];
  }

  lemma TokenIsSuffix(t: string)
    requires TokenAt(t).Some?
    ensures var rest := TokenAt(t).value.1; t[|t| - |rest|..] == rest
  {
    if t[0] == '\"' {
      ScanBodySound(t[1..]);
      var (body, rest) := ScanBody(t[1..]).value;
      assert t[1..] == body + "\"" + rest;
      assert t[|t| - |rest|..] == t[1..][|t| - 1 - |rest|..] == rest;
    }
  }

  /** Reads the next token: steps over separators to where it starts, and past it. */
  method ReadToken(src: string, pos: nat, end: nat) returns (start: nat, token: Token, next: nat)
    requires pos <= end <= |src| && NextToken(src[pos..end]).Some?
    ensures pos <= start < next <= end
    ensures src[start..end] == Separated(src[pos..end])
    ensures NextToken(src[pos..end]) == Some((token, src[next..end]))
  {
    hide TokenAt;
    start := pos;
    assert Separated("") == "";
    while start < end && IsSeparator(src[start])
      invariant pos <= start <= end && Separated(src[start..end]) == Separated(src[pos..end])
    {
      assert src[start..end][1..] == src[start + 1..end];
      start := start + 1;
    }
    var text := src[start..end];
    assert Separated(text) == text;
    TokenIsSuffix(text);
    var (t, rest) := TokenAt(text).value;
    token, next := t, end - |rest|;
    assert src[next..end] == text[|text| - |rest|..] == rest;
  }

  // ---------------------------------------------------------------- counting brackets

  function Weight(t: Token): int {
    match t
    case Opening(_) => 1
    case Closing => -1
    case _ => 0
  }

  /** What follows once the brackets open are all closed, reading on from a text. */
  function Closed(depth: int, s: string): Option<string>
    decreases |s|, 1
  {
    if depth == 0 then Some(s) else Resumed(depth, s)
  }

  function Resumed(depth: int, s: string): Option<string>
    decreases |s|, 0
  {
    match NextToken(s)
    case None => None
    case Some((token, rest)) => Closed(depth + Weight(token), rest)
  }

  lemma SameNext(depth: int, a: string, b: string)
    requires NextToken(a) == NextToken(b)
    ensures Resumed(depth, a) == Resumed(depth, b)
  {
    hide NextToken, Closed;
  }

  lemma NoBracket(depth: int, s: string)
    requires depth != 0 && NextToken(s).Some? && Weight(NextToken(s).value.0) == 0
    ensures Resumed(depth, s) == Resumed(depth, NextToken(s).value.1)
  {
    hide NextToken;
  }

  lemma Unmarked(s: string)
    requires s != "" && !IsSeparator(s[0])
    ensures Separated(s) == s && NextToken(s) == TokenAt(s)
  {
  }

  lemma FirstToken(v: Value, c: string)
    requires Legal(v) && Follows(v, c)
    ensures var s := PrintTo(v, c);
            && Separated(s) == s && NextToken(s).Some?
            && (NextToken(s).value.0 == Opening('{') <==> v.Object?)
            && (v.Object? || v.Array? ==> NextToken(s) == Some((Opening(s[0]), s[1..])))
            && (v.Text? || v.Atom? ==> Weight(NextToken(s).value.0) == 0 && NextToken(s).value.1 == c)
  {
    hide LegalMembers, LegalItems, PrintMembersTo, PrintItemsTo, TokenAt, Separated, NextToken, IsBody, IsAtom;
    var s := PrintTo(v, c);
    match v {
      case Text(body) => TextToken(body, c);
      case Atom(text) => AtomToken(text, c);
      case _ => BracketToken(s);
    }
  }

  lemma TextToken(body: string, c: string)
    requires IsBody(body)
    ensures var s := "\"" + (body + ("\"" + c)); Separated(s) == s && NextToken(s) == Some((Str(body), c))
  {
    hide IsBody, ScanBody;
    var s := "\"" + (body + ("\"" + c));
    assert s[0] == '\"' && s[1..] == body + "\"" + c;
    ScanBodyComplete(body, c);
    Unmarked(s);
  }

  lemma AtomToken(text: string, c: string)
    requires IsAtom(text) && (c == "" || !IsAtomChar(c[0]))
    ensures var s := text + c; Separated(s) == s && NextToken(s) == Some((Word, c))
  {
    hide AtomRun, IsNumber;
    var s := text + c;
    AtomRunExact(text, c);
    assert IsAtomChar(text[0]) && s[0] == text[0] && s[|text|..] == c;
    Unmarked(s);
  }

  lemma BracketToken(s: string)
    requires s != "" && (s[0] == '{' || s[0] == '[')
    ensures Separated(s) == s && NextToken(s) == Some((Opening(s[0]), s[1..]))
  {
    Unmarked(s);
  }

  /** Skipping a value leaves what follows it, whatever brackets are open around it. */
  lemma {:induction false} ValueIsSkipped(v: Value, c: string, depth: nat)
    requires Legal(v) && Follows(v, c)
    ensures Resumed(depth, PrintTo(v, c)) == Closed(depth, c)
    decreases v, 1
  {
    hide NextToken, LegalMember, LegalItem, Follows, Separated;
    FirstToken(v, c);
    match v {
      case Object(ms, blank) =>
        ClosingIsRead(blank, '}', c, depth);
        if ms != [] { MembersAreSkipped(ms, "}" + c, depth + 1); }
        assert PrintTo(v, c)[1..] == if ms == [] then blank + ("}" + c) else PrintMembersTo(ms, "}" + c);
      case Array(items, blank) =>
        ClosingIsRead(blank, ']', c, depth);
        if items != [] { ItemsAreSkipped(items, "]" + c, depth + 1); }
        assert PrintTo(v, c)[1..] == if items == [] then blank + ("]" + c) else PrintItemsTo(items, "]" + c);
      case _ =>
    }
  }

  lemma ClosingIsRead(blank: string, mark: char, c: string, depth: nat)
    requires AllBlank(blank) && (mark == '}' || mark == ']')
    ensures Resumed(depth + 1, [mark] + c) == Closed(depth, c)
    ensures Resumed(depth + 1, blank + ([mark] + c)) == Closed(depth, c)
    ensures NextToken(blank + ([mark] + c)) == Some((Closing, c))
  {
    BlanksSeparate(blank);
    SeparatorsPass(blank, [mark] + c);
    assert ([mark] + c)[1..] == c;
    Unmarked([mark] + c);
  }

  lemma {:induction false} MembersAreSkipped(ms: seq<Member>, after: string, depth: nat)
    requires ms != [] && LegalMembers(ms) && depth > 0 && (Starts(after, '}') || Starts(after, ','))
    ensures Resumed(depth, PrintMembersTo(ms, after)) == Resumed(depth, after)
    decreases ms, 0
  {
    hide NextToken, PrintTo, Legal, FromKey, Separated;
    var m := ms[0];
    var tail := if |ms| == 1 then after else "," + PrintMembersTo(ms[1..], after);
    KeyIsRead(m, tail, depth);
    BlankOrRestFollows(m.post, tail);
    ValueIsSkipped(m.value, m.post + tail, depth);
    BlanksSeparate(m.post);
    SeparatorsPass(m.post, tail);
    if |ms| > 1 {
      MembersAreSkipped(ms[1..], after, depth);
      SeparatorsPass(",", PrintMembersTo(ms[1..], after));
    }
  }

  /** A member's key is one string token, and its colon stands between it and the value. */
  lemma KeyIsRead(m: Member, tail: string, depth: nat)
    requires LegalMember(m) && depth > 0
    ensures var value := PrintTo(m.value, m.post + tail); var s := m.pre + FromKey(m, tail);
            && Separated(s) == FromKey(m, tail)
            && NextToken(s) == Some((Str(m.key), m.mid + (":" + (m.gap + value))))
            && Separated(m.mid + (":" + (m.gap + value))) == Separated(value)
            && NextToken(m.mid + (":" + (m.gap + value))) == NextToken(value)
            && Resumed(depth, s) == Resumed(depth, value)
  {
    hide PrintTo, Legal;
    var value, key := PrintTo(m.value, m.post + tail), FromKey(m, tail);
    var rest := m.mid + (":" + (m.gap + value));
    BlanksSeparate(m.pre);
    SeparatorsPass(m.pre, key);
    assert key[0] == '\"' && key[1..] == m.key + ("\"" + rest);
    assert key[1..] == m.key + "\"" + rest;
    ScanBodyComplete(m.key, rest);
    Unmarked(key);
    BlanksSeparate(m.mid);
    BlanksSeparate(m.gap);
    SeparatorsPass(m.mid, ":" + (m.gap + value));
    SeparatorsPass(":", m.gap + value);
    SeparatorsPass(m.gap, value);
    NoBracket(depth, m.pre + key);
    SameNext(depth, rest, value);
  }

  lemma {:induction false} ItemsAreSkipped(items: seq<Item>, after: string, depth: nat)
    requires items != [] && LegalItems(items) && depth > 0 && (Starts(after, ']') || Starts(after, ','))
    ensures Resumed(depth, PrintItemsTo(items, after)) == Resumed(depth, after)
    decreases items, 0
  {
    hide NextToken, PrintTo, Legal, Separated;
    var item := items[0];
    var tail := if |items| == 1 then after else "," + PrintItemsTo(items[1..], after);
    BlanksSeparate(item.pre);
    SeparatorsPass(item.pre, PrintTo(item.value, item.post + tail));
    BlankOrRestFollows(item.post, tail);
    ValueIsSkipped(item.value, item.post + tail, depth);
    BlanksSeparate(item.post);
    SeparatorsPass(item.post, tail);
    if |items| > 1 {
      ItemsAreSkipped(items[1..], after, depth);
      SeparatorsPass(",", PrintItemsTo(items[1..], after));
    }
  }

  /** Reads on from a value's first token until the brackets counted are all closed: where it
      stops is where that first happens. */
  method SkipValue(src: string, pos: nat, end: nat, first: Token) returns (valEnd: nat)
    requires pos <= end <= |src| && Closed(Weight(first), src[pos..end]).Some?
    ensures pos <= valEnd <= end && Closed(Weight(first), src[pos..end]) == Some(src[valEnd..end])
  {
    hide NextToken, Separated;
    var token, depth := first, 0;
    valEnd := pos;
    while true
      invariant pos <= valEnd <= end
      invariant Closed(depth + Weight(token), src[valEnd..end]) == Closed(Weight(first), src[pos..end])
      decreases end - valEnd
    {
      if token.Opening? {
        depth := depth + 1;
      } else if token.Closing? {
        depth := depth - 1;
      }
      if depth == 0 {
        return;
      }
      var _, next, after := ReadToken(src, valEnd, end);
      token, valEnd := next, after;
    }
  }
}
