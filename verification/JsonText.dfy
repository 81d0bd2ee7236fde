/** JSON string literals and the other tokens: what a literal's body may hold, what it
    decodes to, and how a string is encoded (RFC 8259, sections 3, 6 and 7). */
module JsonText {
  import opened Wrappers

  predicate IsBlank(c: char) {
    c == ' ' || c == '\t' || c == '\n' || c == '\r'
  }

  predicate AllBlank(s: string) {
    forall i :: 0 <= i < |s| ==> IsBlank(s[i])
  }

  predicate IsDigit(c: char) {
    '0' <= c <= '9'
  }

  predicate IsHex(c: char) {
    IsDigit(c) || 'a' <= c <= 'f' || 'A' <= c <= 'F'
  }

  function HexValue(c: char): (n: nat)
    requires IsHex(c)
    ensures n < 16
  {
    if IsDigit(c) then c as int - '0' as int
    else if 'a' <= c <= 'f' then c as int - 'a' as int + 10
    else c as int - 'A' as int + 10
  }

  function HexDigit(n: nat): (c: char)
    requires n < 16
    ensures IsHex(c) && HexValue(c) == n
  {
    if n < 10 then (n + '0' as int) as char else (n - 10 + 'a' as int) as char
  }

  // ---------------------------------------------------------------- literal bodies

  const SIMPLE_ESCAPES := "\"\\/bfnrt"

  /** The length of the escape a body begins with, or 0 when it is not one. */
  function EscapeLength(body: string): (n: nat)
    requires body != ""
    ensures n <= |body|
  {
    if |body| >= 2 && body[1] in SIMPLE_ESCAPES then 2
    else if |body| >= 6 && body[1] == 'u' && IsHex(body[2]) && IsHex(body[3]) && IsHex(body[4]) && IsHex(body[5]) then 6
    else 0
  }

  /** The length of the first character or escape of a body, or 0 when a body cannot
      begin so: a closing quote, a control character or a broken escape. */
  function StepLength(body: string): (n: nat)
    requires body != ""
    ensures n <= |body|
  {
    if body[0] == '\"' || body[0] < ' ' then 0
    else if body[0] == '\\' then EscapeLength(body)
    else 1
  }

  predicate IsBody(body: string)
    decreases |body|
  {
    body == "" || (StepLength(body) > 0 && IsBody(body[StepLength(body)..]))
  }

  /** Reads a body up to its closing quote, and what follows the quote. */
  function ScanBody(s: string): (r: Option<(string, string)>)
    ensures r.Some? ==> |r.value.1| < |s|
    decreases |s|
  {
    if s == "" then None
    else if s[0] == '\"' then Some(("", s[1..]))
    else
      var n := StepLength(s);
      if n == 0 then None
      else
        match ScanBody(s[n..])
        case None => None
        case Some((body, rest)) => Some((s[..n] + body, rest))
  }

  lemma StepOfPrefix(body: string, rest: string)
    requires body != "" && StepLength(body) > 0
    ensures StepLength(body + rest) == StepLength(body)
  {
  }

  lemma {:induction false} ScanBodyComplete(body: string, rest: string)
    requires IsBody(body)
    ensures ScanBody(body + "\"" + rest) == Some((body, rest))
    decreases |body|
  {
    var s := body + "\"" + rest;
    if body == "" {
      assert s[1..] == rest;
    } else {
      var n := StepLength(body);
      assert s == body + ("\"" + rest);
      StepOfPrefix(body, "\"" + rest);
      assert s[n..] == body[n..] + "\"" + rest;
      assert s[..n] + body[n..] == body;
      ScanBodyComplete(body[n..], rest);
    }
  }

  lemma {:induction false} ScanBodySound(s: string)
    requires ScanBody(s).Some?
    ensures var (body, rest) := ScanBody(s).value; s == body + "\"" + rest && IsBody(body)
    decreases |s|
  {
    hide StepLength;
    if s[0] != '\"' {
      var n := StepLength(s);
      ScanBodySound(s[n..]);
      var (tail, rest) := ScanBody(s[n..]).value;
      var body := s[..n] + tail;
      assert s == s[..n] + s[n..];
      StepOfTaken(s, n, tail);
      assert body[n..] == tail;
    }
  }

  lemma StepOfTaken(s: string, n: nat, tail: string)
    requires s != "" && n == StepLength(s) > 0
    ensures StepLength(s[..n] + tail) == n
  {
  }

  // ---------------------------------------------------------------- decoding

  const REPLACEMENT := '\U{FFFD}'

  function CodeUnit(body: string): (u: nat)
    requires |body| >= 6 && IsHex(body[2]) && IsHex(body[3]) && IsHex(body[4]) && IsHex(body[5])
    ensures u < 0x10000
  {
    HexValue(body[2]) * 0x1000 + HexValue(body[3]) * 0x100 + HexValue(body[4]) * 0x10 + HexValue(body[5])
  }

  function Unescape(c: char): char {
    match c
    case 'b' => '\U{0008}'
    case 'f' => '\U{000C}'
    case 'n' => '\n'
    case 'r' => '\r'
    case 't' => '\t'
    case _ => c
  }

  /** A literal's value: escapes resolved, a surrogate pair joined, a lone surrogate replaced. */
  function Decode(body: string): string
    requires IsBody(body)
    decreases |body|
  {
    if body == "" then ""
    else if body[0] != '\\' then [body[0]] + Decode(body[1..])
    else if body[1] != 'u' then [Unescape(body[1])] + Decode(body[2..])
    else
      var u := CodeUnit(body);
      var rest := body[6..];
      if 0xD800 <= u < 0xDC00 && rest != "" && rest[0] == '\\' && EscapeLength(rest) == 6 &&
          0xDC00 <= CodeUnit(rest) < 0xE000
      then [((u - 0xD800) * 0x400 + (CodeUnit(rest) - 0xDC00) + 0x10000) as char] + Decode(rest[6..])
      else if 0xD800 <= u < 0xE000 then [REPLACEMENT] + Decode(rest)
      else [u as char] + Decode(rest)
  }

  // ---------------------------------------------------------------- encoding

  function UnicodeEscape(n: nat): string
    requires n < 0x10000
  {
    ['\\', 'u', HexDigit(n / 0x1000), HexDigit(n / 0x100 % 0x10), HexDigit(n / 0x10 % 0x10), HexDigit(n % 0x10)]
  }

  /** How one character of a string is written: quotes, backslashes, controls, the
      characters HTML gives meaning to and the two line separators are escaped. */
  function EncodeChar(c: char): string {
    if c == '\"' || c == '\\' then ['\\', c]
    else if c == '\U{0008}' then "\\b"
    else if c == '\U{000C}' then "\\f"
    else if c == '\n' then "\\n"
    else if c == '\r' then "\\r"
    else if c == '\t' then "\\t"
    else if c < ' ' || c == '<' || c == '>' || c == '&' || c == '\U{2028}' || c == '\U{2029}' then
      UnicodeEscape(c as int)
    else [c]
  }

  function Encode(s: string): string {
    if s == "" then "" else EncodeChar(s[0]) + Encode(s[1..])
  }

  lemma EncodeCharSteps(c: char, rest: string)
    requires IsBody(rest)
    ensures IsBody(EncodeChar(c) + rest)
    ensures Decode(EncodeChar(c) + rest) == [c] + Decode(rest)
  {
    hide IsBody, Decode, StepLength;
    var code := EncodeChar(c);
    if |code| == 6 {
      UnicodeEscapeSteps(c as int, rest);
    } else if |code| == 2 {
      SimpleEscapeSteps(code, rest);
    } else {
      PlainCharSteps(c, rest);
    }
  }

  lemma PlainCharSteps(c: char, rest: string)
    requires c >= ' ' && c != '\"' && c != '\\' && IsBody(rest)
    ensures IsBody([c] + rest) && Decode([c] + rest) == [c] + Decode(rest)
  {
    assert ([c] + rest)[0] == c && ([c] + rest)[1..] == rest;
  }

  lemma SimpleEscapeSteps(code: string, rest: string)
    requires |code| == 2 && code[0] == '\\' && code[1] in SIMPLE_ESCAPES && code[1] != 'u' && IsBody(rest)
    ensures IsBody(code + rest) && Decode(code + rest) == [Unescape(code[1])] + Decode(rest)
  {
    var body := code + rest;
    assert body[0] == '\\' && body[1] == code[1];
    assert StepLength(body) == 2;
    assert body[2..] == rest;
  }

  lemma HexDigitsOf(n: nat)
    requires n < 0x10000
    ensures n == n / 0x1000 * 0x1000 + n / 0x100 % 0x10 * 0x100 + n / 0x10 % 0x10 * 0x10 + n % 0x10
  {
    assert n / 0x100 == n / 0x1000 * 0x10 + n / 0x100 % 0x10;
    assert n / 0x10 == n / 0x100 * 0x10 + n / 0x10 % 0x10;
  }

  lemma UnicodeEscapeSteps(n: nat, rest: string)
    requires n < 0xD800 || 0xE000 <= n < 0x10000
    requires IsBody(rest)
    ensures IsBody(UnicodeEscape(n) + rest) && Decode(UnicodeEscape(n) + rest) == [n as char] + Decode(rest)
  {
    var body := UnicodeEscape(n) + rest;
    HexDigitsOf(n);
    assert body[0] == '\\' && body[1] == 'u';
    assert body[2] == HexDigit(n / 0x1000) && body[3] == HexDigit(n / 0x100 % 0x10);
    assert body[4] == HexDigit(n / 0x10 % 0x10) && body[5] == HexDigit(n % 0x10);
    assert CodeUnit(body) == n;
    assert 'u' !in SIMPLE_ESCAPES;
    assert StepLength(body) == 6;
    assert body[6..] == rest;
  }

  /** Encoding yields a legal literal body that decodes to the string encoded. */
  lemma {:induction false} DecodeEncode(s: string)
    ensures IsBody(Encode(s)) && Decode(Encode(s)) == s
  {
    if s != "" {
      DecodeEncode(s[1..]);
      EncodeCharSteps(s[0], Encode(s[1..]));
    }
  }

  /** A character that may stand in a literal as it is, and means nothing to HTML or a script. */
  predicate IsSafe(c: char) {
    c >= ' ' && c !in "<>&" && c != '\U{2028}' && c != '\U{2029}'
  }

  /** Encoding writes safe characters only, and leaves a string of them as it is but for quotes and
      backslashes. */
  lemma {:induction false} EncodedIsSafe(s: string)
    ensures forall c :: c in Encode(s) ==> IsSafe(c)
    ensures (forall c :: c in s ==> IsSafe(c) && c != '\"' && c != '\\') ==> Encode(s) == s
  {
    if s != "" {
      EncodedIsSafe(s[1..]);
      CharIsSafe(s[0]);
      assert s == [s[0]] + s[1..] && s[0] in s && forall c :: c in s[1..] ==> c in s;
    }
  }

  lemma CharIsSafe(c: char)
    ensures forall d :: d in EncodeChar(c) ==> IsSafe(d)
    ensures IsSafe(c) && c != '\"' && c != '\\' ==> EncodeChar(c) == [c]
  {
    assert forall n :: 0 <= n < 16 ==> IsHex(HexDigit(n));
    assert forall d :: IsHex(d) ==> IsSafe(d);
  }

  // ---------------------------------------------------------------- numbers and words

  predicate IsAtomChar(c: char) {
    IsDigit(c) || 'a' <= c <= 'z' || 'A' <= c <= 'Z' || c == '+' || c == '-' || c == '.'
  }

  function DigitRun(s: string): (n: nat)
    ensures n <= |s|
  {
    if s == "" || !IsDigit(s[0]) then 0 else 1 + DigitRun(s[1..])
  }

  /** An optional exponent, and nothing after it. */
  predicate IsExponent(s: string) {
    s == "" ||
    ((s[0] == 'e' || s[0] == 'E') &&
     var digits := if |s| > 1 && (s[1] == '+' || s[1] == '-') then s[2..] else s[1..];
     digits != "" && DigitRun(digits) == |digits|)
  }

  /** An optional fraction and an optional exponent. */
  predicate IsFraction(s: string) {
    if s != "" && s[0] == '.' then DigitRun(s[1..]) > 0 && IsExponent(s[1 + DigitRun(s[1..])..]) else IsExponent(s)
  }

  predicate IsNumber(s: string) {
    var unsigned := if s != "" && s[0] == '-' then s[1..] else s;
    var whole := DigitRun(unsigned);
    whole > 0 && (unsigned[0] == '0' ==> whole == 1) && IsFraction(unsigned[whole..])
  }

  predicate AllAtomChars(s: string) {
    forall i :: 0 <= i < |s| ==> IsAtomChar(s[i])
  }

  predicate IsAtom(s: string) {
    s != "" && AllAtomChars(s) && (s == "true" || s == "false" || s == "null" || IsNumber(s))
  }

  /** The longest run of characters a number or a word could hold. */
  function AtomRun(s: string): (n: nat)
    ensures n <= |s| && AllAtomChars(s[..n])
    ensures n < |s| ==> !IsAtomChar(s[n])
  {
    if s == "" || !IsAtomChar(s[0]) then 0
    else
      var n := 1 + AtomRun(s[1..]);
      assert forall i :: 0 < i < n ==> s[i] == s[1..][i - 1];
      n
  }

  function BlankRun(s: string): (n: nat)
    ensures n <= |s| && AllBlank(s[..n])
    ensures n < |s| ==> !IsBlank(s[n])
  {
    if s == "" || !IsBlank(s[0]) then 0
    else
      var n := 1 + BlankRun(s[1..]);
      assert forall i :: 0 < i < n ==> s[i] == s[1..][i - 1];
      n
  }

  lemma AtomRunExact(text: string, rest: string)
    requires AllAtomChars(text) && (rest == "" || !IsAtomChar(rest[0]))
    ensures AtomRun(text + rest) == |text|
  {
    var s := text + rest;
    assert forall i :: 0 <= i < |text| ==> s[i] == text[i];
    assert rest != "" ==> s[|text|] == rest[0];
    assert forall i :: 0 <= i < AtomRun(s) ==> s[..AtomRun(s)][i] == s[i];
  }

  lemma BlankRunExact(blank: string, rest: string)
    requires AllBlank(blank) && (rest == "" || !IsBlank(rest[0]))
    ensures BlankRun(blank + rest) == |blank|
  {
    var s := blank + rest;
    assert forall i :: 0 <= i < |blank| ==> s[i] == blank[i];
    assert rest != "" ==> s[|blank|] == rest[0];
    assert forall i :: 0 <= i < BlankRun(s) ==> s[..BlankRun(s)][i] == s[i];
  }
}
