/** The scanner under the agent command parser: the text/scanner rules with every token class enabled, and
    identifiers redefined by IsIdentRune. */
module AgentLexer {
  import opened Common
  import opened Text

  /** The runes outside ASCII that count as letters or digits; nothing below depends on which they are. */
  const WIDE_ALPHABET: set<char>

  predicate IsLetterOrDigit(c: char) {
    || 'a' <= c <= 'z' || 'A' <= c <= 'Z' || '0' <= c <= '9'
    || (c as int >= 0x80 && c in WIDE_ALPHABET && !IsSpace(c))
  }

  /** May c stand at position i of an identifier? */
  predicate IsIdentRune(c: char, i: nat) {
    IsLetterOrDigit(c) || (c == '-' && i < 2) || c == '_' || c == '.'
  }

  predicate IsBlank(c: char) {
    c in {'\t', '\n', '\r', ' '}
  }

  /** `text` is the token as written; Other stands for every token that is neither a piece nor '='. */
  datatype Token = Ident(text: string) | Str(text: string) | Assign | Other(text: string)

  /** How far an identifier reaches into s when s starts at position i of it. */
  function IdentLength(s: string, i: nat): (n: nat)
    ensures n <= |s|
  {
    if s != "" && IsIdentRune(s[0], i) then 1 + IdentLength(s[1..], i + 1) else 0
  }

  predicate IsIdentifier(s: string) {
    s != "" && IdentLength(s, 0) == |s|
  }

  /** Runes from just after an opening quote up to and including the closing one; a newline or the end of the
      text ends an unterminated literal. */
  function QuotedLength(s: string, quote: char): (n: nat)
    ensures n <= |s|
  {
    if s == "" then 0
    else if s[0] == quote || s[0] == '\n' then 1
    else if s[0] == '\\' && |s| > 1 && s[1] != '\n' then 2 + QuotedLength(s[2..], quote)
    else 1 + QuotedLength(s[1..], quote)
  }

  function RawLength(s: string): (n: nat)
    ensures n <= |s|
  {
    if s == "" then 0 else if s[0] == '`' then 1 else 1 + RawLength(s[1..])
  }

  predicate StartsComment(s: string) {
    |s| >= 2 && s[0] == '/' && (s[1] == '/' || s[1] == '*')
  }

  function AfterLineComment(s: string): (rest: string)
    ensures |rest| <= |s|
  {
    if s == "" || s[0] == '\n' then s else AfterLineComment(s[1..])
  }

  function AfterBlockComment(s: string): (rest: string)
    ensures |rest| <= |s|
  {
    if |s| < 2 then "" else if s[0] == '*' && s[1] == '/' then s[2..] else AfterBlockComment(s[1..])
  }

  function AfterComment(s: string): (rest: string)
    requires StartsComment(s)
    ensures |rest| < |s|
  {
    if s[1] == '/' then AfterLineComment(s[2..]) else AfterBlockComment(s[2..])
  }

  function TokenLength(s: string): (n: nat)
    requires s != ""
    ensures 1 <= n <= |s|
  {
    if IsIdentRune(s[0], 0) then IdentLength(s, 0)
    else if s[0] == '"' || s[0] == '\'' then 1 + QuotedLength(s[1..], s[0])
    else if s[0] == '`' then 1 + RawLength(s[1..])
    else 1
  }

  function Classify(text: string): Token
    requires text != ""
  {
    if IsIdentRune(text[0], 0) then Ident(text)
    else if text[0] == '"' then Str(text)
    else if text[0] == '=' then Assign
    else Other(text)
  }

  /** The next token and the text after it; None at the end of the text. */
  function Scan(s: string): (r: Option<(Token, string)>)
    ensures r.Some? ==> |r.value.1| < |s|
    decreases |s|
  {
    if s == "" then None
    else if IsBlank(s[0]) then Scan(s[1..])
    else if StartsComment(s) then Scan(AfterComment(s))
    else
      var n := TokenLength(s);
      Some((Classify(s[..n]), s[n..]))
  }

  function Lex(s: string): seq<Token>
    decreases |s|
  {
    match Scan(s)
    case None => []
    case Some((token, rest)) => [token] + Lex(rest)
  }

  // ------------------------------------------------------------------ literals

  function TextOf(token: Token): string {
    match token
    case Ident(text) => text
    case Str(text) => text
    case Assign => "="
    case Other(text) => text
  }

  /** The number written by s in the given base, or -1. */
  function Number(s: string, base: nat): int {
    if s == "" then 0
    else
      var high, low := Number(s[..|s| - 1], base), HexValue(s[|s| - 1]);
      if high < 0 || low < 0 || low >= base then -1 else high * base + low
  }

  function Letter(c: char, quote: char): Option<char> {
    match c
    case 'a' => Some(7 as char)
    case 'b' => Some(8 as char)
    case 'f' => Some(12 as char)
    case 'n' => Some('\n')
    case 'r' => Some('\r')
    case 't' => Some('\t')
    case 'v' => Some(11 as char)
    case '\\' => Some('\\')
    case _ => if c == quote then Some(c) else None
  }

  /** The rune with this code; half of a surrogate pair is encoded as the replacement character. */
  function RuneOf(code: nat): char
    requires code <= 0x10FFFF
  {
    if 0xD800 <= code <= 0xDFFF then 0xFFFD as char else code as char
  }

  /** What strconv.Unquote makes of the inside of a literal. */
  function Unescape(s: string, quote: char): Option<string>
    decreases |s|
  {
    if s == "" then Some("")
    else if s[0] == quote || s[0] == '\n' then None
    else if s[0] != '\\' then Prepend(s[0], Unescape(s[1..], quote))
    else if |s| == 1 then None
    else if Letter(s[1], quote).Some? then Prepend(Letter(s[1], quote).value, Unescape(s[2..], quote))
    else
      var n := if s[1] == 'x' then 2 else if s[1] == 'u' then 4 else if s[1] == 'U' then 8 else 3;
      var from := if s[1] in {'x', 'u', 'U'} then 2 else 1;
      if |s| < from + n then None
      else
        var code := Number(s[from..from + n], if from == 2 then 16 else 8);
        if code < 0 || code > 0x10FFFF || (from == 1 && code > 255) then None
        else Prepend(RuneOf(code), Unescape(s[from + n..], quote))
  }

  function Prepend(c: char, rest: Option<string>): Option<string> {
    if rest.Some? then Some([c] + rest.value) else None
  }

  /** strconv.Unquote: the value of a quoted literal, None for any other text.  Between single quotes there may be
      one character, or none. */
  function Unquote(s: string): Option<string> {
    if |s| < 2 || s[0] != s[|s| - 1] then None
    else
      var inside := s[1..|s| - 1];
      if s[0] == '`' then
        if '`' in inside then None else Some(Filtered(inside))
      else if s[0] == '"' then Unescape(inside, '"')
      else if s[0] == '\'' then
        var value := Unescape(inside, '\'');
        if value.Some? && |value.value| <= 1 then value else None
      else None
  }

  /** Carriage returns are dropped from raw literals. */
  function Filtered(s: string): string {
    if s == "" then "" else (if s[0] == '\r' then "" else [s[0]]) + Filtered(s[1..])
  }

  /** The value the parser gives a token: its unquoted text if it can be unquoted, its text otherwise. */
  function ValueOf(token: Token): string {
    match Unquote(TextOf(token))
    case Some(value) => value
    case None => TextOf(token)
  }

  // ------------------------------------------------------------------ how printed words are read back

  /** A text that cannot prolong the word before it. */
  predicate EndsWord(tail: string) {
    tail == "" || tail[0] == ' ' || tail[0] == '='
  }

  lemma {:induction false} IdentStops(word: string, i: nat, tail: string)
    requires IdentLength(word, i) == |word|
    requires tail == "" || !IsIdentRune(tail[0], i + |word|)
    ensures IdentLength(word + tail, i) == |word|
  {
    if word == "" {
      assert word + tail == tail;
    } else {
      assert (word + tail)[1..] == word[1..] + tail;
      IdentStops(word[1..], i + 1, tail);
    }
  }

  lemma {:induction false} IdentRunes(word: string, i: nat)
    ensures IdentLength(word, i) == |word| <==> forall k :: 0 <= k < |word| ==> IsIdentRune(word[k], i + k)
  {
    if word == "" {
    } else {
      IdentRunes(word[1..], i + 1);
      assert forall k :: 1 <= k < |word| ==> word[k] == word[1..][k - 1];
      if IdentLength(word, i) == |word| {
        assert IsIdentRune(word[0], i);
        forall k | 1 <= k < |word| ensures IsIdentRune(word[k], i + k) {
          assert IsIdentRune(word[1..][k - 1], i + 1 + (k - 1));
        }
      }
    }
  }

  lemma ScanIdentifier(word: string, tail: string)
    requires IsIdentifier(word) && (tail == "" || !IsIdentRune(tail[0], |word|))
    ensures Scan(word + tail) == Some((Ident(word), tail))
  {
    IdentStops(word, 0, tail);
    assert (word + tail)[0] == word[0];
    assert (word + tail)[..|word|] == word && (word + tail)[|word|..] == tail;
  }

  /** A value that can stand between double quotes as it is. */
  predicate Quotable(value: string) {
    forall i :: 0 <= i < |value| ==> value[i] !in {'"', '\\', '\n'}
  }

  lemma {:induction false} QuotedStops(value: string, tail: string)
    requires Quotable(value)
    ensures QuotedLength(value + "\"" + tail, '"') == |value| + 1
  {
    var whole := value + "\"" + tail;
    if value == "" {
    } else {
      assert value[0] !in {'"', '\\', '\n'};
      assert whole[0] == value[0] && whole[1..] == value[1..] + "\"" + tail;
      assert forall i :: 0 <= i < |value[1..]| ==> value[1..][i] == value[i + 1];
      QuotedStops(value[1..], tail);
    }
  }

  lemma {:induction false} UnescapePlain(value: string)
    requires Quotable(value)
    ensures Unescape(value, '"') == Some(value)
  {
    if value == "" {
    } else {
      assert value[0] !in {'"', '\\', '\n'};
      assert forall i :: 0 <= i < |value[1..]| ==> value[1..][i] == value[i + 1];
      UnescapePlain(value[1..]);
      assert [value[0]] + value[1..] == value;
    }
  }

  lemma ScanQuoted(value: string, tail: string)
    requires Quotable(value)
    ensures Scan("\"" + value + "\"" + tail) == Some((Str("\"" + value + "\""), tail))
  {
    var whole, token := "\"" + value + "\"" + tail, "\"" + value + "\"";
    assert whole[1..] == value + "\"" + tail;
    QuotedStops(value, tail);
    assert TokenLength(whole) == |token|;
    assert whole[..|token|] == token && whole[|token|..] == tail;
  }

  lemma QuotedValue(value: string)
    requires Quotable(value)
    ensures ValueOf(Str("\"" + value + "\"")) == value
  {
    var token := "\"" + value + "\"";
    assert token[1..|token| - 1] == value;
    UnescapePlain(value);
  }

  lemma IdentifierValue(word: string)
    requires IsIdentifier(word)
    ensures ValueOf(Ident(word)) == word
  {
    assert IsIdentRune(word[0], 0);
  }

  lemma ScanAssign(tail: string)
    ensures Scan("=" + tail) == Some((Assign, tail))
  {
    var whole := "=" + tail;
    assert whole[..1] == "=" && whole[1..] == tail;
  }

  lemma ScanSpace(tail: string)
    ensures Scan(" " + tail) == Scan(tail)
  {
    assert (" " + tail)[1..] == tail;
  }
}
