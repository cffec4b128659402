/** How literals, escapes, comments and blanks of a command are read, said on their own texts. */
module AgentLiterals {
  import opened Common
  import opened Text
  import opened AgentLexer
  import opened AgentParser
  import opened AgentWords

  // ------------------------------------------------------------------ escapes in double quotes

  /** A character as it may stand between double quotes. */
  function EscapeOne(c: char): (s: string)
    ensures s != ""
  {
    if c == '"' then "\\\"" else if c == '\\' then "\\\\" else if c == '\n' then "\\n" else [c]
  }

  function Escaped(value: string): string {
    if value == "" then "" else EscapeOne(value[0]) + Escaped(value[1..])
  }

  lemma OneStops(c: char, rest: string)
    ensures QuotedLength(EscapeOne(c) + rest, '"') == |EscapeOne(c)| + QuotedLength(rest, '"')
  {
    assert (EscapeOne(c) + rest)[|EscapeOne(c)|..] == rest;
  }

  lemma OneUnescaped(c: char, rest: string)
    ensures Unescape(EscapeOne(c) + rest, '"') == Prepend(c, Unescape(rest, '"'))
  {
    assert (EscapeOne(c) + rest)[|EscapeOne(c)|..] == rest;
  }

  lemma Reassociate(a: string, b: string, c: string)
    ensures (a + b) + c == a + (b + c)
  {
  }

  lemma {:induction false} EscapedStops(value: string, tail: string)
    ensures QuotedLength(Escaped(value) + ("\"" + tail), '"') == |Escaped(value)| + 1
  {
    var close := "\"" + tail;
    if value == "" {
      assert Escaped(value) + close == close;
    } else {
      EscapedStops(value[1..], tail);
      Reassociate(EscapeOne(value[0]), Escaped(value[1..]), close);
      OneStops(value[0], Escaped(value[1..]) + close);
    }
  }

  lemma {:induction false} UnescapeEscaped(value: string)
    ensures Unescape(Escaped(value), '"') == Some(value)
  {
    if value == "" {
    } else {
      UnescapeEscaped(value[1..]);
      OneUnescaped(value[0], Escaped(value[1..]));
      assert [value[0]] + value[1..] == value;
    }
  }

  /** Every text can be written between double quotes: it is one token, and its value is the text. */
  lemma EveryValueCanBeQuoted(value: string, tail: string)
    ensures var token := "\"" + Escaped(value) + "\"";
      && Scan(token + tail) == Some((Str(token), tail))
      && ValueOf(Str(token)) == value
  {
    var token := "\"" + Escaped(value) + "\"";
    var whole := token + tail;
    assert whole[1..] == Escaped(value) + ("\"" + tail);
    EscapedStops(value, tail);
    assert TokenLength(whole) == |token|;
    assert whole[..|token|] == token && whole[|token|..] == tail;
    assert token[1..|token| - 1] == Escaped(value);
    UnescapeEscaped(value);
  }

  /** The escapes of one letter. */
  lemma LetterEscapes()
    ensures Unescape("\\a", '"') == Some([7 as char]) && Unescape("\\b", '"') == Some([8 as char])
    ensures Unescape("\\t", '"') == Some("\t") && Unescape("\\n", '"') == Some("\n")
    ensures Unescape("\\v", '"') == Some([11 as char]) && Unescape("\\f", '"') == Some([12 as char])
    ensures Unescape("\\r", '"') == Some("\r") && Unescape("\\'", '"') == None
  {
    OneLetter("\\a", 'a', 7);
    OneLetter("\\b", 'b', 8);
    OneLetter("\\t", 't', 9);
    OneLetter("\\n", 'n', 10);
    OneLetter("\\v", 'v', 11);
    OneLetter("\\f", 'f', 12);
    OneLetter("\\r", 'r', 13);
  }

  lemma OneLetter(s: string, c: char, code: nat)
    requires code < 128 && s == ['\\', c] && Letter(c, '"') == Some(code as char)
    ensures Unescape(s, '"') == Some([code as char])
  {
    assert s[0] == '\\' && s[1] == c && s[2..] == "";
    assert Unescape("", '"') == Some("");
    assert [code as char] + "" == [code as char];
  }

  function LowerHex(n: nat): char
    requires n < 16
  {
    if n < 10 then ('0' as int + n) as char else ('a' as int + n - 10) as char
  }

  /** The number in `width` digits. */
  function Digits(n: nat, base: nat, width: nat): (s: string)
    requires 2 <= base <= 16
    ensures |s| == width
  {
    if width == 0 then "" else Digits(n / base, base, width - 1) + [LowerHex(n % base)]
  }

  function Power(base: nat, width: nat): nat {
    if width == 0 then 1 else base * Power(base, width - 1)
  }

  lemma {:induction false} NumberOfDigits(n: nat, base: nat, width: nat)
    requires 2 <= base <= 16 && n < Power(base, width)
    ensures Number(Digits(n, base, width), base) == n
    decreases width
  {
    if width == 0 {
    } else {
      var q, d := Quotient(n, base, Power(base, width - 1));
      NumberOfDigits(q, base, width - 1);
      LastDigit(n, q, d, base, width);
    }
  }

  lemma Quotient(n: nat, base: nat, bound: nat) returns (q: nat, d: nat)
    requires base >= 1 && n < base * bound
    ensures q == n / base && d == n % base && n == q * base + d && q < bound
  {
    q, d := n / base, n % base;
    QuotientFits(n, base, bound);
    DivMod(n, base);
  }

  lemma LastDigit(n: nat, q: nat, d: nat, base: nat, width: nat)
    requires 2 <= base <= 16 && width > 0 && q == n / base && d == n % base
    requires Number(Digits(q, base, width - 1), base) == q
    ensures Number(Digits(n, base, width), base) == q * base + d
  {
    assert d < base;
    NumberSnoc(Digits(q, base, width - 1), d, base);
  }

  lemma NumberSnoc(s: string, d: nat, base: nat)
    requires d < base <= 16 && Number(s, base) >= 0
    ensures Number(s + [LowerHex(d)], base) == Number(s, base) * base + d
  {
    assert (s + [LowerHex(d)])[..|s|] == s;
    assert HexValue(LowerHex(d)) == d;
  }

  lemma DivMod(n: nat, base: nat)
    requires base >= 1
    ensures n / base * base + n % base == n
  {
  }

  lemma QuotientFits(n: nat, base: nat, bound: nat)
    requires base >= 1 && n < base * bound
    ensures n / base < bound
  {
  }

  /** The numeric escapes: two, four or eight hexadecimal digits, or three octal ones, followed by anything. */
  lemma NumericEscapes(n: nat, rest: string)
    ensures n < 0x100 ==> Unescape("\\x" + Digits(n, 16, 2) + rest, '"') == Prepend(n as char, Unescape(rest, '"'))
    ensures n < 0x100 ==> Unescape("\\" + Digits(n, 8, 3) + rest, '"') == Prepend(n as char, Unescape(rest, '"'))
    ensures n < 0x1_0000 ==>
      Unescape("\\u" + Digits(n, 16, 4) + rest, '"') == Prepend(RuneOf(n), Unescape(rest, '"'))
    ensures n <= 0x10FFFF ==>
      Unescape("\\U" + Digits(n, 16, 8) + rest, '"') == Prepend(RuneOf(n), Unescape(rest, '"'))
  {
    Powers();
    if n < 0x100 {
      NumberOfDigits(n, 16, 2);
      NumberOfDigits(n, 8, 3);
      HexEscape('x', 2, n, rest);
      OctalEscape(n, rest);
    }
    if n < 0x1_0000 {
      NumberOfDigits(n, 16, 4);
      HexEscape('u', 4, n, rest);
    }
    if n <= 0x10FFFF {
      NumberOfDigits(n, 16, 8);
      HexEscape('U', 8, n, rest);
    }
  }

  lemma Powers()
    ensures Power(16, 2) == 0x100 && Power(16, 4) == 0x1_0000 && Power(16, 8) == 0x1_0000_0000 && Power(8, 3) == 0x200
  {
    assert Power(16, 1) == 16 && Power(16, 3) == 0x1000 && Power(16, 5) == 0x10_0000 && Power(16, 6) == 0x100_0000;
    assert Power(16, 7) == 0x1000_0000 && Power(8, 1) == 8 && Power(8, 2) == 64;
  }

  lemma HexEscape(c: char, width: nat, n: nat, rest: string)
    requires (c == 'x' && width == 2) || (c == 'u' && width == 4) || (c == 'U' && width == 8)
    requires n <= 0x10FFFF && Number(Digits(n, 16, width), 16) == n
    ensures Unescape(['\\', c] + Digits(n, 16, width) + rest, '"') == Prepend(RuneOf(n), Unescape(rest, '"'))
  {
    var s := ['\\', c] + Digits(n, 16, width) + rest;
    assert s[2..2 + width] == Digits(n, 16, width) && s[2 + width..] == rest;
  }

  lemma OctalEscape(n: nat, rest: string)
    requires n < 0x100 && Number(Digits(n, 8, 3), 8) == n
    ensures Unescape("\\" + Digits(n, 8, 3) + rest, '"') == Prepend(n as char, Unescape(rest, '"'))
  {
    var s := "\\" + Digits(n, 8, 3) + rest;
    assert s[1..4] == Digits(n, 8, 3) && s[4..] == rest;
    assert s[1] == Digits(n, 8, 3)[0];
    FirstDigit(n);
  }

  lemma FirstDigit(n: nat)
    ensures '0' <= Digits(n, 8, 3)[0] <= '7'
  {
    assert Digits(n / 8, 8, 2)[0] == Digits(n / 8 / 8, 8, 1)[0] == LowerHex(n / 8 / 8 % 8);
    assert Digits(n, 8, 3)[0] == Digits(n / 8, 8, 2)[0];
  }

  /** The hexadecimal digits, of both cases. */
  lemma HexDigitsExactly(c: char)
    ensures HexValue(c) >= 0 <==> c in "0123456789abcdef" || c in "0123456789ABCDEF"
    ensures HexValue(c) >= 0 ==>
      HexValue(c) < 16 && (c == "0123456789abcdef"[HexValue(c)] || c == "0123456789ABCDEF"[HexValue(c)])
  {
    if HexValue(c) >= 0 {
      assert c == "0123456789abcdef"[HexValue(c)] || c == "0123456789ABCDEF"[HexValue(c)];
    }
  }

  // ------------------------------------------------------------------ tokens that are no pieces

  /** Text between two of these quotes, without the quote, backslash and newline, is one token. */
  lemma {:induction false} ClosedBy(quote: char, value: string, tail: string)
    requires quote !in {'\\', '\n'} && Free(value, {quote, '\\', '\n'})
    ensures QuotedLength(value + ([quote] + tail), quote) == |value| + 1
  {
    var whole := value + ([quote] + tail);
    if value == "" {
      assert whole == [quote] + tail;
    } else {
      assert value[0] !in {quote, '\\', '\n'};
      assert whole[1..] == value[1..] + ([quote] + tail);
      assert forall i :: 0 <= i < |value[1..]| ==> value[1..][i] == value[i + 1];
      ClosedBy(quote, value[1..], tail);
    }
  }

  lemma CharacterIsNoPiece(value: string, tail: string)
    requires Free(value, {'\'', '\\', '\n'})
    ensures Scan("'" + value + "'" + tail) == Some((Other("'" + value + "'"), tail))
  {
    var whole, token := "'" + value + "'" + tail, "'" + value + "'";
    assert whole[1..] == value + (['\''] + tail);
    ClosedBy('\'', value, tail);
    assert TokenLength(whole) == |token|;
    assert whole[..|token|] == token && whole[|token|..] == tail;
  }

  lemma {:induction false} RawStops(value: string, tail: string)
    requires Free(value, {'`'})
    ensures RawLength(value + ("`" + tail)) == |value| + 1
  {
    var whole := value + ("`" + tail);
    if value == "" {
      assert whole == "`" + tail;
    } else {
      assert value[0] != '`';
      assert whole[1..] == value[1..] + ("`" + tail);
      assert forall i :: 0 <= i < |value[1..]| ==> value[1..][i] == value[i + 1];
      RawStops(value[1..], tail);
    }
  }

  lemma {:induction false} FilteredEmpty(value: string)
    ensures Filtered(value) == "" <==> forall c <- value :: c == '\r'
  {
    if value != "" {
      FilteredEmpty(value[1..]);
      assert value[0] in value && forall c <- value :: c == value[0] || c in value[1..];
      assert forall c <- value[1..] :: c in value;
      assert Filtered(value) == "" <==> value[0] == '\r' && Filtered(value[1..]) == "";
    }
  }

  lemma ScanRaw(value: string)
    requires Free(value, {'`'})
    ensures Scan("`" + value + "`") == Some((Other("`" + value + "`"), ""))
  {
    var token := "`" + value + "`";
    assert token[1..] == value + ("`" + "");
    RawStops(value, "");
    assert TokenLength(token) == |token|;
    assert token[..|token|] == token && token[|token|..] == "";
  }

  lemma RawValue(value: string)
    requires Free(value, {'`'})
    ensures ValueOf(Other("`" + value + "`")) == Filtered(value)
  {
    var token := "`" + value + "`";
    assert token[1..|token| - 1] == value;
  }

  lemma OneBadToken(token: Token)
    requires !IsPiece(Some(token))
    ensures ParseTokens([token]) == if ValueOf(token) == "" then Crashed else Failed([Some(token)])
  {
    assert Tail([token]) == [];
  }

  /** A raw literal is not accepted as an argument; one that is empty but for carriage returns even panics. */
  lemma RawIsNoPiece(value: string)
    requires Free(value, {'`'})
    ensures Parse("`" + value + "`") ==
      if forall c <- value :: c == '\r' then Crashed else Failed([Some(Other("`" + value + "`"))])
  {
    var token := "`" + value + "`";
    ScanRaw(value);
    RawValue(value);
    LexNext(token, Other(token), "");
    FilteredEmpty(value);
    OneBadToken(Other(token));
  }

  // ------------------------------------------------------------------ comments and blanks

  lemma {:induction false} LineCommentEnds(text: string, rest: string)
    requires Free(text, {'\n'}) && (rest == "" || rest[0] == '\n')
    ensures AfterLineComment(text + rest) == rest
  {
    if text == "" {
      assert text + rest == rest;
    } else {
      assert text[0] != '\n';
      assert (text + rest)[1..] == text[1..] + rest;
      assert forall i :: 0 <= i < |text[1..]| ==> text[1..][i] == text[i + 1];
      LineCommentEnds(text[1..], rest);
    }
  }

  /** Two slashes hide the rest of the line. */
  lemma LineCommentIsSkipped(text: string, rest: string)
    requires Free(text, {'\n'}) && (rest == "" || rest[0] == '\n')
    ensures Scan("//" + text + rest) == Scan(rest)
  {
    assert ("//" + text + rest)[2..] == text + rest;
    LineCommentEnds(text, rest);
  }

  lemma {:induction false} BlockCommentEnds(text: string, rest: string)
    requires forall i :: 0 <= i < |text| ==> !(text[i] == '*' && (text + "*/")[i + 1] == '/')
    ensures AfterBlockComment(text + ("*/" + rest)) == rest
  {
    var whole := text + ("*/" + rest);
    if text == "" {
      assert whole == "*/" + rest && whole[2..] == rest;
    } else {
      assert whole[1..] == text[1..] + ("*/" + rest);
      assert whole[0] == text[0] && whole[1] == (text + "*/")[1];
      forall i | 0 <= i < |text[1..]| ensures !(text[1..][i] == '*' && (text[1..] + "*/")[i + 1] == '/') {
        assert text[1..][i] == text[i + 1] && (text[1..] + "*/")[i + 1] == (text + "*/")[i + 2];
      }
      BlockCommentEnds(text[1..], rest);
    }
  }

  /** A slash and a star hide everything up to the first star and slash. */
  lemma BlockCommentIsSkipped(text: string, rest: string)
    requires forall i :: 0 <= i < |text| ==> !(text[i] == '*' && (text + "*/")[i + 1] == '/')
    ensures Scan("/*" + (text + ("*/" + rest))) == Scan(rest)
  {
    assert ("/*" + (text + ("*/" + rest)))[2..] == text + ("*/" + rest);
    BlockCommentEnds(text, rest);
  }

  /** Blanks before a token do not matter. */
  lemma {:induction false} BlanksAreSkipped(blanks: string, rest: string)
    requires forall i :: 0 <= i < |blanks| ==> blanks[i] in {' ', '\t', '\r', '\n'}
    ensures Scan(blanks + rest) == Scan(rest)
  {
    if blanks == "" {
      assert blanks + rest == rest;
    } else {
      assert (blanks + rest)[0] == blanks[0] && (blanks + rest)[1..] == blanks[1..] + rest;
      assert forall i :: 0 <= i < |blanks[1..]| ==> blanks[1..][i] == blanks[i + 1];
      BlanksAreSkipped(blanks[1..], rest);
    }
  }

  /** A URL without quotes is no argument: the colon is no piece, and what follows is a comment. */
  lemma UnquotedUrlFails(scheme: string, rest: string)
    requires IsWord(scheme) && |scheme| >= 2 && Free(rest, {'\n'})
    ensures Parse(scheme + (":" + ("//" + rest))) == Failed([Some(Other(":"))])
  {
    var colon := ":" + ("//" + rest);
    WordEndsBefore(scheme, ':', "//" + rest);
    WordIsIdentifier(scheme);
    IdentifierValue(scheme);
    LexNext(scheme + colon, Ident(scheme), colon);
    ScanColon("//" + rest);
    LexNext(colon, Other(":"), "//" + rest);
    LineCommentIsSkipped(rest, "");
    assert "//" + rest + "" == "//" + rest;
    assert Lex("//" + rest) == [];
    FailsAtColon(scheme);
  }

  lemma ScanColon(rest: string)
    ensures Scan(":" + rest) == Some((Other(":"), rest))
  {
    var whole := ":" + rest;
    assert whole[..1] == ":" && whole[1..] == rest;
  }

  lemma FailsAtColon(word: string)
    requires ValueOf(Ident(word)) == word != ""
    ensures ParseTokens([Ident(word)] + ([Other(":")] + [])) == Failed([Some(Other(":"))])
  {
    var tokens := [Ident(word)] + ([Other(":")] + []);
    assert Tail(tokens) == [Other(":")] && Tail([Other(":")]) == [];
    assert Unquote(":") == None;
    assert ArgStep([Other(":")]).errors == [Some(Other(":"))];
  }

  // ------------------------------------------------------------------ values assigned with '='

  /** Three tokens that are one argument. */
  lemma OneAssignment(text: string, piece: Token, value: Token, arg: Argument)
    requires Lex(text) == [piece, Assign, value] && IsPiece(Some(piece)) && IsPiece(Some(value))
    requires BuildArgument(piece.Str?, ValueOf(piece), ValueOf(value)) == Some(arg)
    ensures Parse(text) == Parsed([arg])
  {
    AssignedStep(piece, value, []);
    assert [piece, Assign, value] + [] == [piece, Assign, value];
    StepOfParse([piece, Assign, value], arg, []);
    assert [arg] + [] == [arg];
  }

  lemma LexNameAndValue(name: string, value: string)
    requires IsIdentifier(name) && Quotable(value)
    ensures Lex(name + ("=" + ("\"" + value + "\""))) == [Ident(name), Assign, Str("\"" + value + "\"")]
  {
    LexName(name, "\"" + value + "\"");
    LexLiteral(value);
  }

  /** The value after '=' may be anything that can be quoted; an option with an empty one is an option without. */
  lemma AssignedValue(name: string, value: string)
    requires IsIdentifier(name) && Quotable(value)
    ensures Parse(name + ("=" + ("\"" + value + "\""))) ==
      Parsed([if name[0] == '-' && value == "" then BoolArg(name) else Arg(name, value)])
  {
    IdentifierValue(name);
    QuotedValue(value);
    LexNameAndValue(name, value);
    OneAssignment(name + ("=" + ("\"" + value + "\"")), Ident(name), Str("\"" + value + "\""),
                  if name[0] == '-' && value == "" then BoolArg(name) else Arg(name, value));
  }

  lemma LexLiteral(value: string)
    requires Quotable(value)
    ensures Lex("\"" + value + "\"") == [Str("\"" + value + "\"")]
  {
    var token := "\"" + value + "\"";
    assert token + "" == token;
    ScanQuoted(value, "");
    LexNext(token, Str(token), "");
  }

  lemma LexTwoLiterals(name: string, value: string)
    requires Quotable(name) && Quotable(value)
    ensures Lex("\"" + name + "\"" + ("=" + ("\"" + value + "\"")))
         == [Str("\"" + name + "\""), Assign, Str("\"" + value + "\"")]
  {
    var left, right := "\"" + name + "\"", "\"" + value + "\"";
    ScanQuoted(name, "=" + right);
    LexNext(left + ("=" + right), Str(left), "=" + right);
    ScanAssign(right);
    LexNext("=" + right, Assign, right);
    LexLiteral(value);
  }

  /** A value assigned to a literal is dropped. */
  lemma LiteralDropsValue(name: string, value: string)
    requires Quotable(name) && name != "" && name[0] != '-' && Quotable(value)
    ensures Parse("\"" + name + "\"" + ("=" + ("\"" + value + "\""))) == Parsed([Arg("", name)])
  {
    QuotedValue(name);
    QuotedValue(value);
    LexTwoLiterals(name, value);
    OneAssignment("\"" + name + "\"" + ("=" + ("\"" + value + "\"")), Str("\"" + name + "\""),
                  Str("\"" + value + "\""), Arg("", name));
  }

  // ------------------------------------------------------------------ the stage of curl

  predicate IsBlankText(s: string) {
    forall i :: 0 <= i < |s| ==> s[i] in {' ', '\t', '\r', '\n'}
  }

  lemma {:induction false} TrimLeftBlanks(blanks: string, s: string)
    requires IsBlankText(blanks) && (s == "" || !IsSpace(s[0]))
    ensures TrimLeft(blanks + s) == s
  {
    if blanks == "" {
      assert blanks + s == s;
    } else {
      assert (blanks + s)[0] == blanks[0] && (blanks + s)[1..] == blanks[1..] + s;
      assert forall i :: 0 <= i < |blanks[1..]| ==> blanks[1..][i] == blanks[i + 1];
      TrimLeftBlanks(blanks[1..], s);
    }
  }

  lemma {:induction false} TrimRightBlanks(s: string, blanks: string)
    requires IsBlankText(blanks) && (s == "" || !IsSpace(s[|s| - 1]))
    ensures TrimRight(s + blanks) == s
  {
    if blanks == "" {
      assert s + blanks == s;
    } else {
      var n := |blanks| - 1;
      assert (s + blanks)[|s| + n] == blanks[n] && (s + blanks)[..|s| + n] == s + blanks[..n];
      TrimRightBlanks(s, blanks[..n]);
    }
  }

  /** Trimming takes away the blanks on both sides of a text, and nothing else. */
  lemma TrimmedIsInside(before: string, s: string, after: string)
    requires IsBlankText(before) && IsBlankText(after)
    requires s != "" && !IsSpace(s[0]) && !IsSpace(s[|s| - 1])
    ensures TrimSpace(before + (s + after)) == s
  {
    TrimLeftBlanks(before, s + after);
    TrimRightBlanks(s, after);
  }
}
