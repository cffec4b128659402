/** Which lists of arguments survive being printed and parsed again: when no argument has a double quote, exactly
    those of well-formed arguments. */
module AgentRoundTrip {
  import opened Common
  import opened Text
  import opened AgentLexer
  import opened AgentParser

  // ------------------------------------------------------------------ what a scanned token says about the text

  ghost predicate IsSuffix(rest: string, s: string) {
    |rest| <= |s| && s[|s| - |rest|..] == rest
  }

  lemma SuffixOfSuffix(a: string, b: string, c: string)
    requires IsSuffix(a, b) && IsSuffix(b, c)
    ensures IsSuffix(a, c)
  {
  }

  lemma {:induction false} LineCommentSuffix(s: string)
    ensures IsSuffix(AfterLineComment(s), s)
  {
    if s == "" || s[0] == '\n' {
    } else {
      LineCommentSuffix(s[1..]);
      SuffixOfSuffix(AfterLineComment(s), s[1..], s);
    }
  }

  lemma {:induction false} BlockCommentSuffix(s: string)
    ensures IsSuffix(AfterBlockComment(s), s)
  {
    if |s| < 2 || (s[0] == '*' && s[1] == '/') {
    } else {
      BlockCommentSuffix(s[1..]);
      SuffixOfSuffix(AfterBlockComment(s), s[1..], s);
    }
  }

  lemma {:induction false} IdentLengthOfPrefix(s: string, i: nat)
    ensures IdentLength(s[..IdentLength(s, i)], i) == IdentLength(s, i)
  {
    if s == "" || !IsIdentRune(s[0], i) {
    } else {
      IdentLengthOfPrefix(s[1..], i + 1);
      assert s[..IdentLength(s, i)][1..] == s[1..][..IdentLength(s[1..], i + 1)];
    }
  }

  /** Identifiers are identifiers, and a string literal shows its quote. */
  predicate Sound(token: Token) {
    && (token.Ident? ==> IsIdentifier(token.text))
    && (token.Str? ==> token.text != "" && token.text[0] == '"')
  }

  lemma {:induction false} ScanIsSound(s: string)
    requires Scan(s).Some?
    ensures var (token, rest) := Scan(s).value;
      && IsSuffix(rest, s) && Sound(token)
      && |TextOf(token)| + |rest| <= |s|
      && (token.Str? ==> '"' in s)
    decreases |s|
  {
    if IsBlank(s[0]) {
      ScanIsSound(s[1..]);
      SuffixOfSuffix(Scan(s).value.1, s[1..], s);
    } else if StartsComment(s) {
      AfterCommentSuffix(s);
      ScanIsSound(AfterComment(s));
      SuffixOfSuffix(Scan(s).value.1, AfterComment(s), s);
    } else {
      TokenIsSound(s);
    }
  }

  lemma TokenIsSound(s: string)
    requires s != ""
    ensures var n := TokenLength(s);
      && IsSuffix(s[n..], s) && Sound(Classify(s[..n]))
      && |TextOf(Classify(s[..n]))| <= n
      && (Classify(s[..n]).Str? ==> '"' in s)
  {
    IdentLengthOfPrefix(s, 0);
  }

  lemma AfterCommentSuffix(s: string)
    requires StartsComment(s)
    ensures IsSuffix(AfterComment(s), s)
  {
    LineCommentSuffix(s[2..]);
    BlockCommentSuffix(s[2..]);
    SuffixOfSuffix(AfterComment(s), s[2..], s);
  }

  function TotalLength(tokens: seq<Token>): nat {
    if tokens == [] then 0 else |TextOf(tokens[0])| + TotalLength(tokens[1..])
  }

  lemma {:induction false} LexIsSound(s: string)
    ensures forall i :: 0 <= i < |Lex(s)| ==> Sound(Lex(s)[i]) && (Lex(s)[i].Str? ==> '"' in s)
    ensures TotalLength(Lex(s)) <= |s|
    decreases |s|
  {
    if Scan(s).None? {
    } else {
      ScanIsSound(s);
      var (token, rest) := Scan(s).value;
      LexIsSound(rest);
      assert Lex(s)[1..] == Lex(rest);
      forall i | 1 <= i < |Lex(s)| ensures Sound(Lex(s)[i]) && (Lex(s)[i].Str? ==> '"' in s) {
        assert Lex(s)[i] == Lex(rest)[i - 1];
      }
    }
  }

  // ------------------------------------------------------------------ values of literals

  /** Without a double quote in the value, a literal is at least as long as its value, and longer if it needed
      an escape. */
  lemma {:induction false} UnescapeLength(s: string)
    requires Unescape(s, '"').Some?
    ensures |Unescape(s, '"').value| <= |s|
    ensures |Unescape(s, '"').value| == |s| ==> Quotable(s) && Unescape(s, '"').value == s
    decreases |s|
  {
    if s != "" && s[0] != '\\' {
      UnescapeLength(s[1..]);
      if |Unescape(s, '"').value| == |s| {
        assert Unescape(s, '"').value == [s[0]] + s[1..] == s;
        forall i | 0 <= i < |s| ensures s[i] !in {'"', '\\', '\n'} {
          assert i > 0 ==> s[i] == s[1..][i - 1];
        }
      }
    } else if s != "" {
      UnescapeEscapeLength(s);
    }
  }

  lemma {:induction false} UnescapeEscapeLength(s: string)
    requires s != "" && s[0] == '\\' && Unescape(s, '"').Some?
    ensures |Unescape(s, '"').value| < |s|
    decreases |s|, 0
  {
    if Letter(s[1], '"').Some? {
      UnescapeLength(s[2..]);
    } else {
      var n := if s[1] == 'x' then 2 else if s[1] == 'u' then 4 else if s[1] == 'U' then 8 else 3;
      var from := if s[1] in {'x', 'u', 'U'} then 2 else 1;
      UnescapeLength(s[from + n..]);
    }
  }

  /** A literal whose value is quote-free and at most two runes shorter is the value between quotes. */
  lemma LiteralOfValue(text: string, value: string)
    requires text != "" && text[0] == '"' && ValueOf(Str(text)) == value
    requires '"' !in value && |text| <= |value| + 2
    ensures Quotable(value) && |text| == |value| + 2
  {
    assert text[0] in text;
    UnescapeLength(text[1..|text| - 1]);
  }

  lemma {:induction false} NumberIsDigits(s: string, base: nat)
    requires Number(s, base) >= 0
    ensures forall i :: 0 <= i < |s| ==> HexValue(s[i]) >= 0
  {
    if s == "" {
    } else {
      NumberIsDigits(s[..|s| - 1], base);
    }
  }

  /** A character that plays no part in escapes, but for standing for itself. */
  predicate IsPlainChar(c: char) {
    HexValue(c) < 0 && c !in {'x', 'u', 'U', '\\'} && (Letter(c, '"') == None || Letter(c, '"') == Some(c))
  }

  lemma InSuffix(s: string, n: nat, c: char)
    requires c in s && n <= |s| && forall i :: 0 <= i < n ==> s[i] != c
    ensures c in s[n..]
  {
    var k :| 0 <= k < |s| && s[k] == c;
    assert s[n..][k - n] == c;
  }

  lemma InPrepended(x: char, rest: string, c: char)
    requires x == c || c in rest
    ensures c in [x] + rest
  {
    if x == c {
      assert ([x] + rest)[0] == c;
    } else {
      var k :| 0 <= k < |rest| && rest[k] == c;
      assert ([x] + rest)[k + 1] == c;
    }
  }

  /** Such a character is in the value whenever it is in the literal. */
  lemma {:induction false} UnescapeKeeps(s: string, c: char)
    requires IsPlainChar(c) && c in s && Unescape(s, '"').Some?
    ensures c in Unescape(s, '"').value
    decreases |s|
  {
    if s[0] != '\\' {
      KeepsAfter(s, 1, c);
      InPrepended(s[0], Unescape(s[1..], '"').value, c);
    } else if Letter(s[1], '"').Some? {
      KeepsAfter(s, 2, c);
      InPrepended(Letter(s[1], '"').value, Unescape(s[2..], '"').value, c);
    } else {
      var n := if s[1] == 'x' then 2 else if s[1] == 'u' then 4 else if s[1] == 'U' then 8 else 3;
      var from := if s[1] in {'x', 'u', 'U'} then 2 else 1;
      var base := if from == 2 then 16 else 8;
      DigitsDiffer(s, from, n, base, c);
      KeepsAfter(s, from + n, c);
      InPrepended(RuneOf(Number(s[from..from + n], base)), Unescape(s[from + n..], '"').value, c);
    }
  }

  lemma DigitsDiffer(s: string, from: nat, n: nat, base: nat, c: char)
    requires from + n <= |s| && Number(s[from..from + n], base) >= 0 && HexValue(c) < 0
    requires forall i :: 0 <= i < from ==> s[i] != c
    ensures forall i :: 0 <= i < from + n ==> s[i] != c
  {
    var digits := s[from..from + n];
    NumberIsDigits(digits, base);
    assert forall i :: from <= i < from + n ==> s[i] == digits[i - from];
  }

  lemma {:induction false} KeepsAfter(s: string, n: nat, c: char)
    requires IsPlainChar(c) && c in s && 0 < n <= |s| && Unescape(s[n..], '"').Some?
    ensures (exists i :: 0 <= i < n && s[i] == c) || c in Unescape(s[n..], '"').value
    decreases |s|, 0
  {
    if forall i :: 0 <= i < n ==> s[i] != c {
      InSuffix(s, n, c);
      UnescapeKeeps(s[n..], c);
    }
  }

  lemma UnescapeNeedsQuotes(s: string)
    requires NeedsQuotes(s) && Unescape(s, '"').Some?
    ensures NeedsQuotes(Unescape(s, '"').value)
  {
    var i :| 0 <= i < |s| && s[i] in {' ', ':', '/', '@', '?', '&', '#'};
    UnescapeKeeps(s, s[i]);
    var value := Unescape(s, '"').value;
    var k :| 0 <= k < |value| && value[k] == s[i];
  }

  // ------------------------------------------------------------------ printed quotes

  /** Between any two double quotes there is a character that makes the printer quote. */
  ghost predicate Spaced(s: string) {
    forall i, j :: 0 <= i < j < |s| && s[i] == '"' && s[j] == '"' ==> NeedsQuotes(s[i + 1..j])
  }

  lemma SliceOfSuffix(rest: string, s: string, i: nat, j: nat)
    requires IsSuffix(rest, s) && i <= j <= |rest|
    ensures rest[i..j] == s[|s| - |rest| + i..|s| - |rest| + j]
  {
  }

  lemma SliceOfPrefix(s: string, n: nat, i: nat, j: nat)
    requires i <= j <= n <= |s|
    ensures s[..n][i..j] == s[i..j]
  {
  }

  lemma SpacedSuffix(rest: string, s: string)
    requires IsSuffix(rest, s) && Spaced(s)
    ensures Spaced(rest)
  {
    var d := |s| - |rest|;
    forall i, j | 0 <= i < j < |rest| && rest[i] == '"' && rest[j] == '"' ensures NeedsQuotes(rest[i + 1..j]) {
      SliceOfSuffix(rest, s, i + 1, j);
      assert s[d + i] == rest[i] && s[d + j] == rest[j];
    }
  }

  lemma SpacedJoin(a: string, b: string)
    requires Spaced(a) && Spaced(b)
    ensures Spaced(a + " " + b)
  {
    var s, d := a + " " + b, |a| + 1;
    assert s[|a|] == ' ' && s[d..] == b && s[..|a|] == a;
    forall i, j | 0 <= i < j < |s| && s[i] == '"' && s[j] == '"' ensures NeedsQuotes(s[i + 1..j]) {
      if j < |a| {
        assert a[i] == s[i] && a[j] == s[j];
        SliceOfPrefix(s, |a|, i + 1, j);
      } else if i > |a| {
        assert b[i - d] == s[i] && b[j - d] == s[j];
        SliceOfSuffix(b, s, i - d + 1, j - d);
      } else {
        SpaceBetween(s, i + 1, j, |a|);
      }
    }
  }

  lemma SpaceBetween(s: string, i: nat, j: nat, k: nat)
    requires i <= k < j <= |s| && s[k] == ' '
    ensures NeedsQuotes(s[i..j])
  {
    assert s[i..j][k - i] == ' ';
  }

  predicate QuoteFree(a: Argument) {
    '"' !in a.name && (a.Arg? ==> '"' !in a.value)
  }

  lemma SpacedQuoted(before: string, value: string, s: string)
    requires s == before + ("\"" + value + "\"") && '"' !in before && '"' !in value && NeedsQuotes(value)
    ensures Spaced(s)
  {
    var n := |before|;
    assert forall k :: 0 <= k < n ==> s[k] == before[k] != '"';
    assert forall k :: n < k <= n + |value| ==> s[k] == value[k - n - 1] != '"';
    assert s[n + 1..n + |value| + 1] == value;
  }

  lemma SpacedValue(before: string, value: string)
    requires '"' !in before && '"' !in value
    ensures Spaced(before + QuoteIfNecessary(value))
  {
    if NeedsQuotes(value) {
      SpacedQuoted(before, value, before + QuoteIfNecessary(value));
    }
  }

  lemma SpacedArgument(a: Argument)
    requires QuoteFree(a)
    ensures Spaced(FormatArgument(a))
  {
    if a.Arg? {
      if a.name == "" {
        SpacedValue("", a.value);
        assert "" + QuoteIfNecessary(a.value) == QuoteIfNecessary(a.value);
      } else {
        SpacedValue(a.name + "=", a.value);
      }
    }
  }

  lemma {:induction false} SpacedFormat(args: seq<Argument>)
    requires forall i :: 0 <= i < |args| ==> QuoteFree(args[i])
    ensures Spaced(Format(args))
  {
    if args == [] {
    } else {
      SpacedArgument(args[0]);
      SpacedFormat(args[1..]);
      if |args| > 1 {
        SpacedJoin(FormatArgument(args[0]), Format(args[1..]));
      }
    }
  }

  /** What a token of a printed command is: an identifier, or a literal whose value has a double quote or is one
      that the printer quotes. */
  predicate Printed(token: Token) {
    && (token.Ident? ==> IsIdentifier(token.text))
    && (token.Str? ==> '"' in ValueOf(token) || NeedsQuotes(ValueOf(token)))
  }

  lemma LiteralIsPrinted(text: string)
    requires text != "" && text[0] == '"' && Spaced(text)
    ensures Printed(Str(text))
  {
    if Unquote(text).Some? {
      assert NeedsQuotes(text[1..|text| - 1]);
      UnescapeNeedsQuotes(text[1..|text| - 1]);
    } else {
      assert text[0] in ValueOf(Str(text));
    }
  }

  lemma SpacedPrefix(s: string, n: nat)
    requires Spaced(s) && n <= |s|
    ensures Spaced(s[..n])
  {
    forall i, j | 0 <= i < j < n && s[i] == '"' && s[j] == '"' ensures NeedsQuotes(s[..n][i + 1..j]) {
      SliceOfPrefix(s, n, i + 1, j);
    }
  }

  lemma {:induction false} ScanIsPrinted(s: string)
    requires Scan(s).Some? && Spaced(s)
    ensures Printed(Scan(s).value.0)
    decreases |s|
  {
    if IsBlank(s[0]) {
      SpacedSuffix(s[1..], s);
      ScanIsPrinted(s[1..]);
    } else if StartsComment(s) {
      AfterCommentSuffix(s);
      SpacedSuffix(AfterComment(s), s);
      ScanIsPrinted(AfterComment(s));
    } else {
      TokenIsSound(s);
      SpacedPrefix(s, TokenLength(s));
      if s[0] == '"' {
        LiteralIsPrinted(s[..TokenLength(s)]);
      }
    }
  }

  lemma {:induction false} LexIsPrinted(s: string)
    requires Spaced(s)
    ensures forall i :: 0 <= i < |Lex(s)| ==> Printed(Lex(s)[i])
    decreases |s|
  {
    if Scan(s).None? {
    } else {
      ScanIsSound(s);
      ScanIsPrinted(s);
      var rest := Scan(s).value.1;
      SpacedSuffix(rest, s);
      LexIsPrinted(rest);
      forall i | 0 <= i < |Lex(s)| ensures Printed(Lex(s)[i]) {
        assert i > 0 ==> Lex(s)[i] == Lex(rest)[i - 1];
      }
    }
  }

  // ------------------------------------------------------------------ what the arguments read back look like

  lemma IdentifiersNeedNoQuotes(word: string)
    requires IsIdentifier(word)
    ensures !NeedsQuotes(word)
  {
    IdentRunes(word, 0);
  }


  /** What can be said of an argument that was read from a printed command. */
  predicate Shaped(a: Argument) {
    match a
    case BoolArg(name) => name != "" && name[0] == '-' && (IsIdentifier(name) || NeedsQuotes(name))
    case Arg(name, value) =>
      if name == "" then NeedsQuotes(value)
      else
        && IsIdentifier(name)
        && (if value == "" then name[0] != '-' else IsIdentifier(value) || NeedsQuotes(value))
  }

  lemma MeaningIsShaped(item: Item)
    requires GoodItem(item) && ValueOf(item.piece) != "" && QuoteFree(Meaning(item))
    requires Printed(item.piece) && (item.Assigned? ==> Printed(item.value))
    ensures Shaped(Meaning(item))
  {
    if item.piece.Ident? {
      IdentifierValue(item.piece.text);
    }
    if item.Assigned? && item.value.Ident? {
      IdentifierValue(item.value.text);
    }
  }

  lemma {:induction false} MeaningsAreShaped(items: seq<Item>)
    requires GoodItems(items)
    requires forall i :: 0 <= i < |Spell(items)| ==> Printed(Spell(items)[i])
    requires forall i :: 0 <= i < |Meanings(items)| ==> QuoteFree(Meanings(items)[i])
    ensures forall i :: 0 <= i < |Meanings(items)| ==> Shaped(Meanings(items)[i])
  {
    if items == [] {
    } else {
      var rest := items[1..];
      assert GoodItem(items[0]) && ValueOf(items[0].piece) != "";
      OthersPrinted(SpellItem(items[0]), Spell(rest), Spell(items));
      FirstItemIsPrinted(items[0], Spell(rest), Spell(items));
      OthersQuoteFree(Meaning(items[0]), Meanings(rest), Meanings(items));
      MeaningIsShaped(items[0]);
      MeaningsAreShaped(rest);
      FirstAndOthersShaped(Meaning(items[0]), Meanings(rest));
    }
  }

  lemma OthersPrinted(first: seq<Token>, others: seq<Token>, all: seq<Token>)
    requires all == first + others && forall i :: 0 <= i < |all| ==> Printed(all[i])
    ensures forall i :: 0 <= i < |others| ==> Printed(others[i])
  {
    assert forall i :: 0 <= i < |others| ==> others[i] == all[|first| + i];
  }

  lemma OthersQuoteFree(first: Argument, others: seq<Argument>, all: seq<Argument>)
    requires all == [first] + others && forall i :: 0 <= i < |all| ==> QuoteFree(all[i])
    ensures QuoteFree(first) && forall i :: 0 <= i < |others| ==> QuoteFree(others[i])
  {
    assert all[0] == first;
    assert forall i :: 0 <= i < |others| ==> others[i] == all[i + 1];
  }

  lemma FirstAndOthersShaped(first: Argument, others: seq<Argument>)
    requires Shaped(first) && forall i :: 0 <= i < |others| ==> Shaped(others[i])
    ensures forall i :: 0 <= i < |[first] + others| ==> Shaped(([first] + others)[i])
  {
  }

  lemma FirstItemIsPrinted(item: Item, rest: seq<Token>, tokens: seq<Token>)
    requires tokens == SpellItem(item) + rest && forall i :: 0 <= i < |tokens| ==> Printed(tokens[i])
    ensures Printed(item.piece) && (item.Assigned? ==> Printed(item.value))
  {
    assert tokens[0] == item.piece;
    if item.Assigned? {
      assert tokens[2] == item.value;
    }
  }

  lemma SurvivorsAreShaped(args: seq<Argument>)
    requires forall i :: 0 <= i < |args| ==> QuoteFree(args[i])
    requires Parse(Format(args)) == Parsed(args)
    ensures forall i :: 0 <= i < |args| ==> Shaped(args[i])
  {
    SpacedFormat(args);
    LexIsPrinted(Format(args));
    var items := ParsedIsSpelled(Lex(Format(args)));
    SpelledIsParsed(items);
    MeaningsAreShaped(items);
  }

  // ------------------------------------------------------------------ the exact condition

  /** A literal with a double quote inside has one in its value. */
  lemma InnerQuoteStays(text: string, k: nat)
    requires text != "" && text[0] == '"' && 1 <= k < |text| - 1 && text[k] == '"'
    ensures '"' in ValueOf(Str(text))
  {
    if Unquote(text).Some? {
      assert text[1..|text| - 1][k - 1] == '"';
      UnescapeKeeps(text[1..|text| - 1], '"');
    }
  }

  lemma ScanLiteral(s: string)
    requires s != "" && s[0] == '"'
    ensures Head(Lex(s)) == Some(Str(s[..TokenLength(s)]))
  {
    assert Scan(s) == Some((Str(s[..TokenLength(s)]), s[TokenLength(s)..]));
    LexNext(s, Str(s[..TokenLength(s)]), s[TokenLength(s)..]);
  }

  /** A quote-free value that is read back from between quotes needs no escapes. */
  lemma QuotedValueIsPlain(value: string, tail: string)
    requires '"' !in value && PieceValue(Head(Lex("\"" + value + "\"" + tail))) == value
    ensures Quotable(value)
  {
    var s := "\"" + value + "\"" + tail;
    ScanLiteral(s);
    var text := s[..TokenLength(s)];
    assert text[0] == '"';
    if |text| > |value| + 2 {
      assert text[|value| + 1] == '"';
      InnerQuoteStays(text, |value| + 1);
    }
    LiteralOfValue(text, value);
  }

  /** A printed argument never starts like an assignment. */
  lemma NoAssignAhead(args: seq<Argument>)
    requires args != [] ==> Shaped(args[0])
    ensures Head(Lex(Format(args))) != Some(Assign)
  {
    if args != [] {
      var s := Format(args);
      assert s[0] == FormatArgument(args[0])[0];
      StartsLikePiece(args[0]);
    }
  }

  lemma StartsLikePiece(a: Argument)
    requires Shaped(a)
    ensures FormatArgument(a) != "" && (FormatArgument(a)[0] == '"' || IsIdentRune(FormatArgument(a)[0], 0))
  {
    if a.Arg? && a.name == "" {
    } else {
      assert IsIdentRune(a.name[0], 0);
    }
  }

  /** A token that starts with an identifier rune is an identifier. */
  lemma IdentifierAhead(s: string)
    requires s != "" && IsIdentRune(s[0], 0)
    ensures Head(Lex(s)).Some? && Head(Lex(s)).value.Ident? && IsIdentifier(Head(Lex(s)).value.text)
  {
    TokenIsSound(s);
    assert !IsBlank(s[0]) && !StartsComment(s);
    assert Scan(s) == Some((Ident(s[..TokenLength(s)]), s[TokenLength(s)..]));
  }

  lemma FirstIsWellFormed(a: Argument, tail: string)
    requires Shaped(a) && QuoteFree(a) && (tail == "" || tail[0] == ' ') && Head(Lex(tail)) != Some(Assign)
    requires ArgStep(Lex(FormatArgument(a) + tail)).arg == Some(a)
    ensures WellFormed(a)
  {
    match a
    case BoolArg(name) => OptionIsIdentifier(name, tail);
    case Arg(name, value) =>
      if name == "" {
        PositionalIsPlain(value, tail);
      } else if value != "" && NeedsQuotes(value) {
        AssignedIsPlain(name, value, tail);
      }
  }

  lemma OptionIsIdentifier(name: string, tail: string)
    requires name != "" && name[0] == '-' && ArgStep(Lex(name + tail)).arg == Some(BoolArg(name))
    ensures IsIdentifier(name)
  {
    assert (name + tail)[0] == '-';
    IdentifierAhead(name + tail);
    IdentifierValue(Head(Lex(name + tail)).value.text);
  }

  lemma PositionalIsPlain(value: string, tail: string)
    requires NeedsQuotes(value) && '"' !in value && (tail == "" || tail[0] == ' ') && Head(Lex(tail)) != Some(Assign)
    requires ArgStep(Lex(QuoteIfNecessary(value) + tail)).arg == Some(Arg("", value))
    ensures Quotable(value) && value[0] != '-'
  {
    assert PieceValue(Head(Lex(QuoteIfNecessary(value) + tail))) == value;
    QuotedValueIsPlain(value, tail);
    LexValue(value, tail);
    assert Tail(Lex(QuoteIfNecessary(value) + tail)) == Lex(tail);
  }

  lemma AssignedIsPlain(name: string, value: string, tail: string)
    requires IsIdentifier(name) && NeedsQuotes(value) && '"' !in value
    requires ArgStep(Lex(name + "=" + QuoteIfNecessary(value) + tail)).arg == Some(Arg(name, value))
    ensures Quotable(value)
  {
    var right := QuoteIfNecessary(value) + tail;
    Regroup(name, "=", QuoteIfNecessary(value), tail);
    LexName(name, right);
    IdentifierValue(name);
    SecondPiece(Ident(name), Lex(right));
    QuotedValueIsPlain(value, tail);
  }

  lemma SecondPiece(first: Token, rest: seq<Token>)
    requires first.Ident?
    ensures ArgStep([first, Assign] + rest).arg == BuildArgument(false, ValueOf(first), PieceValue(Head(rest)))
  {
    var tokens := [first, Assign] + rest;
    assert Tail(tokens) == [Assign] + rest;
    assert Tail(Tail(tokens)) == rest;
  }

  /** What follows the first printed argument. */
  function AfterFirst(args: seq<Argument>): string
    requires args != []
  {
    if |args| == 1 then "" else " " + Format(args[1..])
  }

  lemma FormatSplits(args: seq<Argument>)
    requires args != []
    ensures Format(args) == FormatArgument(args[0]) + AfterFirst(args)
  {
    if |args| == 1 {
      Regroup(FormatArgument(args[0]), "", "", "");
    } else {
      Regroup(FormatArgument(args[0]), " ", Format(args[1..]), "");
    }
  }

  lemma LexAfterFirst(args: seq<Argument>)
    requires args != []
    ensures Lex(AfterFirst(args)) == Lex(Format(args[1..]))
  {
    if |args| == 1 {
      assert args[1..] == [];
    } else {
      LexSpace(Format(args[1..]));
    }
  }

  lemma FirstSurvivor(args: seq<Argument>)
    requires args != [] && (forall i :: 0 <= i < |args| ==> Shaped(args[i])) && QuoteFree(args[0])
    requires Parse(Format(args)) == Parsed(args)
    ensures WellFormed(args[0])
  {
    NoAssignAhead(args[1..]);
    FormatSplits(args);
    LexAfterFirst(args);
    FirstParsed(Lex(Format(args)), args);
    FirstIsWellFormed(args[0], AfterFirst(args));
  }

  lemma FirstParsed(tokens: seq<Token>, args: seq<Argument>)
    requires args != [] && ParseTokens(tokens) == Parsed(args)
    ensures ArgStep(tokens).arg == Some(args[0])
  {
  }

  lemma OtherSurvivors(args: seq<Argument>)
    requires args != [] && (forall i :: 0 <= i < |args| ==> Shaped(args[i])) && WellFormed(args[0])
    requires Parse(Format(args)) == Parsed(args)
    ensures Parse(Format(args[1..])) == Parsed(args[1..])
  {
    var tokens := Lex(Format(args[1..]));
    NoAssignAhead(args[1..]);
    LexFirst(args);
    ItemMeansArgument(args[0]);
    ItemIsOneStep(ItemOf(args[0]), tokens);
    StepOfParse(Lex(Format(args)), args[0], tokens);
    assert ParseTokens(tokens).Parsed? && args == [args[0]] + ParseTokens(tokens).args;
  }

  lemma {:induction false} SurvivorsAreWellFormed(args: seq<Argument>)
    requires forall i :: 0 <= i < |args| ==> Shaped(args[i]) && QuoteFree(args[i])
    requires Parse(Format(args)) == Parsed(args)
    ensures AllWellFormed(args)
  {
    if args == [] {
    } else {
      FirstSurvivor(args);
      OtherSurvivors(args);
      SurvivorsAreWellFormed(args[1..]);
      assert forall i :: 1 <= i < |args| ==> args[i] == args[1..][i - 1];
    }
  }

  /** A list of arguments without double quotes survives printing and parsing if and only if all are well-formed. */
  lemma SurvivesExactlyWhenWellFormed(args: seq<Argument>)
    requires forall i :: 0 <= i < |args| ==> QuoteFree(args[i])
    ensures Parse(Format(args)) == Parsed(args) <==> AllWellFormed(args)
  {
    if AllWellFormed(args) {
      ParseUndoesFormat(args);
    }
    if Parse(Format(args)) == Parsed(args) {
      SurvivorsAreShaped(args);
      SurvivorsAreWellFormed(args);
    }
  }

  /** A command text whose arguments have no double quotes is printed back unchanged if and only if it is the printed
      form of well-formed arguments. */
  lemma TextSurvivesExactlyWhenPrinted(s: string)
    requires Parse(s).Parsed? ==> forall i :: 0 <= i < |Parse(s).args| ==> QuoteFree(Parse(s).args[i])
    ensures Parse(s).Parsed? && Format(Parse(s).args) == s <==> exists args :: AllWellFormed(args) && Format(args) == s
  {
    if Parse(s).Parsed? && Format(Parse(s).args) == s {
      SurvivesExactlyWhenWellFormed(Parse(s).args);
    }
    forall args | AllWellFormed(args) && Format(args) == s ensures Parse(s) == Parsed(args) {
      ParseUndoesFormat(args);
    }
  }

  /** A word that starts with a hyphen is read as one option if and only if each of its runes may stand where it
      does; a hyphen may not from the third place on. */
  lemma OptionSurvivesIff(word: string)
    requires word != "" && word[0] == '-' && '"' !in word
    ensures Parse(word) == Parsed([BoolArg(word)]) <==> forall k :: 0 <= k < |word| ==> IsIdentRune(word[k], k)
  {
    var args := [BoolArg(word)];
    assert Format(args) == word;
    SurvivesExactlyWhenWellFormed(args);
    IdentRunes(word, 0);
    assert AllWellFormed(args) <==> WellFormed(args[0]);
  }
}
