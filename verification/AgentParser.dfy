/** The agent command line: parsing into arguments, printing, and the proof that parsing undoes printing. */
module AgentParser {
  import opened Common
  import opened Text
  import opened AgentLexer

  datatype Argument = Arg(name: string, value: string) | BoolArg(name: string)

  /** Crashed is the index panic on an empty name. */
  datatype Outcome = Parsed(args: seq<Argument>) | Failed(errors: seq<Option<Token>>) | Crashed

  // ------------------------------------------------------------------ one argument

  predicate IsPiece(token: Option<Token>) {
    token.Some? && (token.value.Ident? || token.value.Str?)
  }

  function Head(tokens: seq<Token>): Option<Token> {
    if tokens == [] then None else Some(tokens[0])
  }

  function Tail(tokens: seq<Token>): seq<Token> {
    if tokens == [] then [] else tokens[1..]
  }

  function PieceValue(token: Option<Token>): string {
    if token.Some? then ValueOf(token.value) else ""
  }

  /** The complaint about a token that is no piece. */
  function Complaint(token: Option<Token>): seq<Option<Token>> {
    if IsPiece(token) then [] else [token]
  }

  /** What one call of parseArg does to the tokens ahead; no argument means it panics. */
  datatype Step = Step(arg: Option<Argument>, errors: seq<Option<Token>>, rest: seq<Token>)

  function BuildArgument(literal: bool, name: string, value: string): Option<Argument> {
    if name == "" then None
    else if name[0] == '-' && value == "" then Some(BoolArg(name))
    else if literal then Some(Arg("", name))
    else Some(Arg(name, value))
  }

  function ArgStep(tokens: seq<Token>): (step: Step)
    ensures tokens != [] ==> |step.rest| < |tokens|
  {
    var first, after := Head(tokens), Tail(tokens);
    var literal := first.Some? && first.value.Str?;
    if Head(after) == Some(Assign) then
      var second := Head(Tail(after));
      Step(BuildArgument(literal, PieceValue(first), PieceValue(second)),
           Complaint(first) + Complaint(second), Tail(Tail(after)))
    else
      Step(BuildArgument(literal, PieceValue(first), ""), Complaint(first), after)
  }

  function ParseTokens(tokens: seq<Token>): Outcome {
    if tokens == [] then Parsed([])
    else
      var step := ArgStep(tokens);
      if step.arg.None? then Crashed
      else if step.errors != [] then Failed(step.errors)
      else
        var rest := ParseTokens(step.rest);
        if rest.Parsed? then Parsed([step.arg.value] + rest.args) else rest
  }

  function Parse(command: string): Outcome {
    ParseTokens(Lex(command))
  }

  // ------------------------------------------------------------------ the parser object

  class Parser {
    var unread: string
    var token: Option<Token>      // None is the end of the text
    var errors: seq<Option<Token>>

    ghost predicate Valid()
      reads this
    {
      token.None? ==> Lex(unread) == []
    }

    /** The tokens not yet consumed, the current one first. */
    ghost function Ahead(): seq<Token>
      reads this
    {
      if token.Some? then [token.value] + Lex(unread) else []
    }

    constructor (command: string)
      ensures Valid() && Ahead() == Lex(command) && errors == []
    {
      unread, token, errors := command, None, [];
      new;
      match Scan(command)
      case None =>
      case Some((next, rest)) => token, unread := Some(next), rest;
    }

    method Next()
      requires Valid()
      modifies this`unread, this`token
      ensures Valid() && Ahead() == Tail(old(Ahead()))
    {
      match Scan(unread)
      case None => token := None;
      case Some((next, rest)) =>
        if token.Some? {
          token, unread := Some(next), rest;
        }
    }

    method ExpectPiece()
      requires Valid()
      modifies this
      ensures Valid() && Ahead() == Tail(old(Ahead()))
      ensures errors == old(errors) + Complaint(Head(old(Ahead())))
    {
      if !IsPiece(token) {
        errors := errors + [token];
      }
      Next();
    }

    method ParseIdentOrLiteral() returns (value: string)
      requires Valid()
      modifies this
      ensures Valid() && Ahead() == Tail(old(Ahead()))
      ensures value == PieceValue(Head(old(Ahead())))
      ensures errors == old(errors) + Complaint(Head(old(Ahead())))
    {
      value := if token.Some? then ValueOf(token.value) else "";
      ExpectPiece();
    }

    method ParseArg() returns (arg: Option<Argument>)
      requires Valid()
      modifies this
      ensures Valid()
      ensures var step := ArgStep(old(Ahead()));
        arg == step.arg && Ahead() == step.rest && errors == old(errors) + step.errors
    {
      var literal := token.Some? && token.value.Str?;
      var name := ParseIdentOrLiteral();
      var value := "";
      if token == Some(Assign) {
        Next();
        value := ParseIdentOrLiteral();
      }
      if name == "" {
        return None;
      }
      if name[0] == '-' && value == "" {
        return Some(BoolArg(name));
      }
      if literal {
        value := name;
        name := "";
      }
      return Some(Arg(name, value));
    }
  }

  /** parseCommandLine. */
  method ParseCommandLine(command: string) returns (outcome: Outcome)
    ensures outcome == Parse(command)
  {
    var p := new Parser(command);
    var args: seq<Argument> := [];
    while p.token.Some? && p.errors == []
      invariant p.Valid()
      invariant p.errors == [] ==> Resume(args, ParseTokens(p.Ahead())) == Parse(command)
      invariant p.errors != [] ==> Parse(command) == Failed(p.errors)
      invariant fresh(p)
      decreases |p.Ahead()| + (if p.errors == [] then 1 else 0)
    {
      ghost var ahead := p.Ahead();
      var arg := p.ParseArg();
      if arg.None? {
        return Crashed;
      }
      assert p.errors == ArgStep(ahead).errors;
      if p.errors == [] {
        assert ParseTokens(ahead) == Resume([arg.value], ParseTokens(p.Ahead()));
        ResumeTwice(args, [arg.value], ParseTokens(p.Ahead()));
      }
      args := args + [arg.value];
    }
    outcome := if p.errors != [] then Failed(p.errors) else Parsed(args);
  }

  /** The outcome after `args` have been parsed already. */
  function Resume(args: seq<Argument>, rest: Outcome): Outcome {
    if rest.Parsed? then Parsed(args + rest.args) else rest
  }

  lemma ResumeTwice(a: seq<Argument>, b: seq<Argument>, rest: Outcome)
    ensures Resume(a, Resume(b, rest)) == Resume(a + b, rest)
  {
    if rest.Parsed? {
      assert a + (b + rest.args) == (a + b) + rest.args;
    }
  }

  // ------------------------------------------------------------------ the accepted language

  datatype Item = Single(piece: Token) | Assigned(piece: Token, value: Token)

  predicate GoodItem(item: Item) {
    IsPiece(Some(item.piece)) && (item.Assigned? ==> IsPiece(Some(item.value)))
  }

  function SpellItem(item: Item): seq<Token> {
    match item
    case Single(piece) => [piece]
    case Assigned(piece, value) => [piece, Assign, value]
  }

  function Spell(items: seq<Item>): seq<Token> {
    if items == [] then [] else SpellItem(items[0]) + Spell(items[1..])
  }

  predicate GoodItems(items: seq<Item>) {
    forall i :: 0 <= i < |items| ==> GoodItem(items[i]) && ValueOf(items[i].piece) != ""
  }

  function Meaning(item: Item): Argument
    requires ValueOf(item.piece) != ""
  {
    BuildArgument(item.piece.Str?, ValueOf(item.piece), if item.Assigned? then ValueOf(item.value) else "").value
  }

  function Meanings(items: seq<Item>): seq<Argument>
    requires GoodItems(items)
  {
    if items == [] then [] else [Meaning(items[0])] + Meanings(items[1..])
  }

  lemma ItemIsOneStep(item: Item, rest: seq<Token>)
    requires GoodItem(item) && ValueOf(item.piece) != "" && Head(rest) != Some(Assign)
    ensures ArgStep(SpellItem(item) + rest) == Step(Some(Meaning(item)), [], rest)
  {
    match item
    case Single(piece) => SingleStep(piece, rest);
    case Assigned(piece, value) => AssignedStep(piece, value, rest);
  }

  lemma SingleStep(piece: Token, rest: seq<Token>)
    requires IsPiece(Some(piece)) && Head(rest) != Some(Assign)
    ensures ArgStep([piece] + rest) == Step(BuildArgument(piece.Str?, ValueOf(piece), ""), [], rest)
  {
    assert Tail([piece] + rest) == rest;
  }

  lemma AssignedStep(piece: Token, value: Token, rest: seq<Token>)
    requires IsPiece(Some(piece)) && IsPiece(Some(value))
    ensures ArgStep([piece, Assign, value] + rest)
         == Step(BuildArgument(piece.Str?, ValueOf(piece), ValueOf(value)), [], rest)
  {
    assert Tail([piece, Assign, value] + rest) == [Assign, value] + rest;
    AssignedRest(value, rest);
  }

  lemma AssignedRest(value: Token, rest: seq<Token>)
    ensures Head([Assign, value] + rest) == Some(Assign)
    ensures Head(Tail([Assign, value] + rest)) == Some(value)
    ensures Tail(Tail([Assign, value] + rest)) == rest
  {
    assert Tail([Assign, value] + rest) == [value] + rest;
  }

  lemma {:induction false} SpelledIsParsed(items: seq<Item>)
    requires GoodItems(items)
    ensures ParseTokens(Spell(items)) == Parsed(Meanings(items))
  {
    if items == [] {
    } else {
      var rest := Spell(items[1..]);
      assert GoodItem(items[0]) && ValueOf(items[0].piece) != "";
      assert Head(rest) != Some(Assign) by {
        if |items| > 1 { assert GoodItem(items[1]); }
      }
      ItemIsOneStep(items[0], rest);
      SpelledIsParsed(items[1..]);
    }
  }

  lemma OneStepIsItem(tokens: seq<Token>) returns (item: Item)
    requires tokens != [] && ArgStep(tokens).arg.Some? && ArgStep(tokens).errors == []
    ensures GoodItem(item) && ValueOf(item.piece) != "" && tokens == SpellItem(item) + ArgStep(tokens).rest
  {
    if Head(Tail(tokens)) == Some(Assign) {
      item := Assigned(tokens[0], tokens[2]);
    } else {
      item := Single(tokens[0]);
    }
  }

  lemma {:induction false} ParsedIsSpelled(tokens: seq<Token>) returns (items: seq<Item>)
    requires ParseTokens(tokens).Parsed?
    ensures GoodItems(items) && Spell(items) == tokens
    decreases |tokens|
  {
    if tokens == [] {
      items := [];
    } else {
      var others := ParsedIsSpelled(ArgStep(tokens).rest);
      var first := OneStepIsItem(tokens);
      items := [first] + others;
      assert items[1..] == others;
    }
  }

  /** Exactly the sequences of pieces, each optionally assigned another piece, are accepted; the arguments are
      their meanings, in order. */
  lemma AcceptedLanguage(tokens: seq<Token>)
    ensures ParseTokens(tokens).Parsed? <==> exists items :: GoodItems(items) && Spell(items) == tokens
    ensures forall items :: GoodItems(items) && Spell(items) == tokens ==>
      ParseTokens(tokens) == Parsed(Meanings(items))
  {
    if ParseTokens(tokens).Parsed? {
      var items := ParsedIsSpelled(tokens);
    }
    forall items | GoodItems(items) && Spell(items) == tokens
      ensures ParseTokens(tokens) == Parsed(Meanings(items))
    {
      SpelledIsParsed(items);
    }
  }

  /** The parser panics exactly when accepted items are followed by a token that stands for the empty string. */
  lemma CrashesExactlyOnEmptyNames(tokens: seq<Token>)
    ensures ParseTokens(tokens) == Crashed <==>
      exists items, rest :: GoodItems(items) && EmptyName(rest) && tokens == Spell(items) + rest
  {
    if ParseTokens(tokens) == Crashed {
      var items, rest := CrashHasEmptyName(tokens);
    }
    forall items, rest | GoodItems(items) && EmptyName(rest) && tokens == Spell(items) + rest
      ensures ParseTokens(tokens) == Crashed
    {
      EmptyNameCrashes(items, rest);
    }
  }

  predicate EmptyName(rest: seq<Token>) {
    rest != [] && ValueOf(rest[0]) == ""
  }

  lemma {:induction false} CrashHasEmptyName(tokens: seq<Token>) returns (items: seq<Item>, rest: seq<Token>)
    requires ParseTokens(tokens) == Crashed
    ensures GoodItems(items) && EmptyName(rest) && tokens == Spell(items) + rest
    decreases |tokens|
  {
    if ArgStep(tokens).arg.None? {
      items, rest := [], tokens;
    } else {
      var first := OneStepIsItem(tokens);
      var others;
      others, rest := CrashHasEmptyName(ArgStep(tokens).rest);
      items := [first] + others;
      SpellCons(first, others, rest);
    }
  }

  lemma SpellCons(item: Item, others: seq<Item>, rest: seq<Token>)
    ensures SpellItem(item) + (Spell(others) + rest) == Spell([item] + others) + rest
  {
    assert ([item] + others)[1..] == others;
  }

  lemma {:induction false} EmptyNameCrashes(items: seq<Item>, rest: seq<Token>)
    requires GoodItems(items) && EmptyName(rest)
    ensures ParseTokens(Spell(items) + rest) == Crashed
  {
    if items == [] {
      assert Spell(items) + rest == rest;
    } else {
      var others := Spell(items[1..]) + rest;
      assert GoodItem(items[0]) && ValueOf(items[0].piece) != "";
      NoAssignNext(items[1..], rest);
      EmptyNameCrashes(items[1..], rest);
      SpellCons(items[0], items[1..], rest);
      assert [items[0]] + items[1..] == items;
      ItemIsOneStep(items[0], others);
      StepOfParse(SpellItem(items[0]) + others, Meaning(items[0]), others);
    }
  }

  lemma NoAssignNext(items: seq<Item>, rest: seq<Token>)
    requires GoodItems(items) && EmptyName(rest)
    ensures Head(Spell(items) + rest) != Some(Assign)
  {
    if items != [] {
      assert GoodItem(items[0]);
      assert (Spell(items) + rest)[0] == items[0].piece;
    }
  }

  /** One step of the parser, and then the rest. */
  lemma StepOfParse(tokens: seq<Token>, arg: Argument, rest: seq<Token>)
    requires tokens != [] && ArgStep(tokens) == Step(Some(arg), [], rest)
    ensures ParseTokens(tokens) == Resume([arg], ParseTokens(rest))
  {
  }

  /** Every failure reports a token that is no piece. */
  lemma {:induction false} FailureReportsTokens(tokens: seq<Token>)
    requires ParseTokens(tokens).Failed?
    ensures ParseTokens(tokens).errors != [] && forall e <- ParseTokens(tokens).errors :: !IsPiece(e)
    decreases |tokens|
  {
    if ArgStep(tokens).errors != [] {
    } else {
      FailureReportsTokens(ArgStep(tokens).rest);
    }
  }

  /** For instance an empty header value, in double or in single quotes. */
  lemma EmptyLiteralCrashes()
    ensures Parse("curl \"\"") == Crashed
  {
    EmptyLiteralTokens("curl", "\"\"");
    EmptyNameCrashes([Single(Ident("curl"))], [Str("\"\"")]);
    assert "curl" + (" " + "\"\"") == "curl \"\"";
  }

  /** An empty character literal is no piece, but the parser panics before it reports that. */
  lemma EmptyCharCrashes()
    ensures Parse("curl ''") == Crashed
  {
    EmptyCharTokens("curl", "''");
    EmptyNameCrashes([Single(Ident("curl"))], [Other("''")]);
    assert "curl" + (" " + "''") == "curl ''";
  }

  lemma EmptyCharTokens(word: string, empty: string)
    requires word == "curl" && empty == "''"
    ensures Lex(word + (" " + empty)) == Spell([Single(Ident(word))]) + [Other(empty)]
    ensures ValueOf(Ident(word)) == word && ValueOf(Other(empty)) == "" && !IsPiece(Some(Other(empty)))
  {
    IdentRunes(word, 0);
    IdentifierValue(word);
    ScanIdentifier(word, " " + empty);
    LexNext(word + (" " + empty), Ident(word), " " + empty);
    LexSpace(empty);
    ScanEmptyChar(empty);
    LexNext(empty, Other(empty), "");
    assert [Single(Ident(word))][1..] == [];
  }

  lemma ScanEmptyChar(empty: string)
    requires empty == "''"
    ensures Scan(empty) == Some((Other(empty), ""))
    ensures ValueOf(Other(empty)) == ""
  {
    assert empty[1..] == "'";
    assert TokenLength(empty) == 2 && empty[..2] == empty && empty[2..] == "";
    assert empty[1..|empty| - 1] == "";
  }

  lemma EmptyLiteralTokens(word: string, empty: string)
    requires word == "curl" && empty == "\"\""
    ensures Lex(word + (" " + empty)) == Spell([Single(Ident(word))]) + [Str(empty)]
    ensures ValueOf(Ident(word)) == word && ValueOf(Str(empty)) == ""
  {
    IdentRunes(word, 0);
    IdentifierValue(word);
    ScanIdentifier(word, " " + empty);
    LexNext(word + (" " + empty), Ident(word), " " + empty);
    LexSpace(empty);
    assert "\"" + "" + "\"" + "" == empty && "\"" + "" + "\"" == empty;
    ScanQuoted("", "");
    QuotedValue("");
    LexNext(empty, Str(empty), "");
    assert [Single(Ident(word))][1..] == [];
  }

  // ------------------------------------------------------------------ printing

  predicate NeedsQuotes(s: string) {
    exists i :: 0 <= i < |s| && s[i] in {' ', ':', '/', '@', '?', '&', '#'}
  }

  function QuoteIfNecessary(s: string): string {
    if NeedsQuotes(s) then "\"" + s + "\"" else s
  }

  function FormatArgument(a: Argument): string {
    match a
    case BoolArg(name) => name
    case Arg(name, value) =>
      if name == "" then QuoteIfNecessary(value)
      else if value == "" then name
      else name + "=" + QuoteIfNecessary(value)
  }

  function Format(args: seq<Argument>): string {
    if args == [] then ""
    else if |args| == 1 then FormatArgument(args[0])
    else FormatArgument(args[0]) + " " + Format(args[1..])
  }

  /** formatCommandline: the printed arguments are collected, then joined. */
  method FormatCommandLine(args: seq<Argument>) returns (text: string)
    ensures text == Format(args)
  {
    var output: seq<string> := [];
    for i := 0 to |args|
      invariant output == seq(i, k requires 0 <= k < i => FormatArgument(args[k]))
    {
      output := output + [FormatArgument(args[i])];
    }
    text := Join(output, " ");
    JoinIsFormat(args, output);
  }

  lemma {:induction false} JoinIsFormat(args: seq<Argument>, output: seq<string>)
    requires |args| == |output| && forall i :: 0 <= i < |args| ==> output[i] == FormatArgument(args[i])
    ensures Join(output, " ") == Format(args)
  {
    if |args| <= 1 {
    } else {
      JoinIsFormat(args[1..], output[1..]);
    }
  }

  // ------------------------------------------------------------------ parse undoes print

  /** A value the printer can represent: an identifier, or quoted and without characters that need escaping. */
  predicate Printable(value: string) {
    if NeedsQuotes(value) then Quotable(value) else IsIdentifier(value)
  }

  predicate WellFormed(a: Argument) {
    match a
    case BoolArg(name) => IsIdentifier(name) && name[0] == '-'
    case Arg(name, value) =>
      if name == "" then NeedsQuotes(value) && Quotable(value) && value[0] != '-'
      else IsIdentifier(name) && (if value == "" then name[0] != '-' else Printable(value))
  }

  predicate AllWellFormed(args: seq<Argument>) {
    forall i :: 0 <= i < |args| ==> WellFormed(args[i])
  }

  function ValueToken(value: string): Token {
    if NeedsQuotes(value) then Str("\"" + value + "\"") else Ident(value)
  }

  function ItemOf(a: Argument): Item {
    match a
    case BoolArg(name) => Single(Ident(name))
    case Arg(name, value) =>
      if name == "" then Single(ValueToken(value))
      else if value == "" then Single(Ident(name))
      else Assigned(Ident(name), ValueToken(value))
  }

  lemma ScanValue(value: string, tail: string)
    requires Printable(value) && EndsWord(tail)
    ensures Scan(QuoteIfNecessary(value) + tail) == Some((ValueToken(value), tail))
    ensures ValueOf(ValueToken(value)) == value
  {
    if NeedsQuotes(value) {
      ScanQuoted(value, tail);
      QuotedValue(value);
    } else {
      ScanIdentifier(value, tail);
      IdentifierValue(value);
    }
  }

  /** A printed argument is read back as the tokens of its item. */
  lemma LexArgument(a: Argument, tail: string)
    requires WellFormed(a) && (tail == "" || tail[0] == ' ')
    ensures Lex(FormatArgument(a) + tail) == SpellItem(ItemOf(a)) + Lex(tail)
  {
    if a.BoolArg? || (a.name != "" && a.value == "") {
      ScanIdentifier(a.name, tail);
    } else if a.name == "" {
      ScanValue(a.value, tail);
    } else {
      LexAssignment(a.name, a.value, tail);
    }
  }

  lemma ItemMeansArgument(a: Argument)
    requires WellFormed(a)
    ensures GoodItem(ItemOf(a)) && ValueOf(ItemOf(a).piece) != "" && Meaning(ItemOf(a)) == a
  {
    if a.Arg? && a.value != "" {
      ScanValue(a.value, "");
    }
    if a.name != "" {
      IdentifierValue(a.name);
    }
  }

  lemma LexAssignment(name: string, value: string, tail: string)
    requires IsIdentifier(name) && value != "" && Printable(value) && EndsWord(tail)
    ensures Lex(name + "=" + QuoteIfNecessary(value) + tail) == [Ident(name), Assign, ValueToken(value)] + Lex(tail)
  {
    LexValue(value, tail);
    LexAssigned(name, QuoteIfNecessary(value), ValueToken(value), tail);
  }

  lemma LexAssigned(name: string, right: string, token: Token, tail: string)
    requires IsIdentifier(name) && Lex(right + tail) == [token] + Lex(tail)
    ensures Lex(name + "=" + right + tail) == [Ident(name), Assign, token] + Lex(tail)
  {
    Regroup(name, "=", right, tail);
    LexName(name, right + tail);
    ThreeTokens(Ident(name), Assign, token, Lex(tail));
  }

  lemma ThreeTokens(a: Token, b: Token, c: Token, rest: seq<Token>)
    ensures [a, b] + ([c] + rest) == [a, b, c] + rest
  {
  }

  lemma Regroup(a: string, b: string, c: string, d: string)
    ensures a + b + c + d == a + (b + (c + d))
  {
  }

  lemma LexName(name: string, right: string)
    requires IsIdentifier(name)
    ensures Lex(name + ("=" + right)) == [Ident(name), Assign] + Lex(right)
  {
    ScanIdentifier(name, "=" + right);
    LexNext(name + ("=" + right), Ident(name), "=" + right);
    ScanAssign(right);
    LexNext("=" + right, Assign, right);
  }

  lemma LexValue(value: string, tail: string)
    requires Printable(value) && EndsWord(tail)
    ensures Lex(QuoteIfNecessary(value) + tail) == [ValueToken(value)] + Lex(tail)
    ensures ValueOf(ValueToken(value)) == value
  {
    ScanValue(value, tail);
    LexNext(QuoteIfNecessary(value) + tail, ValueToken(value), tail);
  }

  lemma LexNext(s: string, token: Token, rest: string)
    requires Scan(s) == Some((token, rest))
    ensures Lex(s) == [token] + Lex(rest)
  {
  }

  lemma {:induction false} LexFormat(args: seq<Argument>) returns (items: seq<Item>)
    requires AllWellFormed(args)
    ensures GoodItems(items) && Meanings(items) == args && Lex(Format(args)) == Spell(items)
  {
    if args == [] {
      items := [];
    } else {
      assert WellFormed(args[0]);
      var others := LexFormat(args[1..]);
      items := [ItemOf(args[0])] + others;
      LexFirst(args);
      ItemMeansArgument(args[0]);
      ItemsCons(ItemOf(args[0]), others);
      assert [args[0]] + args[1..] == args;
    }
  }

  lemma ItemsCons(item: Item, others: seq<Item>)
    requires GoodItem(item) && ValueOf(item.piece) != "" && GoodItems(others)
    ensures GoodItems([item] + others)
    ensures Spell([item] + others) == SpellItem(item) + Spell(others)
    ensures Meanings([item] + others) == [Meaning(item)] + Meanings(others)
  {
    assert ([item] + others)[1..] == others;
  }

  lemma LexFirst(args: seq<Argument>)
    requires args != [] && WellFormed(args[0])
    ensures Lex(Format(args)) == SpellItem(ItemOf(args[0])) + Lex(Format(args[1..]))
  {
    var first := FormatArgument(args[0]);
    if |args| == 1 {
      LexArgument(args[0], "");
      assert first + "" == first;
    } else {
      var rest := Format(args[1..]);
      LexArgument(args[0], " " + rest);
      LexSpace(rest);
      assert Format(args) == first + (" " + rest);
    }
  }

  lemma LexSpace(tail: string)
    ensures Lex(" " + tail) == Lex(tail)
  {
    ScanSpace(tail);
  }

  /** Parsing the printed form of well-formed arguments returns exactly those arguments. */
  lemma ParseUndoesFormat(args: seq<Argument>)
    requires AllWellFormed(args)
    ensures Parse(Format(args)) == Parsed(args)
  {
    var items := LexFormat(args);
    SpelledIsParsed(items);
  }
}
