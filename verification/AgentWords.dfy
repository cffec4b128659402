/** Which characters make up words and literals, said without the scanner's own definitions: the options a command
    may use, the escapes of literals, and comments. */
module AgentWords {
  import opened Common
  import opened Text
  import opened AgentLexer
  import opened AgentParser
  import opened AgentRoundTrip

  // ------------------------------------------------------------------ words

  predicate IsWord(s: string) {
    s != "" && forall i :: 0 <= i < |s| ==> IsWordChar(s[i])
  }

  /** The characters that make the printer quote. */
  predicate IsQuotedChar(c: char) {
    c in {' ', ':', '/', '@', '?', '&', '#'}
  }

  /** Which printable ASCII character continues an identifier, and where. */
  lemma WordCharsExactly(c: char, i: nat)
    requires ' ' <= c <= '~'
    ensures IsIdentRune(c, i) <==> IsWordChar(c) || (c == '-' && (i == 0 || i == 1))
  {
  }

  lemma WordIsIdentifier(word: string)
    requires IsWord(word)
    ensures IsIdentifier(word)
  {
    IdentRunes(word, 0);
    forall k | 0 <= k < |word| ensures IsIdentRune(word[k], 0 + k) {
      WordIsPrintable(word[k]);
      WordCharsExactly(word[k], k);
    }
  }

  lemma WordIsPrintable(c: char)
    requires IsWordChar(c)
    ensures ' ' <= c <= '~'
  {
  }

  lemma OptionIsIdentifier(dashes: string, word: string)
    requires (dashes == "-" || dashes == "--") && IsWord(word)
    ensures IsIdentifier(dashes + word) && (dashes + word)[0] == '-'
  {
    var option := dashes + word;
    IdentRunes(option, 0);
    forall k | 0 <= k < |option| ensures IsIdentRune(option[k], 0 + k) {
      if k < |dashes| {
        assert option[k] == dashes[k] == '-';
      } else {
        assert option[k] == word[k - |dashes|];
        WordIsPrintable(option[k]);
      }
      WordCharsExactly(option[k], k);
    }
  }

  /** An option is a word after one or two hyphens, and is read as one argument. */
  lemma OptionIsOneArgument(dashes: string, word: string)
    requires (dashes == "-" || dashes == "--") && IsWord(word)
    ensures Parse(dashes + word) == Parsed([BoolArg(dashes + word)])
  {
    OptionIsIdentifier(dashes, word);
    ParseUndoesFormat([BoolArg(dashes + word)]);
  }

  /** No other printable ASCII character continues a word. */
  lemma WordEndsBefore(word: string, c: char, tail: string)
    requires IsWord(word) && |word| >= 2 && ' ' <= c <= '~' && !IsWordChar(c)
    ensures Scan(word + ([c] + tail)) == Some((Ident(word), [c] + tail))
  {
    WordIsIdentifier(word);
    WordCharsExactly(c, |word|);
    ScanIdentifier(word, [c] + tail);
  }

  // ------------------------------------------------------------------ what is quoted

  /** The printer puts a value between quotes exactly when it has one of seven characters. */
  lemma QuotedExactly(value: string)
    ensures QuoteIfNecessary(value) ==
      if exists i :: 0 <= i < |value| && IsQuotedChar(value[i]) then "\"" + value + "\"" else value
  {
    if i :| 0 <= i < |value| && IsQuotedChar(value[i]) {
      assert NeedsQuotes(value);
    }
  }

  /** Every value of word characters and of the seven is printed so that it is read back. */
  lemma ValueSurvives(name: string, value: string)
    requires IsWord(name) && value != ""
    requires forall i :: 0 <= i < |value| ==> IsWordChar(value[i]) || IsQuotedChar(value[i])
    ensures Parse(Format([Arg(name, value)])) == Parsed([Arg(name, value)])
  {
    var args := [Arg(name, value)];
    WordIsIdentifier(name);
    if k :| 0 <= k < |value| && IsQuotedChar(value[k]) {
      assert NeedsQuotes(value);
      forall i | 0 <= i < |value| ensures value[i] !in {'"', '\\', '\n'} {
      }
    } else {
      WordIsIdentifier(value);
      IdentifiersNeedNoQuotes(value);
    }
    ParseUndoesFormat(args);
  }
}
