/** Whole agent commands: the download command of the installer, followed by a pipe into a shell. */
module AgentCommands {
  import opened Common
  import opened Text
  import opened AgentLexer
  import opened AgentParser
  import opened AgentUrl
  import opened AgentRewrite
  import opened AgentWords
  import opened AgentLiterals

  lemma TrimTrailingSpace(s: string)
    requires EndsSolid(s) && HasPrefix(s, "curl")
    ensures TrimSpace(s + " ") == s && IsCurl(s + " ")
  {
    CurlRunes(s);
    assert (s + " ")[0] == s[0] == 'c';
    assert TrimLeft(s + " ") == s + " ";
    assert (s + " ")[..|s + " "| - 1] == s && IsSpace((s + " ")[|s|]);
    assert TrimRight(s) == s;
    assert TrimRight(s + " ") == TrimRight(s);
  }

  lemma TwoStages(first: string, second: string)
    requires Free(first, PIPE) && Free(second, PIPE)
    ensures Split(first + "|" + second, PIPE) == [first, second]
  {
    SplitAtSeparator(first, '|', second, PIPE);
    SplitFree(second, PIPE);
    assert first + ['|'] + second == first + "|" + second;
  }

  lemma JoinTwo(first: string, second: string, other: string)
    ensures Join([first, second][0 := other], "|") == other + "|" + second
  {
    assert [first, second][0 := other] == [other, second];
    assert [other, second][1..] == [second];
  }

  /** A printed curl stage, a space, and one more stage: the URL gets its background form, and the space goes. */
  lemma DownloadIsRewritten(args: seq<Argument>, tail: string)
    requires Representable(args) && args != [] && args[0].Arg? && HasPrefix(args[0].name, "curl") && Free(tail, PIPE)
    ensures HasUrl(args) ==>
      Detach((Format(args) + " ") + "|" + tail) == Rewritten(Format(NewArgs(args)) + "|" + tail)
  {
    if HasUrl(args) {
      var stage := Format(args) + " ";
      FormatIsPipeFree(args);
      FormatEndsSolid(args);
      FormatKeepsPrefix(args);
      TrimTrailingSpace(Format(args));
      ParseUndoesFormat(args);
      TwoStages(stage, tail);
      FirstCurl([stage, tail], 0);
      StageIsRewritten(stage + "|" + tail, [stage, tail], 0, args);
      JoinTwo(stage, tail, Format(NewArgs(args)));
    }
  }

  // ------------------------------------------------------------------ the documented command

  /** The options of the documented command. */
  function Options(): seq<Argument> {
    [Arg("curl", ""), BoolArg("-s"), BoolArg("--tlsv1.2"), BoolArg("--insecure"), Arg("-a", "foo bar")]
  }

  /** The words of the documented command, for a download URL. */
  function Download(url: string): string {
    "curl " + ("-s " + ("--tlsv1.2 " + ("--insecure " + ("-a=\"foo bar\" " + ("\"" + url + "\"")))))
  }

  lemma FormatCons(a: Argument, rest: seq<Argument>)
    requires rest != []
    ensures Format([a] + rest) == FormatArgument(a) + (" " + Format(rest))
  {
    assert ([a] + rest)[1..] == rest;
    Regroup(FormatArgument(a), " ", Format(rest), "");
  }

  lemma WordAndSpace(word: string, rest: string)
    ensures word + (" " + rest) == (word + " ") + rest
  {
  }

  /** Six words, with a space between each two. */
  function Words(a: string, b: string, c: string, d: string, e: string, f: string): string {
    a + (" " + (b + (" " + (c + (" " + (d + (" " + (e + (" " + f)))))))))
  }

  lemma FormatSix(a: Argument, b: Argument, c: Argument, d: Argument, e: Argument, f: Argument)
    ensures Format([a, b, c, d, e, f])
         == Words(FormatArgument(a), FormatArgument(b), FormatArgument(c), FormatArgument(d), FormatArgument(e),
                  FormatArgument(f))
  {
    FormatCons(e, [f]);
    FormatThree(d, e, f);
    FormatCons(c, [d, e, f]);
    FormatCons(b, [c, d, e, f]);
    FormatCons(a, [b, c, d, e, f]);
    assert [c] + [d, e, f] == [c, d, e, f] && [b] + [c, d, e, f] == [b, c, d, e, f];
    assert [a] + [b, c, d, e, f] == [a, b, c, d, e, f];
  }

  lemma FormatThree(d: Argument, e: Argument, f: Argument)
    ensures Format([d, e, f])
         == FormatArgument(d) + (" " + (FormatArgument(e) + (" " + FormatArgument(f))))
  {
    FormatCons(e, [f]);
    FormatCons(d, [e, f]);
    assert [e] + [f] == [e, f] && [d] + [e, f] == [d, e, f];
  }

  lemma WordsSpaced(a: string, b: string, c: string, d: string, e: string, f: string)
    ensures Words(a, b, c, d, e, f)
         == (a + " ") + ((b + " ") + ((c + " ") + ((d + " ") + ((e + " ") + f))))
  {
    WordAndSpace(e, f);
    WordAndSpace(d, e + (" " + f));
    WordAndSpace(c, d + (" " + (e + (" " + f))));
    WordAndSpace(b, c + (" " + (d + (" " + (e + (" " + f))))));
    WordAndSpace(a, b + (" " + (c + (" " + (d + (" " + (e + (" " + f))))))));
  }

  lemma PrintedValue()
    ensures FormatArgument(Arg("-a", "foo bar")) == "-a=\"foo bar\""
  {
    assert "foo bar"[3] == ' ';
    assert NeedsQuotes("foo bar");
    assert "-a" + "=" + ("\"" + "foo bar" + "\"") == "-a=\"foo bar\"";
  }

  lemma OptionsPrint(url: string)
    requires NeedsQuotes(url)
    ensures Format(Options() + [Arg("", url)]) == Download(url)
  {
    var o := Options();
    assert o + [Arg("", url)] == [o[0], o[1], o[2], o[3], o[4], Arg("", url)];
    FormatSix(o[0], o[1], o[2], o[3], o[4], Arg("", url));
    PrintedValue();
    WordsSpaced(FormatArgument(o[0]), FormatArgument(o[1]), FormatArgument(o[2]), FormatArgument(o[3]),
                FormatArgument(o[4]), FormatArgument(Arg("", url)));
    Spaces();
  }

  lemma Spaces()
    ensures "curl" + " " == "curl " && "-s" + " " == "-s " && "--tlsv1.2" + " " == "--tlsv1.2 "
    ensures "--insecure" + " " == "--insecure " && "-a=\"foo bar\"" + " " == "-a=\"foo bar\" "
  {
  }

  lemma FlagIsRepresentable(option: string, dashes: string, word: string)
    requires (dashes == "-" || dashes == "--") && IsWord(word) && option == dashes + word
    ensures Representable([BoolArg(option)])
  {
    OptionIsIdentifier(dashes, word);
    forall i | 0 <= i < |option| ensures option[i] != '|' {
      assert i >= |dashes| ==> option[i] == word[i - |dashes|];
    }
  }

  lemma AllRepresentable(args: seq<Argument>)
    requires forall i :: 0 <= i < |args| ==> Representable([args[i]])
    ensures Representable(args)
  {
    forall i | 0 <= i < |args| ensures WellFormed(args[i]) && Free(FormatArgument(args[i]), PIPE) {
      assert Representable([args[i]]);
      assert [args[i]][0] == args[i];
    }
  }

  lemma FlagsAreRepresentable()
    ensures Representable([BoolArg("-s")])
    ensures Representable([BoolArg("--tlsv1.2")])
    ensures Representable([BoolArg("--insecure")])
  {
    ShortFlag();
    TlsFlag();
    InsecureFlag();
  }

  lemma ShortFlag()
    ensures Representable([BoolArg("-s")])
  {
    FlagIsRepresentable("-s", "-", "s");
  }

  lemma TlsFlag()
    ensures Representable([BoolArg("--tlsv1.2")])
  {
    FlagIsRepresentable("--tlsv1.2", "--", "tlsv1.2");
  }

  lemma InsecureFlag()
    ensures Representable([BoolArg("--insecure")])
  {
    FlagIsRepresentable("--insecure", "--", "insecure");
  }

  lemma OptionsAreRepresentable()
    ensures Representable(Options())
    ensures forall i :: 0 <= i < |Options()| ==> !IsDownloadUrl(Options()[i])
  {
    FlagsAreRepresentable();
    CurlAndValueAreRepresentable();
    AllRepresentable(Options());
  }

  lemma CurlAndValueAreRepresentable()
    ensures Representable([Arg("curl", "")]) && Representable([Arg("-a", "foo bar")])
  {
    WordIsIdentifier("curl");
    ValueIsRepresentable("-a");
  }

  lemma ValueIsRepresentable(name: string)
    requires name == "-" + "a"
    ensures Representable([Arg(name, "foo bar")])
  {
    OptionIsIdentifier("-", "a");
    ValueWithSpace(name);
  }

  lemma ValueWithSpace(name: string)
    requires IsIdentifier(name) && Free(name, PIPE)
    ensures Printable("foo bar") && Free(FormatArgument(Arg(name, "foo bar")), PIPE)
  {
    assert "foo bar"[3] == ' ';
    assert NeedsQuotes("foo bar");
  }

  lemma UrlIsRepresentable(url: string)
    requires IsSimpleUrl(url)
    ensures Representable([Arg("", url)])
  {
    assert url[0] == url[..4][0] == 'h';
    FreeConcat("\"" + url, "\"", PIPE);
  }

  lemma RepresentableConcat(a: seq<Argument>, b: seq<Argument>)
    requires Representable(a) && Representable(b)
    ensures Representable(a + b)
  {
  }

  lemma SimpleUrlRewritten(url: string)
    requires IsSimpleUrl(url)
    ensures HasUrl([Arg("", url)]) && NewArgs([Arg("", url)]) == [Arg("", url + ("?" + "bg=true"))]
    ensures NeedsQuotes(url + ("?" + "bg=true"))
  {
    PlainUrl(url);
    FirstUrl([Arg("", url)], 0);
    WithQueryNeedsQuotes(url);
  }

  /** Any options before a simple URL stay as they are. */
  lemma CommandIsRewritten(options: seq<Argument>, url: string, text: string, newText: string, tail: string)
    requires Representable(options) && forall i :: 0 <= i < |options| ==> !IsDownloadUrl(options[i])
    requires options != [] && options[0].Arg? && HasPrefix(options[0].name, "curl")
    requires IsSimpleUrl(url) && Free(tail, PIPE)
    requires text == Format(options + [Arg("", url)])
    requires newText == Format(options + [Arg("", url + ("?" + "bg=true"))])
    ensures Detach((text + " ") + "|" + tail) == Rewritten(newText + "|" + tail)
  {
    var args := options + [Arg("", url)];
    UrlIsRepresentable(url);
    RepresentableConcat(options, [Arg("", url)]);
    SimpleUrlRewritten(url);
    UrlAfterOptions(options, [Arg("", url)]);
    assert args[0] == options[0];
    DownloadIsRewritten(args, tail);
  }

  /** The documented command: its options stay as they are and its URL gets the query bg=true. */
  lemma DocumentedCommand(url: string)
    requires IsSimpleUrl(url)
    ensures Detach((Download(url) + " ") + "|" + " sudo bash")
         == Rewritten(Download(url + ("?" + "bg=true")) + "|" + " sudo bash")
  {
    OptionsAreRepresentable();
    OptionsPrint(url);
    WithQueryNeedsQuotes(url);
    OptionsPrint(url + ("?" + "bg=true"));
    ShellIsFree();
    CommandIsRewritten(Options(), url, Download(url), Download(url + ("?" + "bg=true")), " sudo bash");
  }

  lemma ShellIsFree()
    ensures Free(" sudo bash", PIPE)
  {
  }

  // ------------------------------------------------------------------ what is looked for

  lemma {:induction false} TrimRightKeepsStart(s: string)
    ensures |TrimRight(s)| <= |s| && TrimRight(s) == s[..|TrimRight(s)|]
    ensures forall i :: |TrimRight(s)| <= i < |s| ==> IsSpace(s[i])
  {
    if s != "" && IsSpace(s[|s| - 1]) {
      TrimRightKeepsStart(s[..|s| - 1]);
    }
  }

  /** A stage is a curl stage exactly when these four letters come first after the blanks. */
  lemma CurlStageExactly(blanks: string, s: string)
    requires IsBlankText(blanks) && (s == "" || !IsSpace(s[0]))
    ensures IsCurl(blanks + s) <==> |s| >= 4 && s[0] == 'c' && s[1] == 'u' && s[2] == 'r' && s[3] == 'l'
  {
    TrimLeftBlanks(blanks, s);
    TrimRightKeepsStart(s);
    var t := TrimRight(s);
    if HasPrefix(t, "curl") {
      CurlRunes(t);
    }
    if |s| >= 4 && s[0] == 'c' && s[1] == 'u' && s[2] == 'r' && s[3] == 'l' {
      assert |t| >= 4;
      assert t[..4] == "curl";
    }
  }

  /** Only a positional argument that starts with these four letters is taken for the URL. */
  lemma OnlyHttpIsRewritten(args: seq<Argument>)
    ensures DetachArguments(args) == NoUrl <==>
      forall a <- args :: a.Arg? && a.name == "" ==>
        !(|a.value| >= 4 && a.value[0] == 'h' && a.value[1] == 't' && a.value[2] == 't' && a.value[3] == 'p')
  {
    forall a: Argument | a.Arg? && a.name == "" ensures IsDownloadUrl(a) <==>
      |a.value| >= 4 && a.value[0] == 'h' && a.value[1] == 't' && a.value[2] == 't' && a.value[3] == 'p'
    {
      HttpRunes(a.value);
    }
    var k := FindUrl(args);
    if k < |args| {
      assert args[k] in args;
    }
  }

  lemma HttpRunes(value: string)
    ensures HasPrefix(value, "http") <==>
      |value| >= 4 && value[0] == 'h' && value[1] == 't' && value[2] == 't' && value[3] == 'p'
  {
    if |value| >= 4 {
      var start := value[..4];
      assert start[0] == value[0] && start[1] == value[1] && start[2] == value[2] && start[3] == value[3];
      if value[0] == 'h' && value[1] == 't' && value[2] == 't' && value[3] == 'p' {
        assert start == "http";
      }
    }
  }
}
