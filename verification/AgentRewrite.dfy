/** Rewriting an agent download command so that the agent runs in the background: the URL of the first curl
    stage of the pipeline gets the query key bg. */
module AgentRewrite {
  import opened Common
  import opened Text
  import opened AgentLexer
  import opened AgentParser
  import opened AgentRoundTrip
  import opened AgentUrl

  datatype Result =
    | Rewritten(text: string)
    | NoCurl
    | BadCommand
    | BadUrl
    | NoUrl
    | ParserCrashed

  const PIPE: set<char> := {'|'}

  predicate IsCurl(stage: string) {
    HasPrefix(TrimSpace(stage), "curl")
  }

  predicate IsDownloadUrl(a: Argument) {
    a.Arg? && a.name == "" && HasPrefix(a.value, "http")
  }

  /** The first curl stage, or the number of stages. */
  function FindCurl(pipe: seq<string>): (i: nat)
    ensures i <= |pipe| && (i < |pipe| ==> IsCurl(pipe[i]))
    ensures forall j :: 0 <= j < i ==> !IsCurl(pipe[j])
  {
    if pipe == [] || IsCurl(pipe[0]) then 0
    else
      var i := 1 + FindCurl(pipe[1..]);
      assert forall j :: 1 <= j < i ==> pipe[j] == pipe[1..][j - 1];
      i
  }

  function FindUrl(args: seq<Argument>): (k: nat)
    ensures k <= |args| && (k < |args| ==> IsDownloadUrl(args[k]))
    ensures forall j :: 0 <= j < k ==> !IsDownloadUrl(args[j])
  {
    if args == [] || IsDownloadUrl(args[0]) then 0
    else
      var k := 1 + FindUrl(args[1..]);
      assert forall j :: 1 <= j < k ==> args[j] == args[1..][j - 1];
      k
  }

  function DetachStage(stage: string): Result {
    match Parse(TrimSpace(stage))
    case Crashed => ParserCrashed
    case Failed(_) => BadCommand
    case Parsed(args) => DetachArguments(args)
  }

  function DetachArguments(args: seq<Argument>): Result {
    var k := FindUrl(args);
    if k == |args| then NoUrl else WithUrl(args, k, RunInBackground(args[k].value))
  }

  function WithUrl(args: seq<Argument>, k: nat, url: Option<string>): Result
    requires k < |args|
  {
    if url.None? then BadUrl else Rewritten(Format(args[k := Arg("", url.value)]))
  }

  function Detach(command: string): Result {
    var pipe := Split(command, PIPE);
    var i := FindCurl(pipe);
    if i == |pipe| then NoCurl
    else
      var stage := DetachStage(pipe[i]);
      if stage.Rewritten? then Rewritten(Join(pipe[i := stage.text], "|")) else stage
  }

  /** ConfigureAgentCommandRunDetached. */
  method ConfigureAgentCommandRunDetached(command: string) returns (result: Result)
    ensures result == Detach(command)
  {
    var pipe := Split(command, PIPE);
    var i, curlCmd := 0, "";
    while i < |pipe| && curlCmd == ""
      invariant i <= |pipe|
      invariant curlCmd == "" ==> forall j :: 0 <= j < i ==> !IsCurl(pipe[j])
      invariant curlCmd != "" ==> i < |pipe| && curlCmd == TrimSpace(pipe[i]) && FindCurl(pipe) == i
      decreases |pipe| - i, if curlCmd == "" then 1 else 0
    {
      var cmd := TrimSpace(pipe[i]);
      if HasPrefix(cmd, "curl") {
        curlCmd := cmd;
        FirstCurl(pipe, i);
      } else {
        i := i + 1;
      }
    }
    if curlCmd == "" {
      return NoCurl;
    }
    var outcome := ParseCommandLine(curlCmd);
    if outcome.Crashed? {
      return ParserCrashed;
    }
    if outcome.Failed? {
      return BadCommand;
    }
    result := RewriteUrl(outcome.args);
    if result.Rewritten? {
      pipe := pipe[i := result.text];
      result := Rewritten(Join(pipe, "|"));
    }
  }

  /** The loop over the curl arguments: the first download URL is replaced and the arguments are printed. */
  method RewriteUrl(arguments: seq<Argument>) returns (result: Result)
    ensures result == DetachArguments(arguments)
  {
    var args := arguments;
    for k := 0 to |args|
      invariant args == arguments
      invariant forall j :: 0 <= j < k ==> !IsDownloadUrl(args[j])
    {
      if IsDownloadUrl(args[k]) {
        FirstUrl(args, k);
        var url := RunInBackground(args[k].value);
        if url.None? {
          return BadUrl;
        }
        args := args[k := Arg("", url.value)];
        var text := FormatCommandLine(args);
        return Rewritten(text);
      }
    }
    result := NoUrl;
  }

  lemma FirstCurl(pipe: seq<string>, i: nat)
    requires i < |pipe| && IsCurl(pipe[i]) && forall j :: 0 <= j < i ==> !IsCurl(pipe[j])
    ensures FindCurl(pipe) == i
  {
  }

  lemma FirstUrl(args: seq<Argument>, k: nat)
    requires k < |args| && IsDownloadUrl(args[k]) && forall j :: 0 <= j < k ==> !IsDownloadUrl(args[j])
    ensures FindUrl(args) == k
  {
  }

  // ------------------------------------------------------------------ the rewritten command is well-formed

  /** The curl arguments of a command that has a curl stage. */
  function CurlArgs(command: string): Outcome {
    var pipe := Split(command, PIPE);
    if FindCurl(pipe) == |pipe| then Failed([]) else Parse(TrimSpace(pipe[FindCurl(pipe)]))
  }

  /** Every curl argument can be printed so that it is read back, and none contains a pipe sign. */
  predicate Representable(args: seq<Argument>) {
    AllWellFormed(args) && forall i :: 0 <= i < |args| ==> Free(FormatArgument(args[i]), PIPE)
  }

  lemma CutKeepsPrefix(s: string, c: char)
    requires HasPrefix(s, "http") && c !in "http"
    ensures HasPrefix(Cut(s, c).0, "http")
  {
    assert s[..4] == "http";
    assert s[0] == s[..4][0] && s[1] == s[..4][1] && s[2] == s[..4][2] && s[3] == s[..4][3];
    var i := IndexAny(s, {c});
    assert i < |s| ==> s[i] == c;
    assert s[..i][..4] == s[..4];
  }

  lemma TailKeepsPrefix(s: string, separator: char, tail: string)
    requires HasPrefix(s, "http")
    ensures HasPrefix(WithTail(s, separator, tail), "http")
  {
    assert WithTail(s, separator, tail)[..4] == s[..4];
  }

  lemma UrlKeepsPrefix(value: string)
    requires HasPrefix(value, "http") && ParseUrl(value).Some?
    ensures HasPrefix(RunInBackground(value).value, "http")
  {
    CutKeepsPrefix(value, '#');
    CutKeepsPrefix(Cut(value, '#').0, '?');
    var u := Background(ParseUrl(value).value);
    TailKeepsPrefix(u.base, '?', u.query);
    TailKeepsPrefix(WithTail(u.base, '?', u.query), '#', u.fragment);
  }

  predicate AllIn(s: string, value: string) {
    forall i :: 0 <= i < |s| ==> s[i] in value
  }

  lemma CutIn(s: string, c: char, value: string)
    requires AllIn(s, value)
    ensures AllIn(Cut(s, c).0, value) && AllIn(Cut(s, c).1, value)
  {
  }

  /** A background URL consists of characters of the old URL and of characters of an encoded query, and has a
      question mark. */
  lemma BackgroundChars(value: string)
    requires ParseUrl(value).Some?
    ensures '?' in RunInBackground(value).value
    ensures forall c <- RunInBackground(value).value :: IsBackgroundChar(value, c)
  {
    assert AllIn(value, value);
    CutIn(value, '#', value);
    CutIn(Cut(value, '#').0, '?', value);
    var u := Background(ParseUrl(value).value);
    EncodedQuery(ParseUrl(value).value.query);
    UrlChars(value, u.base, u.query, u.fragment);
  }

  predicate IsBackgroundChar(value: string, c: char) {
    c in value || IsQueryChar(c) || c in {'=', '&', '?', '#'}
  }

  lemma UrlChars(value: string, base: string, query: string, fragment: string)
    requires AllIn(base, value) && AllIn(fragment, value) && IsQueryText(query) && query != ""
    ensures var url := WithTail(WithTail(base, '?', query), '#', fragment);
      '?' in url && forall c <- url :: IsBackgroundChar(value, c)
  {
    assert WithTail(base, '?', query)[|base|] == '?';
    assert WithTail(WithTail(base, '?', query), '#', fragment)[|base|] == '?';
  }

  lemma EncodedQuery(query: string)
    ensures IsQueryText(Encode(BackgroundQuery(query))) && Encode(BackgroundQuery(query)) != ""
  {
    var q := BackgroundQuery(query);
    EncodeChars(Pairs(q));
    BackgroundQueryIsOrdered(query);
    BuildPairs(q);
    NonEmptyEncoding(Pairs(q));
  }

  lemma NonEmptyEncoding(pairs: seq<Pair>)
    requires pairs != []
    ensures Join(EncodePairs(pairs), "&") != ""
  {
    var encoded := EncodePairs(pairs);
    assert encoded[0] == EncodePair(pairs[0]);
    assert |EncodePair(pairs[0])| >= 1;
  }

  lemma BackgroundIsRepresentable(args: seq<Argument>, k: nat)
    requires Representable(args) && k < |args| && IsDownloadUrl(args[k]) && ParseUrl(args[k].value).Some?
    ensures Representable(args[k := Arg("", RunInBackground(args[k].value).value)])
  {
    assert WellFormed(args[k]) && Free(FormatArgument(args[k]), PIPE);
    BackgroundUrlPrints(args[k].value);
    RepresentableUpdate(args, k, Arg("", RunInBackground(args[k].value).value));
  }

  lemma RepresentableUpdate(args: seq<Argument>, k: nat, a: Argument)
    requires Representable(args) && k < |args| && WellFormed(a) && Free(FormatArgument(a), PIPE)
    ensures Representable(args[k := a])
  {
  }

  lemma BackgroundUrlPrints(value: string)
    requires WellFormed(Arg("", value)) && Free(FormatArgument(Arg("", value)), PIPE)
    requires HasPrefix(value, "http") && ParseUrl(value).Some?
    ensures var url := Arg("", RunInBackground(value).value);
      WellFormed(url) && Free(FormatArgument(url), PIPE)
  {
    var url := RunInBackground(value).value;
    UrlKeepsPrefix(value);
    assert url[0] == url[..4][0] == 'h';
    BackgroundChars(value);
    ValueIsPipeFree(value);
    BackgroundIsPlain(value, url);
    var j :| 0 <= j < |url| && url[j] == '?';
    assert NeedsQuotes(url);
  }

  lemma BackgroundIsPlain(value: string, url: string)
    requires Quotable(value) && '|' !in value
    requires forall c <- url :: IsBackgroundChar(value, c)
    ensures Quotable(url) && Free("\"" + url + "\"", PIPE)
  {
    forall i | 0 <= i < |url| ensures url[i] !in {'"', '\\', '\n', '|'} {
      assert IsBackgroundChar(value, url[i]);
    }
  }

  lemma ValueIsPipeFree(value: string)
    requires NeedsQuotes(value) && Free(FormatArgument(Arg("", value)), PIPE)
    ensures '|' !in value
  {
    var text := FormatArgument(Arg("", value));
    forall i | 0 <= i < |value| ensures value[i] != '|' {
      assert text[i + 1] == value[i];
    }
  }

  lemma {:induction false} FormatIsPipeFree(args: seq<Argument>)
    requires forall i :: 0 <= i < |args| ==> Free(FormatArgument(args[i]), PIPE)
    ensures Free(Format(args), PIPE)
  {
    if args == [] {
    } else {
      assert Free(FormatArgument(args[0]), PIPE);
      FormatIsPipeFree(args[1..]);
    }
  }

  // ------------------------------------------------------------------ printed stages need no trimming

  lemma FirstArgIsCurl(command: string)
    requires HasPrefix(command, "curl") && Parse(command).Parsed?
    ensures var args := Parse(command).args; args != [] && args[0].Arg? && HasPrefix(args[0].name, "curl")
  {
    CurlAhead(command);
    FirstParsed(Lex(command), Parse(command).args);
    IdentifierFirst(Lex(command));
  }

  /** The first token of the command is an identifier that starts with curl. */
  lemma CurlAhead(command: string)
    requires HasPrefix(command, "curl")
    ensures Lex(command) != [] && Lex(command)[0].Ident? && HasPrefix(Lex(command)[0].text, "curl")
    ensures ValueOf(Lex(command)[0]) == Lex(command)[0].text
  {
    CurlRunes(command);
    FourRunes(command);
    var n := IdentLength(command, 0);
    var text := command[..n];
    LexNext(command, Ident(text), command[n..]);
    SliceOfPrefix(command, n, 0, 4);
  }

  lemma CurlRunes(command: string)
    requires HasPrefix(command, "curl")
    ensures command[0] == 'c' && command[1] == 'u' && command[2] == 'r' && command[3] == 'l'
  {
    var start := command[..4];
    assert start[0] == 'c' && start[1] == 'u' && start[2] == 'r' && start[3] == 'l';
  }

  lemma IdentifierFirst(tokens: seq<Token>)
    requires tokens != [] && tokens[0].Ident? && HasPrefix(tokens[0].text, "curl")
    requires ValueOf(tokens[0]) == tokens[0].text && ArgStep(tokens).arg.Some?
    ensures ArgStep(tokens).arg.value.Arg? && HasPrefix(ArgStep(tokens).arg.value.name, "curl")
  {
    CurlRunes(tokens[0].text);
  }

  lemma FourRunes(s: string)
    requires |s| >= 4
    requires IsLetterOrDigit(s[0]) && IsLetterOrDigit(s[1]) && IsLetterOrDigit(s[2]) && IsLetterOrDigit(s[3])
    ensures IdentLength(s, 0) >= 4
  {
    assert s[1..][0] == s[1] && s[1..][1..] == s[2..] && s[2..][1..] == s[3..];
    assert IdentLength(s[3..], 3) >= 1;
    assert IdentLength(s[2..], 2) >= 2;
    assert IdentLength(s[1..], 1) >= 3;
  }

  predicate EndsSolid(s: string) {
    s != "" && !IsSpace(s[|s| - 1])
  }

  lemma IdentifierEndsSolid(word: string)
    requires IsIdentifier(word)
    ensures EndsSolid(word)
  {
    IdentRunes(word, 0);
    assert IsIdentRune(word[|word| - 1], 0 + (|word| - 1));
  }

  lemma ArgumentEndsSolid(a: Argument)
    requires WellFormed(a)
    ensures EndsSolid(FormatArgument(a))
  {
    match a
    case BoolArg(name) => IdentifierEndsSolid(name);
    case Arg(name, value) =>
      if value == "" {
        IdentifierEndsSolid(name);
      } else if !NeedsQuotes(value) {
        IdentifierEndsSolid(value);
      }
  }

  lemma {:induction false} FormatEndsSolid(args: seq<Argument>)
    requires AllWellFormed(args) && args != []
    ensures EndsSolid(Format(args))
  {
    assert WellFormed(args[0]);
    if |args| == 1 {
      ArgumentEndsSolid(args[0]);
    } else {
      FormatEndsSolid(args[1..]);
    }
  }

  lemma PrintedCurlIsTrimmed(args: seq<Argument>)
    requires AllWellFormed(args) && args != [] && args[0].Arg? && HasPrefix(args[0].name, "curl")
    ensures TrimSpace(Format(args)) == Format(args) && HasPrefix(Format(args), "curl")
  {
    FormatEndsSolid(args);
    FormatKeepsPrefix(args);
    SolidIsTrimmed(Format(args));
  }

  lemma FormatKeepsPrefix(args: seq<Argument>)
    requires args != [] && args[0].Arg? && HasPrefix(args[0].name, "curl")
    ensures HasPrefix(Format(args), "curl")
  {
    var name, text := args[0].name, Format(args);
    assert name[..4] == "curl";
    assert |FormatArgument(args[0])| >= |name| && FormatArgument(args[0])[..|name|] == name;
    assert text[..|name|] == name;
    assert text[..4] == name[..4];
  }

  lemma SolidIsTrimmed(s: string)
    requires EndsSolid(s) && HasPrefix(s, "curl")
    ensures TrimSpace(s) == s
  {
    assert s[0] == s[..4][0] == 'c';
  }

  // ------------------------------------------------------------------ the main results

  predicate HasUrl(args: seq<Argument>) {
    FindUrl(args) < |args| && ParseUrl(args[FindUrl(args)].value).Some?
  }

  /** The command has a curl stage with a download URL. */
  predicate HasDownload(command: string) {
    CurlArgs(command).Parsed? && HasUrl(CurlArgs(command).args)
  }

  /** The rewrite succeeds exactly on commands with a download URL; it finds nothing to do exactly when no stage is
      a curl stage, or no curl argument a URL. */
  lemma DetachSucceedsIff(command: string)
    ensures Detach(command).Rewritten? <==> HasDownload(command)
    ensures Detach(command).NoCurl? <==> forall stage <- Split(command, PIPE) :: !IsCurl(stage)
    ensures Detach(command).NoUrl? <==>
      CurlArgs(command).Parsed? && forall a <- CurlArgs(command).args :: !IsDownloadUrl(a)
  {
    var pipe := Split(command, PIPE);
    if FindCurl(pipe) < |pipe| {
      assert pipe[FindCurl(pipe)] in pipe;
      if CurlArgs(command).Parsed? {
        var args := CurlArgs(command).args;
        assert FindUrl(args) < |args| ==> args[FindUrl(args)] in args;
      }
    }
  }

  /** The other errors: the curl stage makes the parser panic, is not accepted, or its URL is none. */
  lemma DetachFailsIff(command: string)
    ensures Detach(command).ParserCrashed? <==> CurlArgs(command).Crashed?
    ensures Detach(command).BadCommand? <==>
      CurlArgs(command).Failed? && exists stage <- Split(command, PIPE) :: IsCurl(stage)
    ensures Detach(command).BadUrl? <==>
      && CurlArgs(command).Parsed?
      && var args := CurlArgs(command).args;
         exists k :: 0 <= k < |args| && IsDownloadUrl(args[k]) && ParseUrl(args[k].value).None?
                     && forall j :: 0 <= j < k ==> !IsDownloadUrl(args[j])
  {
    var pipe := Split(command, PIPE);
    if FindCurl(pipe) < |pipe| {
      assert pipe[FindCurl(pipe)] in pipe;
      if CurlArgs(command).Parsed? {
        BadUrlIff(CurlArgs(command).args);
      }
    }
  }

  lemma BadUrlIff(args: seq<Argument>)
    ensures DetachArguments(args).BadUrl? <==>
      exists k :: 0 <= k < |args| && IsDownloadUrl(args[k]) && ParseUrl(args[k].value).None?
                  && forall j :: 0 <= j < k ==> !IsDownloadUrl(args[j])
  {
    forall k | 0 <= k < |args| && IsDownloadUrl(args[k]) && forall j :: 0 <= j < k ==> !IsDownloadUrl(args[j])
      ensures FindUrl(args) == k
    {
      FirstUrl(args, k);
    }
  }

  /** The curl arguments after the rewrite. */
  function NewArgs(args: seq<Argument>): seq<Argument>
    requires HasUrl(args)
  {
    args[FindUrl(args) := Arg("", RunInBackground(args[FindUrl(args)].value).value)]
  }

  /** What a rewrite leaves alone: every stage but the first curl stage, and every curl argument but the first
      download URL, which becomes its background form. */
  lemma DetachEffect(command: string, args: seq<Argument>)
    requires CurlArgs(command) == Parsed(args) && Representable(args)
    ensures HasUrl(args) ==>
      var pipe, after := Split(command, PIPE), NewArgs(args);
      var i := FindCurl(pipe);
      && i < |pipe| && Detach(command).Rewritten?
      && Split(Detach(command).text, PIPE) == pipe[i := Format(after)]
      && FindCurl(Split(Detach(command).text, PIPE)) == i
      && CurlArgs(Detach(command).text) == Parsed(after)
  {
    if HasUrl(args) {
      RewriteIsPrinted(command);
    }
  }

  lemma RewriteIsPrinted(command: string)
    requires HasDownload(command) && Representable(CurlArgs(command).args)
    ensures var pipe, after := Split(command, PIPE), NewArgs(CurlArgs(command).args);
      var i := FindCurl(pipe);
      && i < |pipe| && Detach(command).Rewritten?
      && Split(Detach(command).text, PIPE) == pipe[i := Format(after)]
      && FindCurl(Split(Detach(command).text, PIPE)) == i
      && CurlArgs(Detach(command).text) == Parsed(after)
  {
    var pipe, args := Split(command, PIPE), CurlArgs(command).args;
    var i, after := FindCurl(pipe), NewArgs(args);
    BackgroundIsRepresentable(args, FindUrl(args));
    FormatIsPipeFree(after);
    var stages := pipe[i := Format(after)];
    SplitJoin(stages, '|', PIPE);
    FirstArgIsCurl(TrimSpace(pipe[i]));
    assert FindUrl(args) != 0;
    PrintedCurlIsTrimmed(after);
    FirstCurl(stages, i);
    ParseUndoesFormat(after);
  }

  /** Rewriting is idempotent on commands whose curl arguments can be printed. */
  lemma DetachTwice(command: string, args: seq<Argument>)
    requires CurlArgs(command) == Parsed(args) && Representable(args)
    ensures Detach(command).Rewritten? ==> Detach(Detach(command).text) == Detach(command)
  {
    DetachSucceedsIff(command);
    if HasDownload(command) {
      RewriteIsRewritten(command);
    }
  }

  lemma RewriteIsRewritten(command: string)
    requires HasDownload(command) && Representable(CurlArgs(command).args)
    ensures Detach(command).Rewritten? && Detach(Detach(command).text) == Detach(command)
  {
    RewriteIsPrinted(command);
    var pipe, args := Split(command, PIPE), CurlArgs(command).args;
    var k := FindUrl(args);
    var url := RunInBackground(args[k].value).value;
    BackgroundTwice(args[k].value);
    UrlKeepsPrefix(args[k].value);
    UrlStaysFirst(args, k, url);
    DetachFixpoint(Detach(command).text, FindCurl(pipe), NewArgs(args), k, url);
  }

  function Pipeline(before: seq<string>, stage: string, after: seq<string>): seq<string> {
    before + [stage] + after
  }

  /** A printed command is rewritten to the printed command with the URL in background form, in any pipeline. */
  lemma PrintedCommandIsRewritten(before: seq<string>, args: seq<Argument>, after: seq<string>)
    requires forall stage <- before + after :: Free(stage, PIPE)
    requires forall stage <- before :: !IsCurl(stage)
    requires Representable(args) && args != [] && args[0].Arg? && HasPrefix(args[0].name, "curl")
    ensures HasUrl(args) ==>
      Detach(Join(Pipeline(before, Format(args), after), "|"))
      == Rewritten(Join(Pipeline(before, Format(NewArgs(args)), after), "|"))
  {
    var stage := Format(args);
    FormatIsPipeFree(args);
    PrintedStage(args);
    StageInPipeline(before, stage, after);
    if HasUrl(args) {
      PipelineUpdate(before, stage, after, Format(NewArgs(args)));
      StageIsRewritten(Join(Pipeline(before, stage, after), "|"), Pipeline(before, stage, after), |before|, args);
    }
  }

  lemma PrintedStage(args: seq<Argument>)
    requires AllWellFormed(args) && args != [] && args[0].Arg? && HasPrefix(args[0].name, "curl")
    ensures IsCurl(Format(args)) && Parse(TrimSpace(Format(args))) == Parsed(args)
  {
    PrintedCurlIsTrimmed(args);
    ParseUndoesFormat(args);
  }

  lemma StageInPipeline(before: seq<string>, stage: string, after: seq<string>)
    requires forall s <- before + after :: Free(s, PIPE)
    requires Free(stage, PIPE) && IsCurl(stage) && forall s <- before :: !IsCurl(s)
    ensures Split(Join(Pipeline(before, stage, after), "|"), PIPE) == Pipeline(before, stage, after)
    ensures FindCurl(Pipeline(before, stage, after)) == |before|
  {
    var pipe := Pipeline(before, stage, after);
    forall j | 0 <= j < |pipe| ensures Free(pipe[j], PIPE) {
      assert j != |before| ==> pipe[j] in before + after;
    }
    SplitJoin(pipe, '|', PIPE);
    FirstCurl(pipe, |before|);
  }

  lemma PipelineUpdate(before: seq<string>, stage: string, after: seq<string>, other: string)
    ensures Pipeline(before, stage, after)[|before|] == stage
    ensures Pipeline(before, stage, after)[|before| := other] == Pipeline(before, other, after)
  {
  }

  lemma StageIsRewritten(command: string, pipe: seq<string>, i: nat, args: seq<Argument>)
    requires pipe == Split(command, PIPE) && i < |pipe| && FindCurl(pipe) == i
    requires Parse(TrimSpace(pipe[i])) == Parsed(args)
    requires HasUrl(args)
    ensures Detach(command) == Rewritten(Join(pipe[i := Format(NewArgs(args))], "|"))
  {
  }

  lemma UrlStaysFirst(args: seq<Argument>, k: nat, url: string)
    requires k < |args| && FindUrl(args) == k && HasPrefix(url, "http")
    ensures FindUrl(args[k := Arg("", url)]) == k
  {
    FirstUrl(args[k := Arg("", url)], k);
  }

  /** A command whose curl stage is printed and whose download URL is in background form already is left alone. */
  lemma DetachFixpoint(text: string, i: nat, args: seq<Argument>, k: nat, url: string)
    requires i < |Split(text, PIPE)| && FindCurl(Split(text, PIPE)) == i && Split(text, PIPE)[i] == Format(args)
    requires CurlArgs(text) == Parsed(args) && k < |args| && FindUrl(args) == k && args[k] == Arg("", url)
    requires RunInBackground(url) == Some(url)
    ensures Detach(text) == Rewritten(text)
  {
    StageFixpoint(args, k, url);
    var stages := Split(text, PIPE);
    assert CurlArgs(text) == Parse(TrimSpace(stages[i]));
    assert DetachStage(stages[i]) == DetachArguments(args);
    assert stages[i := Format(args)] == stages;
    JoinSplit(text, '|');
  }

  lemma StageFixpoint(args: seq<Argument>, k: nat, url: string)
    requires k < |args| && FindUrl(args) == k && args[k] == Arg("", url) && RunInBackground(url) == Some(url)
    ensures DetachArguments(args) == Rewritten(Format(args))
  {
    SameUrl(args, k, url);
  }

  lemma SameUrl(args: seq<Argument>, k: nat, url: string)
    requires k < |args| && args[k] == Arg("", url)
    ensures WithUrl(args, k, Some(url)) == Rewritten(Format(args))
  {
    assert args[k := Arg("", url)] == args;
  }

  /** Not every curl option survives: a hyphen after the second rune ends an identifier, so an option written
      with one is read, and printed, as two arguments. */
  lemma HyphenEndsOption(first: string, args: seq<Argument>)
    requires IsIdentifier(first) && |first| >= 2 && first[0] == '-'
    requires AllWellFormed(args) && args != [] && Format(args)[0] == '-'
    ensures Parse(first + Format(args)) == Parsed([BoolArg(first)] + args)
    ensures Format([BoolArg(first)] + args) == first + " " + Format(args)
  {
    var rest := Format(args);
    ScanIdentifier(first, rest);
    LexNext(first + rest, Ident(first), rest);
    IdentifierValue(first);
    var items := LexFormat(args);
    SpelledIsParsed(items);
    assert items != [] && GoodItem(items[0]);
    var tokens := Lex(first + rest);
    assert Tail(tokens) == Lex(rest) && Head(Lex(rest)) == Some(items[0].piece);
    assert ArgStep(tokens) == Step(Some(BoolArg(first)), [], Lex(rest));
    assert ([BoolArg(first)] + args)[1..] == args;
  }

  /** For instance --retry-delay=5 becomes --retry -delay=5. */
  lemma RetryDelayIsSplit()
    ensures var option, args := "--retry", [Arg("-delay", "5")];
      && Format(args) == "-delay=5"
      && Parse(option + Format(args)) == Parsed([BoolArg(option)] + args)
      && Format([BoolArg(option)] + args) == option + " " + Format(args)
  {
    RetryDelayWords();
    HyphenEndsOption("--retry", [Arg("-delay", "5")]);
  }

  lemma RetryDelayWords()
    ensures IsIdentifier("--retry") && WellFormed(Arg("-delay", "5"))
    ensures Format([Arg("-delay", "5")]) == "-delay=5"
  {
    OptionWord("--retry");
    OptionWord("-delay");
    OptionWord("5");
    IdentifiersNeedNoQuotes("5");
  }

  lemma OptionWord(word: string)
    requires word != "" && forall k :: 0 <= k < |word| ==> IsIdentRune(word[k], k)
    ensures IsIdentifier(word)
  {
    IdentRunes(word, 0);
  }

  /** A curl command whose first option runs on with a hyphen is parsed with the option in two. */
  lemma ParseSplitsOption(first: string, args: seq<Argument>)
    requires IsIdentifier(first) && |first| >= 2 && first[0] == '-'
    requires AllWellFormed(args) && args != [] && Format(args)[0] == '-'
    ensures Parse("curl " + (first + Format(args))) == Parsed([Arg("curl", "")] + ([BoolArg(first)] + args))
  {
    var rest := first + Format(args);
    HyphenEndsOption(first, args);
    LexCurl(rest);
    ScanIdentifier(first, Format(args));
    LexNext(rest, Ident(first), Format(args));
    CurlStep(Lex(rest));
    StepOfParse([Ident("curl")] + Lex(rest), Arg("curl", ""), Lex(rest));
  }

  lemma LexCurl(rest: string)
    ensures Lex("curl " + rest) == [Ident("curl")] + Lex(rest)
    ensures IsIdentifier("curl") && ValueOf(Ident("curl")) == "curl"
  {
    OptionWord("curl");
    IdentifierValue("curl");
    assert "curl " + rest == "curl" + (" " + rest);
    ScanIdentifier("curl", " " + rest);
    LexNext("curl" + (" " + rest), Ident("curl"), " " + rest);
    LexSpace(rest);
  }

  lemma CurlStep(rest: seq<Token>)
    requires Head(rest) != Some(Assign) && ValueOf(Ident("curl")) == "curl"
    ensures ArgStep([Ident("curl")] + rest) == Step(Some(Arg("curl", "")), [], rest)
  {
    assert Tail([Ident("curl")] + rest) == rest;
  }

  lemma FindUrlAfter(before: seq<Argument>, args: seq<Argument>)
    requires FindUrl(args) < |args| && forall i :: 0 <= i < |before| ==> !IsDownloadUrl(before[i])
    ensures FindUrl(before + args) == |before| + FindUrl(args)
  {
    var k, all := FindUrl(args), before + args;
    assert forall j :: 0 <= j < |args| ==> all[|before| + j] == args[j];
    forall j | 0 <= j < |before| + k ensures !IsDownloadUrl(all[j]) {
      assert j < |before| ==> all[j] == before[j];
      assert j >= |before| ==> all[j] == args[j - |before|];
    }
    FirstUrl(all, |before| + k);
  }

  lemma UpdateAfter<T>(before: seq<T>, args: seq<T>, k: nat, x: T)
    requires k < |args|
    ensures (before + args)[|before| + k] == args[k]
    ensures (before + args)[|before| + k := x] == before + args[k := x]
  {
  }

  lemma UrlAfterOptions(before: seq<Argument>, args: seq<Argument>)
    requires HasUrl(args) && forall i :: 0 <= i < |before| ==> !IsDownloadUrl(before[i])
    ensures HasUrl(before + args) && NewArgs(before + args) == before + NewArgs(args)
  {
    var k := FindUrl(args);
    FindUrlAfter(before, args);
    UpdateAfter(before, args, k, Arg("", RunInBackground(args[k].value).value));
  }

  lemma FormatCurl(first: string, args: seq<Argument>)
    requires args != []
    ensures Format([Arg("curl", "")] + ([BoolArg(first)] + args)) == "curl " + (first + (" " + Format(args)))
  {
    var tail := [BoolArg(first)] + args;
    assert tail[1..] == args;
    assert ([Arg("curl", "")] + tail)[1..] == tail;
    Regroup("curl", " ", Format(tail), "");
    Regroup(first, " ", Format(args), "");
  }

  /** The rewrite of such a command puts a space into the option. */
  lemma DetachSplitsOption(first: string, args: seq<Argument>)
    requires IsIdentifier(first) && |first| >= 2 && first[0] == '-'
    requires AllWellFormed(args) && args != [] && Format(args)[0] == '-'
    requires Free("curl " + (first + Format(args)), PIPE)
    ensures HasUrl(args) ==>
      Detach("curl " + (first + Format(args))) == Rewritten("curl " + (first + (" " + Format(NewArgs(args)))))
  {
    if HasUrl(args) {
      var command := "curl " + (first + Format(args));
      var all := [Arg("curl", "")] + ([BoolArg(first)] + args);
      ParseSplitsOption(first, args);
      CurlIsTrimmed(command, args, "curl " + first);
      TwoMoreArguments(first, args);
      OnlyStageIsRewritten(command, all);
      FormatCurl(first, NewArgs(args));
    }
  }

  lemma TwoMoreArguments(first: string, args: seq<Argument>)
    requires HasUrl(args)
    ensures var all := [Arg("curl", "")] + ([BoolArg(first)] + args);
      HasUrl(all) && NewArgs(all) == [Arg("curl", "")] + ([BoolArg(first)] + NewArgs(args))
  {
    UrlAfterOptions([BoolArg(first)], args);
    UrlAfterOptions([Arg("curl", "")], [BoolArg(first)] + args);
  }

  lemma OnlyStageIsRewritten(command: string, args: seq<Argument>)
    requires Free(command, PIPE) && IsCurl(command) && Parse(TrimSpace(command)) == Parsed(args) && HasUrl(args)
    ensures Detach(command) == Rewritten(Format(NewArgs(args)))
  {
    SplitFree(command, PIPE);
    FirstCurl([command], 0);
    StageIsRewritten(command, [command], 0, args);
    OneStage(command, Format(NewArgs(args)));
  }

  lemma OneStage(stage: string, other: string)
    ensures Join([stage][0 := other], "|") == other
  {
    assert [stage][0 := other] == [other];
  }

  lemma CurlIsTrimmed(command: string, args: seq<Argument>, before: string)
    requires AllWellFormed(args) && args != [] && command == before + Format(args) && HasPrefix(command, "curl")
    ensures TrimSpace(command) == command && IsCurl(command)
  {
    FormatEndsSolid(args);
    SolidIsTrimmed(command);
  }

  /** A curl command with one option and a URL. */
  function CurlWith(option: string, url: string): string {
    "curl " + (option + (" " + ("\"" + url + "\"")))
  }

  /** A download URL without query and fragment that can stand between quotes. */
  predicate IsSimpleUrl(url: string) {
    && HasPrefix(url, "http") && NeedsQuotes(url) && Quotable(url)
    && Free(url, {'#', '?', '|'}) && IsPlain(url) && EscapesValid(url)
  }

  /** For instance, whole commands with --retry-delay=5. */
  lemma RetryDelayCommand(url: string)
    requires IsSimpleUrl(url)
    ensures Detach(CurlWith("--retry-delay=5", url)) == Rewritten(CurlWith("--retry -delay=5", url + ("?" + "bg=true")))
  {
    var args := DelayAndUrl(url);
    RetryDelayWords();
    DelayAndUrlPrints(url);
    DelayAndUrlRewritten(url);
    RetryDelayTexts(url);
    RetryDelayTexts(url + ("?" + "bg=true"));
    RetryDelayIsFree(url);
    DetachSplitsOption("--retry", args);
  }

  function DelayAndUrl(url: string): seq<Argument> {
    [Arg("-delay", "5"), Arg("", url)]
  }

  lemma RetryDelayTexts(url: string)
    ensures "curl " + ("--retry" + ("-delay=5" + (" " + ("\"" + url + "\"")))) == CurlWith("--retry-delay=5", url)
    ensures "curl " + ("--retry" + (" " + ("-delay=5" + (" " + ("\"" + url + "\"")))))
         == CurlWith("--retry -delay=5", url)
  {
    var rest := " " + ("\"" + url + "\"");
    assert "--retry" + "-delay=5" == "--retry-delay=5";
    assert "--retry" + (" " + "-delay=5") == "--retry -delay=5";
    Regroup("--retry", "-delay=5", rest, "");
    Regroup("--retry", " ", "-delay=5", rest);
  }

  lemma RetryDelayIsFree(url: string)
    requires IsSimpleUrl(url)
    ensures Free(CurlWith("--retry-delay=5", url), PIPE)
  {
    FreeConcat("\"" + url, "\"", PIPE);
    FreeConcat("--retry-delay=5", " " + ("\"" + url + "\""), PIPE);
  }

  lemma FreeConcat(a: string, b: string, chars: set<char>)
    requires Free(a, chars) && Free(b, chars)
    ensures Free(a + b, chars)
  {
  }

  lemma DelayAndUrlPrints(url: string)
    requires NeedsQuotes(url) && Quotable(url) && HasPrefix(url, "http")
    ensures AllWellFormed(DelayAndUrl(url))
    ensures Format(DelayAndUrl(url)) == "-delay=5" + (" " + ("\"" + url + "\""))
  {
    RetryDelayWords();
    assert url[0] == url[..4][0] == 'h';
    FormatTwo(DelayAndUrl(url));
  }

  lemma FormatTwo(args: seq<Argument>)
    requires |args| == 2
    ensures Format(args) == FormatArgument(args[0]) + (" " + FormatArgument(args[1]))
  {
    assert args[1..] == [args[1]];
    Regroup(FormatArgument(args[0]), " ", FormatArgument(args[1]), "");
  }

  lemma DelayAndUrlRewritten(url: string)
    requires IsSimpleUrl(url)
    ensures HasUrl(DelayAndUrl(url)) && NewArgs(DelayAndUrl(url)) == DelayAndUrl(url + ("?" + "bg=true"))
    ensures NeedsQuotes(url + ("?" + "bg=true"))
    ensures FormatArgument(Arg("", url + ("?" + "bg=true"))) == "\"" + (url + ("?" + "bg=true")) + "\""
    ensures Format(DelayAndUrl(url + ("?" + "bg=true")))
         == "-delay=5" + (" " + ("\"" + (url + ("?" + "bg=true")) + "\""))
  {
    PlainUrl(url);
    FirstUrl(DelayAndUrl(url), 1);
    RetryDelayWords();
    WithQueryNeedsQuotes(url);
    FormatTwo(DelayAndUrl(url + ("?" + "bg=true")));
    WithNewUrl(url, url + ("?" + "bg=true"));
  }

  lemma WithNewUrl(url: string, other: string)
    ensures DelayAndUrl(url)[1 := Arg("", other)] == DelayAndUrl(other)
  {
  }

  lemma WithQueryNeedsQuotes(url: string)
    ensures NeedsQuotes(url + ("?" + "bg=true"))
  {
    assert (url + ("?" + "bg=true"))[|url|] == '?';
  }

  /** A URL without query and fragment gets the query bg=true. */
  lemma PlainUrl(url: string)
    requires Free(url, {'#', '?'}) && IsPlain(url) && EscapesValid(url)
    ensures ParseUrl(url).Some? && RunInBackground(url) == Some(url + ("?" + "bg=true"))
  {
    PlainUrlParses(url);
    EmptyQueryInBackground();
    PrintedWithQuery(url, "bg=true");
  }

  lemma PlainUrlParses(url: string)
    requires Free(url, {'#', '?'}) && IsPlain(url) && EscapesValid(url)
    ensures ParseUrl(url) == Some(Url(url, "", ""))
  {
    assert WithTail(url, '#', "") == url && WithTail(url, '?', "") == url;
    CutWithTail(url, '#', "");
    CutWithTail(url, '?', "");
  }

  lemma PrintedWithQuery(url: string, query: string)
    requires query != ""
    ensures PrintUrl(Url(url, query, "")) == url + ("?" + query)
  {
    assert WithTail(url, '?', query) + "" == WithTail(url, '?', query);
  }

  lemma EmptyQueryInBackground()
    ensures Encode(BackgroundQuery("")) == "bg=true"
  {
    assert Split("", {'&', ';'}) == [""];
    assert [""][..0] == [];
    assert AddSegments([""]) == [];
    var q := [Entry(BG, [TRUE])];
    assert BackgroundQuery("") == q;
    assert q[..0] == [] && Pairs(q) == [(BG, TRUE)];
    assert EncodePairs([(BG, TRUE)]) == [EncodePair((BG, TRUE))];
    EscapedWords();
  }

  lemma EscapedWords()
    ensures Escape(BG) == "bg" && Escape(TRUE) == "true"
  {
    assert BG[1..] == ['g' as int];
    assert Escape(['g' as int]) == "g";
    assert TRUE[1..] == ['r' as int, 'u' as int, 'e' as int];
    assert TRUE[1..][1..] == ['u' as int, 'e' as int];
    assert TRUE[1..][1..][1..] == ['e' as int];
    assert Escape(['e' as int]) == "e";
    assert Escape(['u' as int, 'e' as int]) == "ue";
    assert Escape(['r' as int, 'u' as int, 'e' as int]) == "rue";
  }

  lemma RetryDelayExample()
    ensures Detach(CurlWith("--retry-delay=5", "http://h/a"))
         == Rewritten(CurlWith("--retry -delay=5", "http://h/a?bg=true"))
  {
    ExampleIsSimple("http://h/a");
    RetryDelayCommand("http://h/a");
    ExampleInBackground();
  }

  lemma ExampleInBackground()
    ensures "http://h/a" + ("?" + "bg=true") == "http://h/a?bg=true"
  {
  }

  lemma ExampleIsSimple(url: string)
    requires url == "http://h/a"
    ensures IsSimpleUrl(url)
  {
    assert |url| == 10 && url[..4] == "http" && url[4] == ':';
    forall i | 0 <= i < |url| ensures url[i] in {'h', 't', 'p', ':', '/', 'a'} {
    }
  }
}
