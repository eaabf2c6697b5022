/** The read-eval-print loop of `main`: how one stripped input line is
    classified, how one iteration changes the session (the current model and
    the last reply), and the whole loop over a scripted sequence of turns. */
module Repl {
  import opened Wrappers
  import opened PyStr
  import opened Json
  import opened Gemini

  /** The words that end the session, compared after `lower()`. */
  const QuitWords: seq<string> := ["exit", "quit"]

  predicate IsQuitWord(line: string) {
    var word := Lower(line);
    word == QuitWords[0] || word == QuitWords[1]
  }

  /** What one input line asks for. */
  datatype Command =
    | Quit
    | ModelCommand(name: Option<string>)
    | SaveCommand(path: Option<string>)
    | Ask(prompt: string)

  /** `parts = line.split(maxsplit=1)` followed by `parts[1].strip()` when
      there are two parts, and None when there are fewer. */
  function Argument(line: string): Option<string> {
    var parts := SplitOnce(line);
    if |parts| == 2 then Some(Strip(parts[1])) else None
  }

  /** The `if`/`elif` chain of the loop body, in its order: the quit words
      first, then the `/model` and `/save` prefixes, and anything else is a
      prompt. */
  function Classify(line: string): Command {
    if IsQuitWord(line) then Quit
    else if StartsWith(line, "/model") then ModelCommand(Argument(line))
    else if StartsWith(line, "/save") then SaveCommand(Argument(line))
    else Ask(line)
  }

  /** What the user sees, or the world receives, during one iteration. */
  datatype Effect =
    | Goodbye
    | ModelUsage
    | Switched(model: string)
    | Unsupported
    | SaveUsage
    | NothingToSave
    | SaveWrite(path: string, contents: string, written: bool)
    | Post(request: Request)
    | ApiError(status: int)
    | Show(reply: string)
    | Crash(error: PyError)

  /** The session: the client's key and model, and `last_reply` of `main`. */
  datatype State = State(apiKey: string, model: string, lastReply: Option<string>)

  /** What the outside world supplies to one iteration: the raw input line,
      the server's answer if a prompt is sent, and whether writing the file
      succeeds if a save is attempted. */
  datatype Turn = Turn(input: string, response: HttpResponse, written: bool)

  /** The state after one iteration, what it showed or sent, and whether the
      loop ends there (a quit word, or an exception escaping `main`). */
  datatype Transition = Transition(next: State, effects: seq<Effect>, halted: bool)

  /** Python truthiness of `Optional[str]`: neither None nor empty. */
  predicate Truthy(s: Option<string>) {
    s.Some? && s.value != ""
  }

  function Initial(apiKey: string): State {
    State(apiKey, Flash, None)
  }

  /** The model is allow-listed and an empty reply is never kept. */
  predicate Invariant(st: State) {
    st.model in SupportedModels && st.lastReply != Some("")
  }

  /** One iteration of the `while True` loop on the raw input of `turn`. */
  function Next(st: State, turn: Turn): Transition {
    Dispatch(st, Classify(Strip(turn.input)), turn)
  }

  /** The branch of the loop body that `cmd` selects. */
  function Dispatch(st: State, cmd: Command, turn: Turn): Transition {
    match cmd
    case Quit => Transition(st, [Goodbye], true)
    case ModelCommand(None) => Transition(st, [ModelUsage], false)
    case ModelCommand(Some(name)) =>
      if name in SupportedModels then Transition(st.(model := name), [Switched(name)], false)
      else Transition(st, [Unsupported], false)
    case SaveCommand(None) => Transition(st, [SaveUsage], false)
    case SaveCommand(Some(path)) =>
      if Truthy(st.lastReply) then Transition(st, [SaveWrite(path, st.lastReply.value, turn.written)], false)
      else Transition(st, [NothingToSave], false)
    case Ask(prompt) => AskStep(st, prompt, turn.response)
  }

  /** The prompt branch: post the request, then show and keep a truthy reply. */
  function AskStep(st: State, prompt: string, response: HttpResponse): Transition {
    var post := Post(Request(RequestUrl(st.model, st.apiKey), RequestBody(prompt)));
    match DecodeResponse(response.status, response.body)
    case Raised(e) => Transition(st, [post, Crash(e)], true)
    case Returned(None) => Transition(st, [post, ApiError(response.status)], false)
    case Returned(Some(reply)) =>
      if reply != "" then Transition(st.(lastReply := Some(reply)), [post, Show(reply)], false)
      else Transition(st, [post], false)
  }

  /** The final state of a session and everything it showed or sent. */
  datatype Log = Log(final: State, effects: seq<Effect>)

  /** The loop run over `turns` until it halts or the turns run out. */
  function Run(st: State, turns: seq<Turn>): Log
    decreases |turns|
  {
    if turns == [] then Log(st, [])
    else
      var t := Next(st, turns[0]);
      if t.halted then Log(t.next, t.effects)
      else
        var rest := Run(t.next, turns[1..]);
        Log(rest.final, t.effects + rest.effects)
  }

  // ---------------------------------------------------------------------
  // Classification

  /** The quit test is case-insensitive and admits nothing but the two words. */
  lemma QuitCaseInsensitive(line: string)
    ensures IsQuitWord(line) <==>
      MatchesIgnoringCase(line, "exit") || MatchesIgnoringCase(line, "quit")
  {
    LowerMatchesWord(line, "exit");
    LowerMatchesWord(line, "quit");
  }

  /** A line starting with a slash is never a quit word, so the order of the
      quit test and the prefix tests does not matter to commands. */
  lemma SlashIsNotQuit(line: string)
    requires line != [] && line[0] == '/'
    ensures !IsQuitWord(line)
  {
    assert Lower(line)[0] == '/';
  }

  /** Every line starting with `/model`, `/models` and `/modelx y` included,
      is a model command. */
  lemma ClassifyModel(line: string)
    requires StartsWith(line, "/model")
    ensures Classify(line) == ModelCommand(Argument(line))
  {
    assert line[0] == line[..6][0] == '/';
    SlashIsNotQuit(line);
  }

  /** Every line starting with `/save` is a save command. */
  lemma ClassifySave(line: string)
    requires StartsWith(line, "/save")
    ensures Classify(line) == SaveCommand(Argument(line))
  {
    assert line[0] == line[..5][0] == '/';
    assert line[1] == line[..5][1] == 's';
    assert !StartsWith(line, "/model") by {
      if |line| >= 6 {
        assert line[..6][1] == 's';
      }
    }
    SlashIsNotQuit(line);
  }

  /** The argument of a command word is what follows the first run of
      whitespace, inner whitespace included. */
  lemma ArgumentAfterWord(w: string, g: string, a: string)
    requires w != [] && NoSpace(w)
    requires g != [] && AllSpace(g)
    requires a != [] && IsStripped(a)
    ensures Argument(w + g + a) == Some(a)
  {
    SplitOnceWordArgument(w, g, a);
    assert [] + a + [] == a;
    StripSurrounded([], a, []);
  }

  /** A command word with nothing after it has no argument. */
  lemma ArgumentOfBareWord(w: string)
    requires w != [] && NoSpace(w)
    ensures Argument(w) == None
  {
    assert [] + w + [] == w;
    SplitOnceWordOnly([], w, []);
  }

  /** On a stripped line, there is an argument exactly when the line holds
      whitespace, and it is the part after the first whitespace run, ending
      where the line ends. */
  lemma ArgumentOfStripped(line: string)
    requires IsStripped(line)
    ensures Argument(line).None? <==> NoSpace(line)
    ensures Argument(line).Some? ==>
      var a := Argument(line).value;
      a != [] && IsStripped(a) && |a| < |line| && a == line[|line| - |a|..]
  {
    SplitOnceStripped(line);
    if |SplitOnce(line)| == 2 {
      SecondPartIsArgument(line);
      SplitOnceSpec(line);
    }
  }

  /** On a stripped line, the second part of the split needs no further
      stripping. */
  lemma SecondPartIsArgument(line: string)
    requires IsStripped(line) && |SplitOnce(line)| == 2
    ensures Argument(line) == Some(SplitOnce(line)[1])
  {
    SplitOnceStripped(line);
    var a := SplitOnce(line)[1];
    assert [] + a + [] == a;
    StripSurrounded([], a, []);
  }

  /** A `/model`-prefixed word, whitespace and a stripped text ask for
      exactly that text as the model name. */
  lemma ClassifyModelArgument(w: string, g: string, a: string)
    requires StartsWith(w, "/model") && NoSpace(w)
    requires g != [] && AllSpace(g)
    requires a != [] && IsStripped(a)
    ensures Classify(w + g + a) == ModelCommand(Some(a))
  {
    ArgumentAfterWord(w, g, a);
    assert (w + g + a)[..|"/model"|] == w[..|"/model"|];
    ClassifyModel(w + g + a);
  }

  /** `/model foo bar` tries the name `foo bar`, spaces included. */
  lemma ModelArgumentKeepsSpaces()
    ensures Classify("/model" + " " + "foo bar") == ModelCommand(Some("foo bar"))
  {
    var w, g, a := "/model", " ", "foo bar";
    assert StartsWith(w, "/model") && NoSpace(w);
    assert AllSpace(g) && IsStripped(a);
    ClassifyModelArgument(w, g, a);
  }

  /** `/modelx y` is still a model command, and it tries the name `y`. */
  lemma ModelPrefixOnly()
    ensures Classify("/modelx y") == ModelCommand(Some("y"))
  {
    var w, g, a := "/modelx", " ", "y";
    assert StartsWith(w, "/model") && NoSpace(w);
    assert AllSpace(g) && IsStripped(a);
    ClassifyModelArgument(w, g, a);
    assert w + g + a == "/modelx y";
  }

  /** A bare `/model` asks for the usage message, and the turn prints it,
      changes nothing and does not end the loop. */
  lemma ModelWithoutName(st: State, response: HttpResponse, written: bool)
    ensures Classify("/model") == ModelCommand(None)
    ensures Next(st, Turn("/model", response, written)) == Transition(st, [ModelUsage], false)
  {
    var w := "/model";
    assert NoSpace(w);
    assert IsStripped(w);
    StripSurrounded([], w, []);
    assert [] + w + [] == w;
    ArgumentOfBareWord(w);
    ClassifyModel(w);
  }

  // ---------------------------------------------------------------------
  // One iteration

  /** A quit word ends the loop at once and changes nothing, whatever else
      the turn holds. */
  lemma NextQuit(st: State, turn: Turn)
    ensures IsQuitWord(Strip(turn.input)) <==> Next(st, turn) == Transition(st, [Goodbye], true)
  {
    DispatchQuit(st, Classify(Strip(turn.input)), turn);
  }

  /** Only the quit branch ends the loop with Goodbye alone. */
  lemma DispatchQuit(st: State, cmd: Command, turn: Turn)
    ensures cmd.Quit? <==> Dispatch(st, cmd, turn) == Transition(st, [Goodbye], true)
  {
  }

  /** Only a `/model` line with a supported name changes the model, and it
      changes it to exactly that name. */
  lemma NextModel(st: State, turn: Turn)
    ensures Next(st, turn).next.model ==
      match Classify(Strip(turn.input))
      case ModelCommand(Some(name)) => SelectModel(st.model, name)
      case _ => st.model
  {
  }

  /** A `/model` turn never ends the loop and keeps the key and the last
      reply; without a name it prints the usage, with a supported name it
      switches to it, and with any other name it reports it unsupported. */
  lemma NextModelCommand(st: State, turn: Turn)
    requires Classify(Strip(turn.input)).ModelCommand?
    ensures var name := Classify(Strip(turn.input)).name;
      Next(st, turn) ==
        if name.None? then Transition(st, [ModelUsage], false)
        else Transition(st.(model := SelectModel(st.model, name.value)),
          if name.value in SupportedModels then [Switched(name.value)] else [Unsupported],
          false)
  {
    var name := Classify(Strip(turn.input)).name;
    if name.Some? && name.value !in SupportedModels {
      assert st.(model := SelectModel(st.model, name.value)) == st;
    }
  }

  /** Every `/save` path leaves the session as it was; it writes exactly the
      last reply, and only when that reply is truthy. */
  lemma NextSave(st: State, turn: Turn)
    requires Classify(Strip(turn.input)).SaveCommand?
    ensures Next(st, turn).next == st && !Next(st, turn).halted
    ensures var path := Classify(Strip(turn.input)).path;
      Next(st, turn).effects ==
        if path.None? then [SaveUsage]
        else if !Truthy(st.lastReply) then [NothingToSave]
        else [SaveWrite(path.value, st.lastReply.value, turn.written)]
  {
  }

  /** A prompt sends one request, for the current model and key, with the
      stripped line as its text, then shows a truthy answer, reports a
      non-200 status or an escaping exception, and nothing else; the last
      reply becomes the answer only when the answer is truthy; the model
      never changes. */
  lemma NextAsk(st: State, turn: Turn)
    requires Classify(Strip(turn.input)).Ask?
    ensures var t := Next(st, turn);
      && |t.effects| >= 1
      && t.effects[0].Post?
      && t.effects[0].request.url == RequestUrl(st.model, st.apiKey)
      && Navigate(t.effects[0].request.body, PromptPath()) == Ok(JStr(Strip(turn.input)))
      && t.next.model == st.model
    ensures var outcome := DecodeResponse(turn.response.status, turn.response.body);
      var t := Next(st, turn);
      && t.halted == outcome.Raised?
      && t.next.lastReply ==
        if outcome.Returned? && Truthy(outcome.reply) then outcome.reply else st.lastReply
    ensures var outcome := DecodeResponse(turn.response.status, turn.response.body);
      var post := Post(Request(RequestUrl(st.model, st.apiKey), RequestBody(Strip(turn.input))));
      Next(st, turn).effects ==
        match outcome
        case Raised(e) => [post, Crash(e)]
        case Returned(None) => [post, ApiError(turn.response.status)]
        case Returned(Some(r)) => if r != "" then [post, Show(r)] else [post]
  {
    RequestCarriesPrompt(Strip(turn.input));
  }

  /** Goodbye is the last effect of a sequence whenever it occurs in it. */
  predicate GoodbyeLast(effects: seq<Effect>) {
    forall i :: 0 <= i < |effects| && effects[i] == Goodbye ==> i == |effects| - 1
  }

  /** No write of an empty file is among the effects. */
  predicate SavesNonEmpty(effects: seq<Effect>) {
    forall e :: e in effects && e.SaveWrite? ==> e.contents != ""
  }

  /** Whatever branch runs, it keeps the invariant, never writes an empty
      file, and shows Goodbye only as its last effect and only when the loop
      ends there. */
  lemma DispatchInvariant(st: State, cmd: Command, turn: Turn)
    requires Invariant(st)
    ensures var t := Dispatch(st, cmd, turn);
      && Invariant(t.next)
      && (Truthy(st.lastReply) ==> Truthy(t.next.lastReply))
      && SavesNonEmpty(t.effects)
      && GoodbyeLast(t.effects)
      && (Goodbye in t.effects ==> t.halted)
  {
  }

  /** One iteration keeps the model allow-listed and never stores an empty
      reply; a truthy last reply stays truthy. */
  lemma NextInvariant(st: State, turn: Turn)
    requires Invariant(st)
    ensures Invariant(Next(st, turn).next)
    ensures Truthy(st.lastReply) ==> Truthy(Next(st, turn).next.lastReply)
    ensures SavesNonEmpty(Next(st, turn).effects)
    ensures GoodbyeLast(Next(st, turn).effects)
    ensures Goodbye in Next(st, turn).effects ==> Next(st, turn).halted
  {
    DispatchInvariant(st, Classify(Strip(turn.input)), turn);
  }

  // ---------------------------------------------------------------------
  // The whole loop

  /** The session starts in the invariant. */
  lemma InitialInvariant(apiKey: string)
    ensures Invariant(Initial(apiKey))
  {
  }

  /** The model stays allow-listed and no empty reply is kept, however many
      turns the loop runs; and no empty file is ever written. */
  lemma {:induction false} RunInvariant(st: State, turns: seq<Turn>)
    requires Invariant(st)
    ensures Invariant(Run(st, turns).final)
    ensures SavesNonEmpty(Run(st, turns).effects)
    decreases |turns|
  {
    if turns != [] {
      NextInvariant(st, turns[0]);
      var t := Next(st, turns[0]);
      if !t.halted {
        RunInvariant(t.next, turns[1..]);
        var rest := Run(t.next, turns[1..]).effects;
        assert Run(st, turns).effects == t.effects + rest;
      }
    }
  }

  /** A model other than the starting one is current at the end only if the
      session showed the switch to it. */
  lemma {:induction false} RunModelSwitched(st: State, turns: seq<Turn>)
    ensures var log := Run(st, turns);
      log.final.model == st.model || Switched(log.final.model) in log.effects
    decreases |turns|
  {
    if turns != [] {
      var t := Next(st, turns[0]);
      NextModel(st, turns[0]);
      if !t.halted {
        RunModelSwitched(t.next, turns[1..]);
        var rest := Run(t.next, turns[1..]);
        if rest.final.model != t.next.model {
          assert Switched(rest.final.model) in t.effects + rest.effects;
        } else if t.next.model != st.model {
          assert t.effects == [Switched(t.next.model)];
        }
      }
    }
  }

  /** One of `turns` is a prompt whose answer decoded to `reply`; by
      `DecodeResponse`, that answer came with status 200. */
  predicate SomePromptAnswered(turns: seq<Turn>, reply: Option<string>) {
    exists i :: 0 <= i < |turns| && Classify(Strip(turns[i].input)).Ask?
      && DecodeResponse(turns[i].response.status, turns[i].response.body) == Returned(reply)
  }

  /** A last reply other than the starting one is kept at the end only if
      the session showed that reply and it is the decoded answer to one of
      the session's prompts. */
  lemma {:induction false} RunReplyShown(st: State, turns: seq<Turn>)
    ensures var log := Run(st, turns);
      log.final.lastReply == st.lastReply
      || (&& log.final.lastReply.Some?
          && Show(log.final.lastReply.value) in log.effects
          && SomePromptAnswered(turns, log.final.lastReply))
    decreases |turns|
  {
    if turns != [] {
      var t := Next(st, turns[0]);
      NextReplyShown(st, turns[0]);
      NextReplyDecoded(st, turns[0]);
      if !t.halted {
        RunReplyShown(t.next, turns[1..]);
        var rest := Run(t.next, turns[1..]);
        if rest.final.lastReply != t.next.lastReply {
          assert Show(rest.final.lastReply.value) in t.effects + rest.effects;
          var i :| 0 <= i < |turns[1..]| && Classify(Strip(turns[1..][i].input)).Ask?
            && DecodeResponse(turns[1..][i].response.status, turns[1..][i].response.body) == Returned(rest.final.lastReply);
          assert turns[i + 1] == turns[1..][i];
        } else if t.next.lastReply != st.lastReply {
          assert Show(t.next.lastReply.value) in t.effects + rest.effects;
          assert Classify(Strip(turns[0].input)).Ask?;
        }
      }
    }
  }

  /** An iteration that changes the last reply is a prompt whose decoded
      answer is the new reply. */
  lemma NextReplyDecoded(st: State, turn: Turn)
    ensures var t := Next(st, turn);
      t.next.lastReply != st.lastReply ==>
        && Classify(Strip(turn.input)).Ask?
        && t.next.lastReply.Some?
        && DecodeResponse(turn.response.status, turn.response.body) == Returned(t.next.lastReply)
  {
  }

  /** One iteration changes the last reply only to a reply it shows, and
      shows a reply only after the server answered 200. */
  lemma NextReplyShown(st: State, turn: Turn)
    ensures var t := Next(st, turn);
      t.next.lastReply == st.lastReply
      || (t.next.lastReply.Some? && Show(t.next.lastReply.value) in t.effects
          && turn.response.status == 200)
  {
    DispatchReplyShown(st, Classify(Strip(turn.input)), turn);
  }

  lemma DispatchReplyShown(st: State, cmd: Command, turn: Turn)
    ensures var t := Dispatch(st, cmd, turn);
      t.next.lastReply == st.lastReply
      || (t.next.lastReply.Some? && Show(t.next.lastReply.value) in t.effects
          && turn.response.status == 200)
  {
    if cmd.Ask? {
      AskReplyShown(st, cmd.prompt, turn.response);
    }
  }

  lemma AskReplyShown(st: State, prompt: string, response: HttpResponse)
    ensures var t := AskStep(st, prompt, response);
      t.next.lastReply == st.lastReply
      || (t.next.lastReply.Some? && Show(t.next.lastReply.value) in t.effects
          && response.status == 200)
  {
  }

  /** Goodbye, when shown, is the last thing the session does. */
  lemma {:induction false} RunEndsAtGoodbye(st: State, turns: seq<Turn>)
    requires Invariant(st)
    ensures GoodbyeLast(Run(st, turns).effects)
    decreases |turns|
  {
    if turns != [] {
      NextInvariant(st, turns[0]);
      var t := Next(st, turns[0]);
      if !t.halted {
        RunEndsAtGoodbye(t.next, turns[1..]);
        var rest := Run(t.next, turns[1..]).effects;
        GoodbyeLastAppend(t.effects, rest);
      }
    }
  }

  lemma GoodbyeLastAppend(head: seq<Effect>, rest: seq<Effect>)
    requires Goodbye !in head && GoodbyeLast(rest)
    ensures GoodbyeLast(head + rest)
  {
    forall i | 0 <= i < |head + rest| && (head + rest)[i] == Goodbye
      ensures i == |head + rest| - 1
    {
      assert i >= |head|;
      assert rest[i - |head|] == (head + rest)[i];
    }
  }

  // ---------------------------------------------------------------------
  // The loop as the program runs it

  /** One pass through the loop body, on the client object and `last_reply`. */
  method Step(bot: GeminiBrowser, lastReply: Option<string>, turn: Turn)
    returns (newReply: Option<string>, effects: seq<Effect>, halted: bool)
    requires bot.Valid()
    modifies bot`model
    ensures bot.Valid()
    ensures Next(State(bot.apiKey, old(bot.model), lastReply), turn)
         == Transition(State(bot.apiKey, bot.model, newReply), effects, halted)
  {
    var userInput := Strip(turn.input);
    ghost var st := State(bot.apiKey, bot.model, lastReply);
    assert Next(st, turn) == Dispatch(st, Classify(userInput), turn);
    newReply, halted := lastReply, false;
    if IsQuitWord(userInput) {
      assert Classify(userInput) == Quit;
      effects, halted := [Goodbye], true;
    } else if StartsWith(userInput, "/model") {
      ClassifyModel(userInput);
      var name := Argument(userInput);
      if name.Some? {
        var switched := bot.SetModel(name.value);
        effects := if switched then [Switched(name.value)] else [Unsupported];
      } else {
        effects := [ModelUsage];
      }
    } else if StartsWith(userInput, "/save") {
      ClassifySave(userInput);
      var path := Argument(userInput);
      if path.Some? {
        if Truthy(lastReply) {
          effects := [SaveWrite(path.value, lastReply.value, turn.written)];
        } else {
          effects := [NothingToSave];
        }
      } else {
        effects := [SaveUsage];
      }
    } else {
      assert Classify(userInput) == Ask(userInput);
      newReply, effects, halted := AskPrompt(bot, lastReply, userInput, turn.response);
    }
  }

  /** The prompt branch of the loop body: query the client, then show and
      keep a truthy reply. */
  method AskPrompt(bot: GeminiBrowser, lastReply: Option<string>, prompt: string, response: HttpResponse)
    returns (newReply: Option<string>, effects: seq<Effect>, halted: bool)
    ensures AskStep(State(bot.apiKey, bot.model, lastReply), prompt, response)
         == Transition(State(bot.apiKey, bot.model, newReply), effects, halted)
  {
    newReply, halted := lastReply, false;
    var request, outcome := bot.Query(prompt, response);
    effects := [Post(request)];
    match outcome
    case Raised(e) =>
      effects, halted := effects + [Crash(e)], true;
    case Returned(None) =>
      effects := effects + [ApiError(response.status)];
    case Returned(Some(reply)) =>
      if reply != "" {
        effects := effects + [Show(reply)];
        newReply := Some(reply);
      }
  }

  /** `main` after startup: the client is created with `apiKey`, then the loop
      runs over `turns` until a quit word, an escaping exception, or the end
      of the input. Returns what was shown or sent, and the final model and
      last reply. */
  method RunSession(apiKey: string, turns: seq<Turn>)
    returns (effects: seq<Effect>, model: string, lastReply: Option<string>)
    requires apiKey != ""
    ensures Run(Initial(apiKey), turns) == Log(State(apiKey, model, lastReply), effects)
    ensures model in SupportedModels && lastReply != Some("")
  {
    var bot := new GeminiBrowser(apiKey);
    lastReply := None;
    effects := [];
    var i := 0;
    var halted := false;
    while !halted && i < |turns|
      invariant 0 <= i <= |turns|
      invariant bot.apiKey == apiKey && bot.Valid()
      invariant Invariant(State(apiKey, bot.model, lastReply))
      invariant !halted ==>
        var rest := Run(State(apiKey, bot.model, lastReply), turns[i..]);
        Run(Initial(apiKey), turns) == Log(rest.final, effects + rest.effects)
      invariant halted ==> Run(Initial(apiKey), turns) == Log(State(apiKey, bot.model, lastReply), effects)
      decreases |turns| - i
    {
      ghost var before := State(apiKey, bot.model, lastReply);
      ghost var done := effects;
      NextInvariant(before, turns[i]);
      var stepEffects;
      lastReply, stepEffects, halted := Step(bot, lastReply, turns[i]);
      effects := effects + stepEffects;
      assert turns[i..][0] == turns[i] && turns[i..][1..] == turns[i + 1..];
      if !halted {
        var rest := Run(State(apiKey, bot.model, lastReply), turns[i + 1..]);
        assert done + (stepEffects + rest.effects) == effects + rest.effects;
      }
      i := i + 1;
    }
    if !halted {
      assert effects + [] == effects;
    }
    model := bot.model;
  }
}
