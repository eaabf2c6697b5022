# Gemini CLI browser — a Dafny model

`CliApiBrowser.py` is a small terminal chat client for Google's Gemini
`generateContent` REST API. A `GeminiBrowser` object holds an API key and the
current model name. `set_model` switches between the two allow-listed models,
`gemini-1.5-flash` and `gemini-1.5-pro`. `gemini_query` posts a prompt and
pulls the reply text out of the JSON answer. `main` runs a read–eval loop:
`exit`/`quit` (in any letter case) ends it, `/model NAME` switches models,
`/save FILE` writes the last reply to a file, and any other line is sent as a
prompt. The last truthy reply is kept so that `/save` can write it, once it
has been displayed (see the printing line under "## Left out").

The model is in five modules:

- `Wrappers`: `Option` and `Result`.
- `PyStr`: the parts of Python's `str` that the loop uses, defined the way
  CPython computes them. These are `strip()` (CPython's whitespace set),
  `split(maxsplit=1)`, `startswith` and `lower()` (ASCII letters only; see
  the `PyStr.Lower` line under "## Left out").
- `Json`: decoded JSON values and Python's `obj[key]` / `obj[i]` subscripts,
  with the exception each wrong subscript raises (`KeyError`, `IndexError`,
  `TypeError`).
- `Gemini`: the allow-list, the request URL and body, and the decoding of a
  response. It also has the `GeminiBrowser` class, whose `SetModel` and
  `Query` methods update and read its `model` field.
- `Repl`: how the stripped input line is classified, and the pure state
  machine `Next`/`Run` over a session state (key, model, last reply) and a
  list of turns. `Step` and `RunSession` are imperative methods written the
  way `main` is: a `while` loop over the turns that mutates a `GeminiBrowser`
  and a `lastReply` variable. Each method is proved equal to `Next`/`Run`.

Each turn is a value holding three things:
- the line the user typed;
- the HTTP response the server would give, if the line becomes a prompt;
- whether a `/save` file write would succeed.

Everything the loop prints becomes an `Effect` value, on the assumption that
printing never raises (see "## Left out"). Examples are
`Goodbye`, `Switched(model)`, `SaveWrite(path, contents, ok)` and `Show(reply)`.

Three places where the code does something other than what a reader of its
help text would expect. The model follows the code:

- `startswith('/model')` also matches `/modelx y`. That line is treated as a
  `/model` command with the argument `y` (`Repl.ModelPrefixOnly`).
- Only `KeyError` and `IndexError` are caught while decoding. A reply whose
  nodes are of the wrong kind raises `TypeError` when it is subscripted, and
  a non-string leaf raises `AttributeError` on `.strip()`. Either exception
  escapes and ends the program (`Raised` / `Crash`); it is not treated as "no
  response".
- `dict[0]` on a JSON object raises `KeyError` (the key `0` is missing), so
  an object where a list was expected gives `No response from Gemini.`
  rather than a crash (`Gemini.DecodeCandidatesDict`).

## Model

| member | source | states |
|---|---|---|
| PyStr.StripSpec | CliApiBrowser.py:56 | `strip()` removes a prefix and a suffix that are all whitespace, and what remains neither starts nor ends with whitespace |
| PyStr.StripSurrounded | CliApiBrowser.py:65 | stripping whitespace wrapped around a text with no whitespace at either end gives back exactly that text |
| PyStr.StripIdempotent | CliApiBrowser.py:65 | stripping twice is the same as stripping once, so `parts[1].strip()` changes nothing on an already stripped line |
| PyStr.SplitOnceSpec | CliApiBrowser.py:63 | `split(maxsplit=1)` gives at most two parts; none exactly when the line is all whitespace; the first part is a non-empty run of non-space characters; the second is a non-empty suffix of the line that starts with a non-space |
| PyStr.SplitOnceWordArgument | CliApiBrowser.py:63 | a word, then whitespace, then a text starting with a non-space splits into exactly that word and that text |
| PyStr.SplitOnceWordOnly | CliApiBrowser.py:63 | a word with only whitespace around it splits into that word alone |
| PyStr.SplitOnceStripped | CliApiBrowser.py:56-63 | on a stripped line there are two parts exactly when the line contains whitespace, and the second part is itself stripped |
| PyStr.LowerMatchesWord | CliApiBrowser.py:58 | the line lower-cases to a lower-case word exactly when it has the same length and each character is that letter or its capital |
| Json.Subscript | CliApiBrowser.py:38-39 | a subscript raises only KeyError, IndexError or TypeError; KeyError only on a dict, IndexError only on a list or string |
| Json.NavigateAppend | CliApiBrowser.py:38 | following a chain of subscripts `p + q` is following `p`, then `q` from where `p` ended, with the first error passed on |
| Json.ShapedNavigation | CliApiBrowser.py:38-40 | when every node on the path is of the kind its subscript expects, the chain ends in a string, a KeyError or an IndexError — never a TypeError |
| Gemini.SelectModelSpec | CliApiBrowser.py:20-27 | a supported name becomes current; any other name leaves the model as it was; a supported model stays supported |
| Gemini.GeminiBrowser.constructor | CliApiBrowser.py:13-18 | a client built from a non-empty key starts on `gemini-1.5-flash` with that key |
| Gemini.GeminiBrowser.SetModel | CliApiBrowser.py:20-27 | reports a switch exactly when the name is supported, sets `model` to the name only then, and keeps the model allow-listed |
| Gemini.RequestCarriesPrompt | CliApiBrowser.py:32 | the request body holds the prompt, unchanged, at `contents[0].parts[0].text` |
| Gemini.RequestUrlInjective | CliApiBrowser.py:30 | for model names without a colon, equal request URLs mean the same model and the same key |
| Gemini.RequestUrlSlices | CliApiBrowser.py:30 | the model name and the key sit at fixed places in the URL, right after the endpoint and after `:generateContent?key=` |
| Gemini.DecodeResponse | CliApiBrowser.py:35-43 | a status other than 200 gives None; only TypeError or AttributeError escape; a returned text is always stripped |
| Gemini.DecodeReplyText | CliApiBrowser.py:35-38 | any 200 reply whose `candidates[0].content.parts[0].text` is a string, whatever other fields it carries, yields that string, stripped |
| Gemini.DecodeReplyDocument | CliApiBrowser.py:38 | the smallest reply document carrying a text at `candidates[0].content.parts[0].text` yields that text, stripped |
| Gemini.ReplyDocumentCarriesText | CliApiBrowser.py:38 | a reply document built around a text holds that text at `candidates[0].content.parts[0].text` |
| Gemini.DecodeShaped | CliApiBrowser.py:36-40 | a 200 reply built only of dicts and lists along the path always yields a text: the stripped string at the end of the path when it is reached, and `No response from Gemini.` when a key or index is missing |
| Gemini.DecodePaddedReply | CliApiBrowser.py:38 | the reply text `" hello "` comes back as `"hello"` |
| Gemini.DecodeMissingReply | CliApiBrowser.py:35-43 | a reply with no candidates, or an empty candidate list, yields `No response from Gemini.`; a 404 yields None |
| Gemini.DecodeCandidatesDict | CliApiBrowser.py:38-40 | `candidates` holding an object instead of a list yields `No response from Gemini.`, because `dict[0]` raises a caught KeyError |
| Gemini.GeminiBrowser.Query | CliApiBrowser.py:29-43 | posts to the URL for the current model and key, with the prompt at `contents[0].parts[0].text`, and returns the decoded outcome of the response |
| Repl.QuitCaseInsensitive | CliApiBrowser.py:58 | a line is a quit word exactly when it spells `exit` or `quit` in any mix of letter case |
| Repl.SlashIsNotQuit | CliApiBrowser.py:58-62 | a line starting with `/` is never a quit word, so the `/model` and `/save` branches can be reached |
| Repl.ClassifyModel | CliApiBrowser.py:62-68 | a line starting with `/model` is a model command whose name is the stripped second part of the split, or none |
| Repl.ClassifySave | CliApiBrowser.py:70-73 | a line starting with `/save` is a save command whose path is the stripped second part of the split, or none |
| Repl.ArgumentAfterWord | CliApiBrowser.py:63-65 | the argument of `word<whitespace>text`, where the text is already stripped, is that text |
| Repl.ArgumentOfBareWord | CliApiBrowser.py:63-68 | a word with no whitespace has no argument |
| Repl.SecondPartIsArgument | CliApiBrowser.py:63-65 | on a stripped line with two split parts, the argument is the second part unchanged |
| Repl.ArgumentOfStripped | CliApiBrowser.py:56-65 | the argument of a stripped line is present exactly when the line contains whitespace, and is then a non-empty, stripped, proper suffix of the line |
| Repl.ClassifyModelArgument | CliApiBrowser.py:62-65 | a word starting with `/model`, then whitespace, then a stripped text is a model command for exactly that text |
| Repl.ModelArgumentKeepsSpaces | CliApiBrowser.py:62-66 | `/model foo bar` asks for the model `foo bar`, inner space kept |
| Repl.ModelPrefixOnly | CliApiBrowser.py:62-66 | `/modelx y` is a model command for `y` |
| Repl.ModelWithoutName | CliApiBrowser.py:62-68 | a bare `/model` is a model command without a name; that turn prints only the usage, changes no state and does not end the loop |
| Repl.NextQuit | CliApiBrowser.py:58-60 | a turn ends the loop with Goodbye alone and changes nothing exactly when its stripped line is a quit word |
| Repl.DispatchQuit | CliApiBrowser.py:58-60 | only the quit command ends the loop with Goodbye alone and an unchanged state |
| Repl.NextModel | CliApiBrowser.py:62-68 | only a `/model` turn with a name can change the model, and then to `SelectModel(model, name)` |
| Repl.NextModelCommand | CliApiBrowser.py:62-68 | a `/model` turn keeps the key and the last reply and never ends the loop; without a name it prints only the usage; with a supported name it switches to it and shows the switch; with any other name it reports it unsupported and keeps the model |
| Repl.NextSave | CliApiBrowser.py:70-84 | a `/save` turn changes no state; without a path it prints the usage; with a path and no truthy reply it reports nothing to save; otherwise it writes exactly the last reply to that path |
| Repl.NextAsk | CliApiBrowser.py:86-92 | a prompt turn posts the stripped line for the current model and key; it ends the loop only when decoding raised; the effects are exactly that request followed by `Show(reply)` for a truthy reply, nothing for an empty one, `ApiError(status)` for a non-200 status, or `Crash(error)` for an escaping exception; the last reply becomes the answer only when the answer is truthy; the model never changes |
| Repl.DispatchInvariant | CliApiBrowser.py:55-92 | every branch keeps the model allow-listed and the last reply non-empty, never loses a truthy reply, never writes an empty file, and shows Goodbye only as its last effect and only when the loop stops |
| Repl.NextInvariant | CliApiBrowser.py:55-92 | one iteration keeps the invariant, never writes an empty file, and shows Goodbye only last and only when the loop stops |
| Repl.InitialInvariant | CliApiBrowser.py:18 | a session starts on an allow-listed model with no last reply |
| Repl.RunInvariant | CliApiBrowser.py:53-92 | across any number of turns the model stays allow-listed, the last reply is never empty, and no empty file is ever written |
| Repl.RunModelSwitched | CliApiBrowser.py:55-92 | the model at the end is the starting one unless a switch to it was shown |
| Repl.AskReplyShown | CliApiBrowser.py:86-92 | the prompt branch changes the last reply only to a reply it shows, and only when the server answered 200 |
| Repl.DispatchReplyShown | CliApiBrowser.py:55-92 | whichever branch runs, the last reply changes only to a reply shown in that branch after a 200 answer |
| Repl.NextReplyShown | CliApiBrowser.py:55-92 | one iteration changes the last reply only to a reply it shows, after a 200 answer |
| Repl.RunReplyShown | CliApiBrowser.py:53-92 | a last reply other than the starting one is, at the end of any session, a reply the session showed, and the decoded answer (so a status-200 answer) to one of the session's prompts |
| Repl.NextReplyDecoded | CliApiBrowser.py:86-92 | an iteration that changes the last reply is a prompt whose decoded answer is the new reply |
| Repl.RunEndsAtGoodbye | CliApiBrowser.py:55-60 | Goodbye, when shown, is the last effect of the session |
| Repl.Step | CliApiBrowser.py:56-92 | one mutating pass of the loop body over the client and `last_reply` does exactly what `Next` says, new model, new reply, effects and stop flag included, and keeps the client's model allow-listed |
| Repl.AskPrompt | CliApiBrowser.py:86-92 | the prompt branch run on the client object: queries it, shows and keeps a truthy reply, and does exactly what the `Ask` case of `Next` says |
| Repl.RunSession | CliApiBrowser.py:46-92 | the imperative loop produces exactly the effects and final state of `Run` from the initial state, and ends on an allow-listed model with no empty last reply |

## Left out

- The HTTP POST itself (`requests.post`, its headers and any network exception it raises): each turn supplies the response as a value.
- `response.json()`: bodies arrive already decoded, so a body that is not JSON is not modelled. JSON numbers are integers only, because no float is read on the reply path.
- Reading `GEMINI_API_KEY` with `os.getenv`/`load_dotenv`, and the `sys.exit(1)` when it is missing: the constructor instead requires a non-empty key.
- The `rich` console, panels and spinner: each message printed inside the loop is an `Effect`; the welcome panel printed once at startup is not modelled. The response text printed with an error status is not kept.
- Printing is assumed never to raise. `console.print` parses `rich` markup in text the program does not control: the reply (CliApiBrowser.py:91), the file name in the save message (CliApiBrowser.py:78), the exception text on a failed save (CliApiBrowser.py:80) and the response body after an error status (CliApiBrowser.py:42). A closing tag that matches no open tag, such as `[/]`, raises `MarkupError`. At lines 91, 80 and 42 nothing catches it, so the program ends there; for a reply, that happens at line 91, before `last_reply = reply` at line 92. At line 78 the file has already been written and the `except Exception` at line 79 catches the error, but its message quotes the unmatched tag, so printing it at line 80 raises again, uncaught, and the program ends there. The model instead shows the text, keeps the reply and goes on (`Repl.NextAsk`, `Repl.NextSave`).
- Opening and writing the file for `/save`: the turn states whether the write succeeds, and the exception's message is not modelled.
- `Prompt.ask` reaching end of input or being interrupted: a session ends when its list of turns runs out.
- PyStr.Lower: folds ASCII letters only. No non-ASCII character lower-cases to a single one of the letters of `exit` or `quit` (U+0130, for one, becomes `i` followed by U+0307), so a line whose `lower()` is `exit` or `quit` is ASCII and the quit test is unaffected. Python's `lower()` does map U+212A KELVIN SIGN to `k`, so for a word containing `k` the ASCII `Lower` would differ; neither `exit` nor `quit` contains one.
- Negative list indices: the reply path never uses them, so `Index` holds a natural number.
