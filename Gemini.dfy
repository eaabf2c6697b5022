/** The Gemini client object: the model allow-list, the request it sends for a
    prompt, and how it turns the HTTP reply into a reply text. */
module Gemini {
  import opened Wrappers
  import opened PyStr
  import opened Json

  const Flash: string := "gemini-1.5-flash"
  const Pro: string := "gemini-1.5-pro"

  /** The only names `/model` accepts; the first is the startup default. */
  const SupportedModels: seq<string> := [Flash, Pro]

  /** What a query returns when a 200 reply lacks the expected content. */
  const NoResponse: string := "No response from Gemini."

  const Endpoint: string := "https://generativelanguage.googleapis.com/v1beta/models/"
  const GenerateContent: string := ":generateContent?key="

  /** An HTTP POST as the client issues it: URL and JSON body. */
  datatype Request = Request(url: string, body: Json)

  /** What the server answers: the status code and, when it is 200, the
      already decoded JSON body. */
  datatype HttpResponse = HttpResponse(status: int, body: Json)

  /** A query either returns (a text, or None for a non-200 status) or raises
      an exception that nothing catches. */
  datatype QueryOutcome = Returned(reply: Option<string>) | Raised(error: PyError)

  /** The model that is current after `set_model(name)`. */
  function SelectModel(current: string, name: string): string {
    if name in SupportedModels then name else current
  }

  lemma SelectModelSpec(current: string, name: string)
    ensures name in SupportedModels ==> SelectModel(current, name) == name
    ensures name !in SupportedModels ==> SelectModel(current, name) == current
    ensures current in SupportedModels ==> SelectModel(current, name) in SupportedModels
  {
  }

  function RequestUrl(model: string, apiKey: string): string {
    Endpoint + model + GenerateContent + apiKey
  }

  /** `{"contents": [{"parts": [{"text": prompt}]}]}` */
  function RequestBody(prompt: string): Json {
    JObj(map["contents" := JArr([JObj(map["parts" := JArr([JObj(map["text" := JStr(prompt)])])])])])
  }

  /** `contents[0].parts[0].text` */
  function PromptPath(): seq<Selector> {
    [Key("contents"), Index(0), Key("parts"), Index(0), Key("text")]
  }

  /** `candidates[0].content.parts[0].text` */
  function ReplyPath(): seq<Selector> {
    [Key("candidates"), Index(0), Key("content"), Key("parts"), Index(0), Key("text")]
  }

  /** The smallest reply document carrying `text` where the client looks. */
  function ReplyDocument(text: string): Json {
    JObj(map["candidates" := JArr([JObj(map["content" := JObj(map["parts" := JArr([JObj(map["text" := JStr(text)])])])])])])
  }

  /** The body of `gemini_query` after the POST: a 200 reply is navigated
      along ReplyPath and the string found there is stripped; a KeyError or
      IndexError on the way gives NoResponse; any other exception (a
      subscript of the wrong kind of node, `strip` on a non-string) escapes;
      any other status gives None. */
  function DecodeResponse(status: int, body: Json): (r: QueryOutcome)
    ensures status != 200 ==> r == Returned(None)
    ensures r.Raised? ==> r.error == TypeError || r.error == AttributeError
    ensures r.Returned? && r.reply.Some? ==> IsStripped(r.reply.value)
  {
    if status != 200 then Returned(None)
    else
      match Navigate(body, ReplyPath())
      case Ok(JStr(text)) => StripSpec(text); Returned(Some(Strip(text)))
      case Ok(_) => Raised(AttributeError)
      case Err(KeyError) => Returned(Some(NoResponse))
      case Err(IndexError) => Returned(Some(NoResponse))
      case Err(e) => Raised(e)
  }

  /** The request body carries the prompt, unchanged, at contents[0].parts[0].text. */
  lemma RequestCarriesPrompt(prompt: string)
    ensures Navigate(RequestBody(prompt), PromptPath()) == Ok(JStr(prompt))
  {
    var text := JObj(map["text" := JStr(prompt)]);
    var part := JObj(map["parts" := JArr([text])]);
    assert Navigate(JStr(prompt), []) == Ok(JStr(prompt));
    assert Navigate(text, [Key("text")]) == Ok(JStr(prompt));
    assert Navigate(JArr([text]), [Index(0), Key("text")]) == Ok(JStr(prompt));
    assert Navigate(part, [Key("parts"), Index(0), Key("text")]) == Ok(JStr(prompt));
    assert Navigate(JArr([part]), PromptPath()[1..]) == Ok(JStr(prompt));
  }

  /** The URL names the model and the key: as long as a model name has no
      colon, two equal URLs were built from the same model and key. */
  lemma RequestUrlInjective(m1: string, k1: string, m2: string, k2: string)
    requires ':' !in m1 && ':' !in m2
    requires RequestUrl(m1, k1) == RequestUrl(m2, k2)
    ensures m1 == m2 && k1 == k2
  {
    ColonAfterModel(m1, k1, m2, k2);
    ColonAfterModel(m2, k2, m1, k1);
    RequestUrlSlices(m1, k1);
    RequestUrlSlices(m2, k2);
  }

  /** Where the model and the key sit in the URL. */
  lemma RequestUrlSlices(m: string, k: string)
    ensures var u, e := RequestUrl(m, k), |Endpoint|;
      && |u| == e + |m| + |GenerateContent| + |k|
      && u[e..e + |m|] == m
      && u[e + |m| + |GenerateContent|..] == k
  {
    var u, e := RequestUrl(m, k), |Endpoint|;
    assert forall j :: 0 <= j < |m| ==> u[e + j] == m[j];
    assert forall j :: 0 <= j < |k| ==> u[e + |m| + |GenerateContent| + j] == k[j];
  }

  /** The first colon after the endpoint ends the model name, so a model
      without colons cannot be a proper prefix of another one in equal URLs. */
  lemma ColonAfterModel(m1: string, k1: string, m2: string, k2: string)
    requires ':' !in m2
    requires RequestUrl(m1, k1) == RequestUrl(m2, k2)
    ensures |m2| <= |m1|
  {
    var u := RequestUrl(m1, k1);
    var e := |Endpoint|;
    assert forall j :: 0 <= j < |m2| ==> u[e + j] == m2[j];
    assert u[e + |m1|] == GenerateContent[0] == ':';
  }

  /** Any 200 reply whose `candidates[0].content.parts[0].text` is a string,
      whatever else it carries, yields that string, stripped. */
  lemma DecodeReplyText(body: Json, text: string)
    requires Navigate(body, ReplyPath()) == Ok(JStr(text))
    ensures DecodeResponse(200, body) == Returned(Some(Strip(text)))
  {
  }

  /** The smallest such reply: `ReplyDocument(text)` yields `text`, stripped. */
  lemma DecodeReplyDocument(text: string)
    ensures DecodeResponse(200, ReplyDocument(text)) == Returned(Some(Strip(text)))
  {
    ReplyDocumentCarriesText(text);
    DecodeReplyText(ReplyDocument(text), text);
  }

  /** The reply text sits at `candidates[0].content.parts[0].text`. */
  lemma ReplyDocumentCarriesText(text: string)
    ensures Navigate(ReplyDocument(text), ReplyPath()) == Ok(JStr(text))
  {
    var t := JObj(map["text" := JStr(text)]);
    var parts := JArr([t]);
    var content := JObj(map["parts" := parts]);
    var cand := JObj(map["content" := content]);
    assert Navigate(JStr(text), []) == Ok(JStr(text));
    assert Navigate(t, [Key("text")]) == Ok(JStr(text));
    assert Navigate(parts, [Index(0), Key("text")]) == Ok(JStr(text));
    assert Navigate(content, [Key("parts"), Index(0), Key("text")]) == Ok(JStr(text));
    assert Navigate(cand, ReplyPath()[2..]) == Ok(JStr(text));
    assert Navigate(JArr([cand]), ReplyPath()[1..]) == Ok(JStr(text));
  }

  /** On a 200 reply whose nodes along the path are dicts and lists and whose
      leaf, if present, is a string, the query always returns a text: the
      stripped leaf, or NoResponse when a key or index is missing. */
  lemma DecodeShaped(body: Json)
    requires Shaped(body, ReplyPath())
    ensures var r := DecodeResponse(200, body);
      && r.Returned? && r.reply.Some?
      && (Navigate(body, ReplyPath()).Err? ==> r.reply.value == NoResponse)
      && (Navigate(body, ReplyPath()).Ok? ==> r.reply.value == Strip(Navigate(body, ReplyPath()).value.s))
  {
    ShapedNavigation(body, ReplyPath());
  }

  /** A reply whose text is padded with blanks yields the bare text. */
  lemma DecodePaddedReply()
    ensures DecodeResponse(200, ReplyDocument(" hello ")) == Returned(Some("hello"))
  {
    var blank, word := " ", "hello";
    assert IsSpace(blank[0]) && !IsSpace(word[0]) && !IsSpace(word[4]);
    StripSurrounded(blank, word, blank);
    assert blank + word + blank == " hello ";
    DecodeReplyDocument(" hello ");
  }

  /** A 200 reply without candidates, or with an empty candidate list, yields
      NoResponse; a 404 yields None. */
  lemma DecodeMissingReply()
    ensures DecodeResponse(200, JObj(map[])) == Returned(Some(NoResponse))
    ensures DecodeResponse(200, JObj(map["candidates" := JArr([])])) == Returned(Some(NoResponse))
    ensures DecodeResponse(404, JObj(map[])) == Returned(None)
  {
    assert Navigate(JObj(map[]), ReplyPath()) == Err(KeyError);
    assert Navigate(JArr([]), ReplyPath()[1..]) == Err(IndexError);
    assert Navigate(JObj(map["candidates" := JArr([])]), ReplyPath()) == Err(IndexError);
  }

  /** `candidates` holding a dict instead of a list: `dict[0]` raises a
      KeyError, which is caught, so the query yields NoResponse. */
  lemma DecodeCandidatesDict()
    ensures DecodeResponse(200, JObj(map["candidates" := JObj(map[])])) == Returned(Some(NoResponse))
  {
    assert Navigate(JObj(map[]), ReplyPath()[1..]) == Err(KeyError);
  }

  /** The chat client object: a fixed API key and the current model. */
  class GeminiBrowser {
    const apiKey: string
    var model: string

    /** The current model is always one of the supported ones. */
    ghost predicate Valid()
      reads this
    {
      model in SupportedModels
    }

    /** Startup with a key already read from the environment. */
    constructor (apiKey: string)
      requires apiKey != ""
      ensures this.apiKey == apiKey && model == Flash && Valid()
    {
      this.apiKey := apiKey;
      model := Flash;
    }

    /** `set_model`: switches to `name` when it is supported and reports
        whether it did. */
    method SetModel(name: string) returns (switched: bool)
      modifies this`model
      ensures switched <==> name in SupportedModels
      ensures model == SelectModel(old(model), name)
      ensures old(Valid()) ==> Valid()
    {
      if name in SupportedModels {
        model := name;
        switched := true;
      } else {
        switched := false;
      }
    }

    /** `gemini_query`: the request it posts for `prompt` with the current
        model and key, and what it returns once `response` has come back. */
    method Query(prompt: string, response: HttpResponse) returns (request: Request, outcome: QueryOutcome)
      ensures request.url == RequestUrl(model, apiKey)
      ensures Navigate(request.body, PromptPath()) == Ok(JStr(prompt))
      ensures request.body == RequestBody(prompt)
      ensures outcome == DecodeResponse(response.status, response.body)
    {
      request := Request(RequestUrl(model, apiKey), RequestBody(prompt));
      RequestCarriesPrompt(prompt);
      outcome := DecodeResponse(response.status, response.body);
    }
  }
}
