/**
  The service worker (background.js): one call to the Gemini API per model, tried in order
  until one yields an answer, and exactly one notification per context-menu query.
  The network, storage and notifications are parameters and a log.
 */
module Background {
  import opened Wrappers
  import opened JsString
  import opened QuestionText
  import opened AnswerText

  // ---------------------------------------------------------------- request

  /** The generation parameters that are not floating point (temperature and topP are left out). */
  datatype GenerationConfig = GenerationConfig(topK: int, maxOutputTokens: int, candidateCount: Option<int>)

  /** getOptimizedConfig */
  function GetOptimizedConfig(model: string): (c: GenerationConfig)
    ensures c.maxOutputTokens == 30
    ensures c.candidateCount.Some? <==> model in Models
    ensures c.candidateCount.Some? ==> c.candidateCount.value == 1 && c.topK == 40
  {
    if model == "gemini-2.0-flash" then GenerationConfig(40, 30, Some(1))
    else if model == "gemini-1.5-flash" then GenerationConfig(40, 30, Some(1))
    else GenerationConfig(32, 30, None)
  }

  /** What is sent for one model: the endpoint (with the key as a query parameter), the prompt, the configuration. */
  datatype ApiRequest = ApiRequest(url: string, prompt: string, config: GenerationConfig)

  const Endpoint := "https://generativelanguage.googleapis.com/v1/models/"

  function BuildRequest(question: string, apiKey: string, model: string): (r: ApiRequest)
    ensures r.url == Endpoint + model + ":generateContent?key=" + apiKey
    ensures r.prompt == CreateMCQPrompt(CleanQuestionText(question))
    ensures |PromptHead| + |PromptTail| <= |r.prompt| && PromptQuestion(r.prompt) == CleanQuestionText(question)
    ensures r.config == GetOptimizedConfig(model)
  {
    var prompt := CreateMCQPrompt(CleanQuestionText(question));
    PromptRoundTrip(CleanQuestionText(question));
    ApiRequest(Endpoint + model + ":generateContent?key=" + apiKey, prompt, GetOptimizedConfig(model))
  }

  // ---------------------------------------------------------------- response

  /** The parsed JSON reply, keeping only the fields the worker reads; a missing field is `None`. */
  datatype Part = Part(text: Option<string>)
  datatype Content = Content(parts: Option<seq<Part>>)
  datatype Candidate = Candidate(finishReason: Option<string>, content: Option<Content>)
  /** `error` is whether the body has a truthy `error` field. */
  datatype Body = Body(error: bool, candidates: Option<seq<Candidate>>)

  /** What `fetch` produced: a rejected promise, or a response with its status and its body
      (`None` when `response.json()` rejects). */
  datatype FetchResult = NetworkFailure | HttpResponse(status: int, body: Option<Body>)

  /** What one call of tryGeminiModel does: throw, or return a value (`None` is `null`). */
  datatype Attempt = Threw | Returned(answer: Option<string>)

  /** `response.ok` */
  predicate Ok(status: int) {
    200 <= status <= 299
  }

  /** The reply has a first candidate. */
  predicate HasCandidate(r: FetchResult) {
    r.HttpResponse? && r.body.Some? && r.body.value.candidates.Some? && |r.body.value.candidates.value| > 0
  }

  function FirstCandidate(r: FetchResult): Candidate
    requires HasCandidate(r)
  {
    r.body.value.candidates.value[0]
  }

  /** The first candidate has content with a non-empty `parts` array. */
  predicate HasFirstPart(r: FetchResult) {
    HasCandidate(r) && FirstCandidate(r).content.Some?
    && FirstCandidate(r).content.value.parts.Some? && |FirstCandidate(r).content.value.parts.value| > 0
  }

  function FirstPart(r: FetchResult): Part
    requires HasFirstPart(r)
  {
    FirstCandidate(r).content.value.parts.value[0]
  }

  /** The replies on which tryGeminiModel throws: no response, a status outside 2xx, a body that
      is not JSON or carries `error`, a first candidate cut off by MAX_TOKENS, content without
      `parts`, or a first part without text (`trim` of undefined). */
  predicate Rejected(r: FetchResult) {
    r.NetworkFailure?
    || !Ok(r.status)
    || r.body.None?
    || r.body.value.error
    || (HasCandidate(r) && FirstCandidate(r).finishReason == Some("MAX_TOKENS"))
    || (HasCandidate(r) && FirstCandidate(r).content.Some? && FirstCandidate(r).content.value.parts.None?)
    || (HasFirstPart(r) && FirstPart(r).text.None?)
  }

  /** The outcome tryGeminiModel has on a reply: it throws exactly on the rejected replies,
      returns `null` exactly when an accepted reply has no first part, and an answer it returns
      is trimmed and on one line. */
  function AttemptOutcome(r: FetchResult): (a: Attempt)
    ensures a.Threw? <==> Rejected(r)
    ensures a == Returned(None) <==> !Rejected(r) && !HasFirstPart(r)
    ensures a.Returned? && a.answer.Some? ==>
      HasFirstPart(r) && Trimmed(a.answer.value) && forall i :: 0 <= i < |a.answer.value| ==> a.answer.value[i] != '\n'
  {
    if Rejected(r) then Threw
    else if !HasFirstPart(r) then Returned(None)
    else
      Returned(Some(ExtractAnswerOnly(Trim(FirstPart(r).text.value))))
  }

  /** tryGeminiModel: build the request, call the network once, read the reply. */
  method TryGeminiModel(question: string, apiKey: string, model: string, fetch: ApiRequest -> FetchResult)
    returns (outcome: Attempt)
    ensures outcome == AttemptOutcome(fetch(BuildRequest(question, apiKey, model)))
  {
    var request := BuildRequest(question, apiKey, model);
    var response := fetch(request);
    outcome := ReadResponse(response);
  }

  /** The checks tryGeminiModel makes on the reply, in the order it makes them. */
  method ReadResponse(response: FetchResult) returns (outcome: Attempt)
    ensures outcome == AttemptOutcome(response)
  {
    if response.NetworkFailure? || !Ok(response.status) {
      return Threw;
    }
    if response.body.None? {
      return Threw;
    }
    var data := response.body.value;
    if data.error {
      return Threw;
    }
    if data.candidates.Some? && |data.candidates.value| > 0 {
      var candidate := data.candidates.value[0];
      if candidate.finishReason == Some("MAX_TOKENS") {
        return Threw;
      }
      if candidate.content.Some? && candidate.content.value.parts.Some? && |candidate.content.value.parts.value| > 0 {
        var part := candidate.content.value.parts.value[0];
        if part.text.None? {
          return Threw;
        }
        var answer := Trim(part.text.value);
        return Returned(Some(ExtractAnswerOnly(answer)));
      } else if candidate.content.Some? && candidate.content.value.parts.None? {
        return Threw;
      }
    }
    return Returned(None);
  }

  // ---------------------------------------------------------------- model fallback

  const Models: seq<string> := ["gemini-2.0-flash", "gemini-1.5-flash"]

  /** `if (result)`: a returned, non-empty answer. */
  predicate Truthy(a: Attempt) {
    a.Returned? && a.answer.Some? && a.answer.value != []
  }

  /** The outcome of each of `models`, in order. */
  function OutcomesOf(attempt: string -> Attempt, models: seq<string>): (outs: seq<Attempt>)
    ensures |outs| == |models|
    ensures forall i :: 0 <= i < |models| ==> outs[i] == attempt(models[i])
  {
    seq(|models|, i requires 0 <= i < |models| => attempt(models[i]))
  }

  /** What tryGeminiModel returns for `model`, given the question, the key and the network. */
  function ModelAttempt(question: string, apiKey: string, fetch: ApiRequest -> FetchResult): string -> Attempt {
    model => AttemptOutcome(fetch(BuildRequest(question, apiKey, model)))
  }

  /** The answer of the first truthy attempt, or `None` (`null`). */
  function FirstAnswer(outs: seq<Attempt>): (r: Option<string>)
    ensures r.Some? ==> r.value != []
  {
    if outs == [] then None
    else if Truthy(outs[0]) then Some(outs[0].answer.value)
    else FirstAnswer(outs[1..])
  }

  /** How many attempts are made: up to and including the first truthy one. */
  function AttemptsMade(outs: seq<Attempt>): (n: nat)
    ensures n <= |outs|
  {
    if outs == [] then 0
    else if Truthy(outs[0]) then 1
    else 1 + AttemptsMade(outs[1..])
  }

  lemma AttemptStep(outs: seq<Attempt>, i: nat)
    requires i < |outs|
    ensures Truthy(outs[i]) ==> FirstAnswer(outs[i..]) == outs[i].answer && AttemptsMade(outs[i..]) == 1
    ensures !Truthy(outs[i]) ==>
      FirstAnswer(outs[i..]) == FirstAnswer(outs[i + 1..]) && AttemptsMade(outs[i..]) == 1 + AttemptsMade(outs[i + 1..])
  {
    assert outs[i..][1..] == outs[i + 1..];
  }

  /** getGeminiAnswer: try "gemini-2.0-flash", then "gemini-1.5-flash", and return the first truthy
      result; errors of any kind, rate limits included, just move on to the next model. `attempt`
      is tryGeminiModel on each model (see `ModelAttempt`); the models called are returned too. */
  method GetGeminiAnswer(attempt: string -> Attempt) returns (answer: Option<string>, called: seq<string>)
    ensures answer == FirstAnswer(OutcomesOf(attempt, Models))
    ensures called == Models[..AttemptsMade(OutcomesOf(attempt, Models))]
  {
    ghost var outs := OutcomesOf(attempt, Models);
    answer, called := None, [];
    var i := 0;
    while i < |Models| && answer.None?
      invariant 0 <= i <= |Models|
      invariant called == Models[..i]
      invariant answer.None? ==> FirstAnswer(outs) == FirstAnswer(outs[i..]) && AttemptsMade(outs) == i + AttemptsMade(outs[i..])
      invariant answer.Some? ==> answer == FirstAnswer(outs) && AttemptsMade(outs) == i
    {
      var result := attempt(Models[i]);
      AttemptStep(outs, i);
      called := called + [Models[i]];
      if Truthy(result) {
        answer := Some(result.answer.value);
      }
      i := i + 1;
    }
    if answer.None? {
      assert outs[i..] == [];
    }
  }

  /** When the first model answers, that answer is returned and the second model is never called. */
  lemma FirstModelWins(outs: seq<Attempt>)
    requires |outs| == 2 && Truthy(outs[0])
    ensures FirstAnswer(outs) == outs[0].answer && AttemptsMade(outs) == 1
  {
  }

  /** When the first model throws or yields nothing, the second model's answer is returned. */
  lemma FallbackToSecondModel(outs: seq<Attempt>)
    requires |outs| == 2 && !Truthy(outs[0]) && Truthy(outs[1])
    ensures FirstAnswer(outs) == outs[1].answer && AttemptsMade(outs) == 2
  {
    assert outs[1..][1..] == [];
  }

  /** `null` comes back exactly when no attempt is truthy, and then every model has been called. */
  lemma {:induction false} NoAnswerIffAllFalsy(outs: seq<Attempt>)
    ensures FirstAnswer(outs).None? <==> forall i :: 0 <= i < |outs| ==> !Truthy(outs[i])
    ensures FirstAnswer(outs).None? ==> AttemptsMade(outs) == |outs|
  {
    if outs != [] {
      NoAnswerIffAllFalsy(outs[1..]);
      if !Truthy(outs[0]) {
        assert forall i :: 1 <= i < |outs| ==> outs[i] == outs[1..][i - 1];
      }
    }
  }

  /** A returned answer is the answer of the last model called, and every earlier model failed. */
  lemma {:induction false} AnswerComesFromLastCall(outs: seq<Attempt>)
    requires FirstAnswer(outs).Some?
    ensures 0 < AttemptsMade(outs) <= |outs|
    ensures Truthy(outs[AttemptsMade(outs) - 1])
    ensures FirstAnswer(outs) == outs[AttemptsMade(outs) - 1].answer
    ensures forall i :: 0 <= i < AttemptsMade(outs) - 1 ==> !Truthy(outs[i])
  {
    if !Truthy(outs[0]) {
      AnswerComesFromLastCall(outs[1..]);
      assert forall i :: 1 <= i < |outs| ==> outs[i] == outs[1..][i - 1];
    }
  }

  // ---------------------------------------------------------------- notifications

  datatype Notification = Notification(title: string, message: string)

  /** `chrome.storage.local.get`: it may reject, or yield the stored key if any. */
  datatype StorageRead = ReadFailed | Read(key: Option<string>)

  /** `!!result.gemini_api_key`, the checkApiKey reply. */
  predicate HasApiKey(key: Option<string>) {
    key.Some? && key.value != []
  }

  const KeyRequired := Notification("API Key Required", "Please configure your Gemini API key in the extension popup.")
  const NotProcessed := Notification("Error", "Could not process the question. Please try again.")
  const Failure := Notification("Error", "An error occurred while processing your request.")

  /** The notification handleMCQQuery raises: "API Key Required" exactly when the stored key is
      missing or empty; with a key, the first answer of the models when there is one (never
      empty), else "Error"; a failed storage read is an "Error" too. */
  function QueryNotification(selected: string, stored: StorageRead, fetch: ApiRequest -> FetchResult): (n: Notification)
    ensures n == KeyRequired <==> stored.Read? && !HasApiKey(stored.key)
    ensures stored.ReadFailed? ==> n == Failure
    ensures n.title == "TestStellar Answer" <==>
      stored.Read? && HasApiKey(stored.key) && FirstAnswer(OutcomesOf(ModelAttempt(selected, stored.key.value, fetch), Models)).Some?
    ensures n.title == "TestStellar Answer" ==>
      n.message == FirstAnswer(OutcomesOf(ModelAttempt(selected, stored.key.value, fetch), Models)).value && n.message != []
    ensures stored.Read? && HasApiKey(stored.key) && n.title != "TestStellar Answer" ==> n == NotProcessed
  {
    match stored
    case ReadFailed => Failure
    case Read(key) =>
      if !HasApiKey(key) then KeyRequired
      else match FirstAnswer(OutcomesOf(ModelAttempt(selected, key.value, fetch), Models))
        case Some(answer) => Notification("TestStellar Answer", answer)
        case None => NotProcessed
  }

  /** The models handleMCQQuery calls: a prefix of the model list, empty exactly when there is no
      usable key. */
  function QueryCalls(selected: string, stored: StorageRead, fetch: ApiRequest -> FetchResult): (calls: seq<string>)
    ensures |calls| <= |Models| && calls == Models[..|calls|]
    ensures calls != [] <==> stored.Read? && HasApiKey(stored.key)
  {
    if stored.Read? && HasApiKey(stored.key)
    then Models[..AttemptsMade(OutcomesOf(ModelAttempt(selected, stored.key.value, fetch), Models))]
    else []
  }

  /** The service worker's observable effects: the notifications shown and the models called. */
  class Worker {
    var notifications: seq<Notification>
    var calls: seq<string>

    constructor()
      ensures notifications == [] && calls == []
    {
      notifications := [];
      calls := [];
    }

    /** handleMCQQuery: exactly one notification per query. */
    method HandleMCQQuery(selected: string, stored: StorageRead, fetch: ApiRequest -> FetchResult)
      modifies this
      ensures notifications == old(notifications) + [QueryNotification(selected, stored, fetch)]
      ensures calls == old(calls) + QueryCalls(selected, stored, fetch)
    {
      if stored.ReadFailed? {
        notifications := notifications + [Failure];
        return;
      }
      var apiKey := stored.key;
      if !HasApiKey(apiKey) {
        notifications := notifications + [KeyRequired];
        return;
      }
      var answer, called := GetGeminiAnswer(ModelAttempt(selected, apiKey.value, fetch));
      calls := calls + called;
      if answer.Some? {
        notifications := notifications + [Notification("TestStellar Answer", answer.value)];
      } else {
        notifications := notifications + [NotProcessed];
      }
    }

    /** The context-menu listener: only the "ask-teststellar" item with a non-empty selection starts a query. */
    method OnContextMenuClicked(menuItemId: string, selectionText: Option<string>, stored: StorageRead,
                                fetch: ApiRequest -> FetchResult)
      modifies this
      ensures menuItemId == "ask-teststellar" && selectionText.Some? && selectionText.value != [] ==>
        notifications == old(notifications) + [QueryNotification(selectionText.value, stored, fetch)]
        && calls == old(calls) + QueryCalls(selectionText.value, stored, fetch)
      ensures !(menuItemId == "ask-teststellar" && selectionText.Some? && selectionText.value != []) ==>
        notifications == old(notifications) && calls == old(calls)
    {
      if menuItemId == "ask-teststellar" && selectionText.Some? && selectionText.value != [] {
        HandleMCQQuery(selectionText.value, stored, fetch);
      }
    }
  }

  /** The checkApiKey reply agrees with the key gate of handleMCQQuery. */
  lemma CheckApiKeyMatchesQueryGate(selected: string, key: Option<string>, fetch: ApiRequest -> FetchResult)
    ensures HasApiKey(key) <==> QueryNotification(selected, Read(key), fetch) != KeyRequired
  {
  }
}
