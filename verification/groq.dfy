/** How the promise returned by `callGroqAPI` settles once the HTTPS
    exchange is over: the `end` handler's classification of the parsed body,
    and the request's `error` handler. */
module Groq {
  import opened Wrappers
  import opened Json

  /** How the exchange ended, as far as the classification can tell: the
      request failed, or the whole body arrived and was handed to
      `JSON.parse` (None when that throws). */
  datatype Exchange =
    | NetworkError
    | Received(parsed: Option<Json>)

  /** The settled promise. `Resolved` carries `choices[0].message.content`
      (possibly `undefined`); `ApiError` carries what the `Error` is built
      from; `Thrown` is a rejection with an exception that is not one of the
      handler's own (a network error, a parse error, a `TypeError`). */
  datatype Settled =
    | Resolved(content: Option<Json>)
    | ApiError(message: Json)
    | InvalidResponse
    | Thrown

  const DefaultApiError := "Groq API error"

  /** `result.choices[0].message` when each step of that chain is truthy. */
  function ChoiceMessage(result: Json): (m: Option<Json>)
    requires !result.JNull?
    ensures m.Some? <==>
      && Truthy(Prop(result, Choices))
      && Truthy(First(Prop(result, Choices).value))
      && Truthy(Prop(First(Prop(result, Choices).value).value, Message))
    ensures m.Some? ==> m == Prop(First(Prop(result, Choices).value).value, Message)
    ensures m.Some? ==> Truthy(m) && result.JObject?
  {
    var choices := Prop(result, Choices);
    if !Truthy(choices) then None
    else
      var first := First(choices.value);
      if !Truthy(first) then None
      else
        var message := Prop(first.value, Message);
        if Truthy(message) then message else None
  }

  /** The `end` handler, followed by the `error` handler for a failed
      request. */
  function Settle(e: Exchange): (s: Settled)
    ensures s.Thrown? <==> e.NetworkError? || e.parsed.None? || e.parsed == Some(JNull)
    ensures s.Resolved? ==> e.Received? && e.parsed.Some? && e.parsed.value.JObject?
    ensures s.ApiError? ==> e.Received? && e.parsed.Some? && e.parsed.value.JObject?
    ensures s.ApiError? ==> Truthy(Some(s.message))
    ensures e.Received? && e.parsed.Some? && !e.parsed.value.JNull? && !e.parsed.value.JObject? ==>
      s == InvalidResponse
    ensures e.Received? && e.parsed.Some? && !e.parsed.value.JNull? ==>
      var result := e.parsed.value;
      && (s.Resolved? <==> ChoiceMessage(result).Some?)
      && (s.Resolved? ==> s.content == Prop(ChoiceMessage(result).value, Content))
      && (s.ApiError? <==> ChoiceMessage(result).None? && Truthy(Prop(result, Error)))
      && (s.ApiError? ==> s.message == ErrorText(Prop(result, Error).value))
      && (s == InvalidResponse <==> ChoiceMessage(result).None? && !Truthy(Prop(result, Error)))
  {
    if e.NetworkError? || e.parsed.None? || e.parsed.value.JNull? then Thrown
    else
      var result := e.parsed.value;
      var message := ChoiceMessage(result);
      if message.Some? then Resolved(Prop(message.value, Content))
      else if Truthy(Prop(result, Error)) then ApiError(ErrorText(Prop(result, Error).value))
      else InvalidResponse
  }

  /** `error.message || 'Groq API error'`. */
  function ErrorText(error: Json): (text: Json)
    requires !error.JNull?
    ensures Truthy(Some(text))
    ensures Truthy(Prop(error, Message)) ==> Some(text) == Prop(error, Message)
    ensures !Truthy(Prop(error, Message)) ==> text == JString(DefaultApiError)
  {
    var text := Prop(error, Message);
    if Truthy(text) then text.value else JString(DefaultApiError)
  }

  /** The body of a successful chat completion, reduced to the members the
      handler reads. */
  function Completion(content: string): Json {
    JObject([("choices", JArray([JObject([("message", JObject([("role", JString("assistant")), ("content", JString(content))]))])]))])
  }

  /** The body of an API error report. */
  function ErrorReport(message: string): Json {
    JObject([("error", JObject([("message", JString(message)), ("type", JString("invalid_request_error"))]))])
  }

  /** A completion resolves with its content, an empty one included. */
  lemma {:induction false} CompletionResolves(content: string)
    ensures Settle(Received(Some(Completion(content)))) == Resolved(Some(JString(content)))
  {
    var m := JObject([("role", JString("assistant")), ("content", JString(content))]);
    assert Lookup(m.members, "content") == Some(JString(content));
  }

  /** An error report rejects with its message, or with the default message
      when its message is empty. */
  lemma {:induction false} ErrorReportRejects(message: string)
    ensures Settle(Received(Some(ErrorReport(message)))) ==
      ApiError(JString(if message == "" then DefaultApiError else message))
  {
    var r := ErrorReport(message);
    assert Lookup(r.members, "choices") == None;
    var err := JObject([("message", JString(message)), ("type", JString("invalid_request_error"))]);
    assert Lookup(err.members, "message") == Some(JString(message)) by {
      assert err.members[..1] == [("message", JString(message))];
    }
  }

  /** A usable first choice wins over an `error` member in the same body. */
  lemma {:induction false} ChoicesTakePrecedence(content: string, message: string)
    ensures var body := JObject(Completion(content).members + ErrorReport(message).members);
      Settle(Received(Some(body))) == Resolved(Some(JString(content)))
  {
    var body := JObject(Completion(content).members + ErrorReport(message).members);
    assert Lookup(body.members, "choices") == Some(Completion(content).members[0].1) by {
      assert body.members[..1] == Completion(content).members;
    }
    CompletionResolves(content);
  }

  /** An object with neither a usable choice nor a truthy `error` member is
      an invalid response; `{}` is the smallest. */
  lemma {:induction false} EmptyObjectInvalid()
    ensures Settle(Received(Some(JObject([])))) == InvalidResponse
  {
  }
}
