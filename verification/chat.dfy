/** The `POST /api/ai/chat` handler after authentication: greeting for an
    empty message, then retrieval, grouping, rendering, the prompt, the
    remote call, and the fallback apology for every failure. */
module Chat {
  import opened Wrappers
  import opened Json
  import opened Strings
  import opened Catalog
  import opened Grouping
  import opened PropertyOrder
  import opened MenuText
  import opened Groq

  const GreetingText := "Hi! I'm your restaurant AI assistant. Ask me about our menu, prices, or recommendations!"
  const ApologyText := "Sorry, due to a system error, the AI assistant is currently unavailable. Please contact our attendance staff for assistance."

  /** The properties `{}` inherits from `Object.prototype`. Reading one of
      them as `categories[c]` gives a function or the prototype itself,
      which is truthy and has no `push`, so the `forEach` throws. */
  const Inherited: set<string> := {
    "constructor", "__defineGetter__", "__defineSetter__", "hasOwnProperty",
    "__lookupGetter__", "__lookupSetter__", "isPrototypeOf",
    "propertyIsEnumerable", "toString", "valueOf", "__proto__", "toLocaleString"
  }

  /** Some retrieved item has a category the grouping step cannot store. */
  predicate PrototypeClash(items: seq<Item>) {
    exists k :: 0 <= k < |items| && items[k].category in Inherited
  }

  /** `process.env.GROQ_API_KEY` is set to a non-empty string. */
  predicate KeyConfigured(apiKey: Option<string>) {
    apiKey.Some? && apiKey.value != ""
  }

  /** The menu text the handler builds from the retrieved items. */
  function MenuTextOf(items: seq<Item>): string {
    Terminated(MenuLines(Entries(GroupByCategory(items))))
  }

  /** The exchange settles with string content that is not blank after
      trimming, and `text` is that trimmed content. */
  predicate Answers(e: Exchange, text: string) {
    var s := Settle(e);
    && s.Resolved? && s.content.Some? && s.content.value.JString?
    && text == Trim(s.content.value.s) && text != ""
  }

  /** What one request does: whether the menu was retrieved, the prompt
      sent to the model if one was, and the reply sent back. */
  datatype Trace = Trace(retrieved: bool, prompt: Option<string>, reply: string)

  /** `message` is the body's `message` field (None when the field or the
      body is missing); `menu` is the retrieval result (None when the query
      fails); `groq` answers a prompt. */
  function Chat(message: Option<string>, menu: Option<seq<Item>>, apiKey: Option<string>,
                groq: string -> Exchange): (t: Trace)
    ensures !t.retrieved <==> message.None? || message.value == ""
    ensures !t.retrieved ==> t.reply == GreetingText && t.prompt.None?
    ensures t.prompt.Some? <==>
      t.retrieved && menu.Some? && !PrototypeClash(menu.value) && KeyConfigured(apiKey)
    ensures t.prompt.Some? ==> t.prompt.value == Prompt(MenuTextOf(menu.value), message.value)
    ensures t.retrieved ==> t.reply == ApologyText || (t.prompt.Some? && Answers(groq(t.prompt.value), t.reply))
    ensures t.prompt.Some? && Answers(groq(t.prompt.value), t.reply) ==> t.reply != ""
    ensures t.prompt.Some? ==> forall text :: Answers(groq(t.prompt.value), text) ==> t.reply == text
  {
    if message.None? || message.value == "" then Trace(false, None, GreetingText)
    else if menu.None? || PrototypeClash(menu.value) || !KeyConfigured(apiKey) then
      Trace(true, None, ApologyText)
    else
      var prompt := Prompt(MenuTextOf(menu.value), message.value);
      var s := Settle(groq(prompt));
      if s.Resolved? && s.content.Some? && s.content.value.JString? && Trim(s.content.value.s) != "" then
        Trace(true, Some(prompt), Trim(s.content.value.s))
      else Trace(true, Some(prompt), ApologyText)
  }

  /** A message of blanks is not falsy: it is answered like any other. */
  lemma {:induction false} BlankMessageIsAsked(menu: seq<Item>, groq: string -> Exchange)
    requires !PrototypeClash(menu)
    ensures Chat(Some(" "), Some(menu), Some("key"), groq).prompt.Some?
  {
  }

  /** A well-formed completion reaches the customer trimmed, unless
      trimming leaves nothing, in which case the customer gets the apology. */
  lemma {:induction false} CompletionReply(message: string, menu: seq<Item>, key: string, raw: string,
                        groq: string -> Exchange)
    requires message != "" && key != "" && !PrototypeClash(menu)
    requires forall p :: groq(p) == Received(Some(Completion(raw)))
    ensures Chat(Some(message), Some(menu), Some(key), groq).reply ==
      if Trim(raw) != "" then Trim(raw) else ApologyText
  {
    var t := Chat(Some(message), Some(menu), Some(key), groq);
    CompletionAnswers(raw, groq(t.prompt.value));
  }

  lemma {:induction false} CompletionAnswers(raw: string, e: Exchange)
    requires e == Received(Some(Completion(raw)))
    ensures Trim(raw) != "" ==> Answers(e, Trim(raw))
    ensures Trim(raw) == "" ==> forall text :: !Answers(e, text)
  {
    CompletionResolves(raw);
  }

  /** An API error report never reaches the customer. */
  lemma {:induction false} ErrorReportApologises(message: string, menu: seq<Item>, key: string, error: string,
                              groq: string -> Exchange)
    requires message != "" && key != "" && !PrototypeClash(menu)
    requires forall p :: groq(p) == Received(Some(ErrorReport(error)))
    ensures Chat(Some(message), Some(menu), Some(key), groq).reply == ApologyText
  {
    var t := Chat(Some(message), Some(menu), Some(key), groq);
    ErrorReportRejects(error);
    assert Settle(groq(t.prompt.value)).ApiError?;
  }

  /** A category named after an inherited property makes the request fail
      before the model is consulted, key or no key. */
  lemma {:induction false} InheritedCategoryApologises(item: Item, apiKey: Option<string>, groq: string -> Exchange)
    requires item.category == "constructor"
    ensures var t := Chat(Some("hi"), Some([item]), apiKey, groq);
      t.reply == ApologyText && t.prompt.None?
  {
    assert [item][0].category in Inherited;
  }
}
