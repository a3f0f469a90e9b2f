# Restaurant backend: decision logic of `server.js`, modelled in Dafny

The restaurant backend is an Express server over a document store. Most of
its handlers pass fields through to storage. Six pieces carry real decision
logic, and those are what this project models and proves things about:

- **`authenticateUser` and `requireAdmin`**: the two middlewares that guard
  protected routes.
  - The first reads a bearer token from the `Authorization` header and asks
    the token library to verify it.
  - The second lets a request through only when the verified claims carry
    role `"admin"`.
- **The single-slot menu cache of `GET /api/menu`**: a captured menu is
  served for 5000 ms after the store read that produced it.
- **`POST /api/ai/chat`**, which:
  - greets an empty message;
  - otherwise retrieves the whole menu and groups the items by category
    through a plain object;
  - renders the categories, in `Object.entries` order, into `menuText`;
  - embeds that text and the customer's message in a prompt;
  - asks the remote model;
  - answers with the trimmed reply, or with one fixed apology whenever
    anything fails.
- **The `end` and `error` handlers inside `callGroqAPI`**: they decide
  whether the promise resolves with the first choice's content, or rejects
  with the API's error message, the default `"Groq API error"`, the text
  `"Invalid Groq response"`, or the thrown exception.
- **The checks of `POST /api/users/register`**: the 400 for a missing field,
  and the rule that makes an account `"admin"` only when the sent
  `adminKey` equals the configured secret.

Modules:

| Module | Contents |
|---|---|
| `Wrappers` | `Option` |
| `Json` | Parsed JSON values, JavaScript truthiness, property access |
| `Strings` | `split` on one character, and `trim` with the ECMAScript white-space and line-terminator set |
| `Auth` | The two middlewares and their composition |
| `MenuCache` | The cache step function and a method serving a whole sequence of reads |
| `Catalog` | The menu item |
| `Grouping` | The `categories` object |
| `PropertyOrder` | `Object.entries` order, as defined by OrdinaryOwnPropertyKeys in section 10.1.11.1 of ECMA-262 |
| `MenuText` | The rendering loop and the prompt |
| `Groq` | The settlement of `callGroqAPI` |
| `Chat` | The whole chat handler |
| `Registration` | The registration checks |

External collaborators are parameters:

- `verify`: the token library, a function from token to claims, or `None`
  where it throws.
- The clock reading and the store's answer for each menu read.
- The retrieval result of the chat handler, where `None` means the query
  failed.
- `GROQ_API_KEY`, `ADMIN_SECRET`.
- The remote model: a function from prompt to what the exchange ends with.

Details of the code that the model follows exactly:

- A missing token and an invalid token get different messages:
  `"No token provided"` in the first case and `"Invalid token"` in the
  second. `Auth.Authenticate` keeps the two apart.
- Categories are listed with `Object.entries`. That puts categories that are
  array indices (`"0"`, `"7"`, `"42"`, but not `"07"`) first, in ascending
  numeric order. Only the remaining categories keep their first-seen order.
  - `PropertyOrder.Entries` models this ordering.
  - `PropertyOrder.NoIndexKeysKeepOrder` proves that without such keys the
    order is first-seen order.
- Item lines are written as `- name: $price`, with the stored price as is
  and no bound on the text's length.
- The remote call has no timeout.
- `categories` is a plain `{}`. A category named after a property it
  inherits from `Object.prototype` (`"constructor"`, `"toString"`,
  `"__proto__"`, and so on) reads as truthy. `push` then throws, so the
  whole chat request ends in the apology, before the key is even consulted.
  `Chat.PrototypeClash` models this, and `Chat.InheritedCategoryApologises`
  shows an instance.

## Model

| member | source | states |
|---|---|---|
| `Auth.BearerToken` | server.js:95 | `auth.split(" ")[1]` on a header starting with "Bearer " is the text after that prefix up to the next space or the end of the header, and holds no space |
| `Auth.BearerTokenRoundTrip` | server.js:90-95 | a header built as "Bearer " + a space-free token passes the prefix test and yields exactly that token |
| `Auth.Authenticate` | server.js:88-100 | 401 "No token provided" exactly when the header is absent, empty or lacks the "Bearer " prefix; 401 "Invalid token" exactly when the library rejects the token `split(" ")[1]` yields; the request continues exactly when the header has the prefix and the library accepts that token, whatever else the header holds, and then carries the verified claims with nothing else changed |
| `Auth.AuthenticateWellFormed` | server.js:88-100 | a well-formed bearer header continues exactly when the library accepts its token, carrying that token's claims, and is otherwise rejected as an invalid token |
| `Auth.RequireAdmin` | server.js:103-108 | the request continues, unchanged, exactly when the claims' role is the string "admin"; any other role, including a missing one, gets 403 "Admin access only" |
| `Auth.AdminGuard` | server.js:88-108 | the two middlewares in sequence: the route runs exactly for an accepted token whose claims have role "admin", and each other case maps to its 401 or 403 |
| `MenuCache.GetOrLoad` | server.js:258-273 | a hit (something captured, less than 5000 ms old) returns the capture without a store read and leaves the slot unchanged; a miss returns the store's menu and captures it with the request's time; afterwards the slot always holds what was returned, less than the window old |
| `MenuCache.RereadWithinWindow` | server.js:264-266 | a read less than 5000 ms after a read that went to the store is served the same menu without touching the store |
| `MenuCache.RereadAfterWindow` | server.js:264-272 | a read 5000 ms or more after the capture, the boundary included, goes to the store and captures the new menu |
| `MenuCache.ServeReads` | server.js:258-273 | over any sequence of reads from a fresh process, the first goes to the store; each later one goes to the store exactly when the capture is at least the window old, and otherwise repeats the previous answer; every answer is what the store held less than 5000 ms before the read |
| `Grouping.FindGroup` | server.js:537 | for a category that is not one of the names `{}` inherits (those are `Chat.PrototypeClash`), `categories[c]` finds the first group whose category is c, and is undefined (past the end) exactly when no group has category c |
| `Grouping.GroupByCategoryGrouped` | server.js:535-541 | after the `forEach`: one group per category that occurs and no other; no category twice; groups in first-occurrence order of their categories; each group holds exactly its category's items in retrieval order; the grouped items are a permutation of the retrieved ones |
| `Grouping.AddItemKeepsGrouped` | server.js:537-540 | pushing one more item, creating its category's array first if it is new, keeps every grouping property for the longer item list |
| `Grouping.AddItemFlatten` | server.js:537-540 | one iteration adds exactly the pushed item to the grouped items and removes none |
| `Grouping.ItemInItsGroup` | server.js:535-541 | every retrieved item is in the group of its own category and in no other group |
| `PropertyOrder.ArrayIndexIffDecimal` | server.js:544 | a category counts as an array index exactly when it is the decimal form of some number from 0 to 2^32 - 2 |
| `PropertyOrder.SortByIndex` | server.js:544 | the array-index categories come out in ascending numeric order, as a permutation of the input |
| `PropertyOrder.Entries` | server.js:544 | `Object.entries` is a permutation of the categories: array-index keys first, in ascending numeric order, then all other keys in creation order |
| `PropertyOrder.EntriesStrictlyAscending` | server.js:544 | for distinct categories, the array-index keys are listed in strictly ascending numeric order |
| `PropertyOrder.NoIndexKeysKeepOrder` | server.js:544 | when no category is an array index, `Object.entries` lists the categories in creation order, that is first-seen order |
| `MenuText.RenderGroup` | server.js:545-549 | one category's text is its heading line, one line per item in order, and a blank line, each ended by a line break |
| `MenuText.RenderMenu` | server.js:532-550 | `menuText` is the title line, a blank line, then each category's lines in listing order, each ended by a line break; when no field contains a line break, splitting the text on line breaks gives back exactly those lines |
| `MenuText.Prompt` | server.js:553-561 | the prompt is the fixed instructions, then the menu text and the message inserted verbatim at fixed offsets; the message can be read back from the prompt whatever it contains |
| `Groq.ChoiceMessage` | server.js:56-57 | `result.choices[0].message` is used exactly when `result.choices`, `result.choices[0]` and `result.choices[0].message` are all truthy, and it is then that message; only an object can supply it |
| `Groq.ErrorText` | server.js:59 | the error's message when that message is truthy, and "Groq API error" exactly when it is not; never falsy |
| `Groq.Settle` | server.js:53-71 | it rejects with the thrown exception exactly on a network error, a body that does not parse, or a body that parses to `null`; for any other parsed body it resolves with `choices[0].message.content` exactly when the choice chain is usable, rejects with `ErrorText` of the `error` member exactly when there is no usable choice and `error` is truthy, and is an invalid response exactly when neither holds; every non-object body is an invalid response |
| `Groq.CompletionResolves` | server.js:56-57 | a well-formed completion resolves with its content, even an empty one |
| `Groq.ErrorReportRejects` | server.js:58-59 | an error report rejects with its message, or with "Groq API error" when that message is empty |
| `Groq.EmptyObjectInvalid` | server.js:60-61 | the empty object `{}` has no usable choice and no `error` member and settles as an invalid response |
| `Groq.ChoicesTakePrecedence` | server.js:56-59 | a body with a usable first choice resolves even when it also has an `error` member |
| `Chat.Chat` | server.js:512-591 | an absent or empty message gets the greeting with no retrieval and no prompt; a prompt embedding the rendered menu is sent exactly when the menu was retrieved, no category clashes with an inherited property and the key is non-empty; every other reply is the apology or the model's non-blank string content trimmed, so no error text reaches the customer |
| `Chat.CompletionReply` | server.js:566-585 | a well-formed completion reaches the customer trimmed, and a blank one yields the apology |
| `Chat.ErrorReportApologises` | server.js:575-585 | an API error report yields the apology and never its own text |
| `Chat.InheritedCategoryApologises` | server.js:535-541 | a menu item whose category is "constructor" makes the request end in the apology without a prompt being sent, whatever the key |
| `Chat.BlankMessageIsAsked` | server.js:523-525 | a message of blanks is not falsy: with a key set it is sent to the model |
| `Registration.RoleFor` | server.js:182-188 | the role is "admin" exactly when `adminKey` is truthy and strictly equal to the configured secret, "customer" otherwise |
| `Registration.Register` | server.js:166-188 | 400 "Missing fields" exactly when name, email or password is falsy; otherwise the account's role follows `RoleFor` |
| `Registration.EmptySecretMakesNoAdmin` | server.js:186 | with an empty secret configured no key makes an admin, since an equal key would be falsy |
| `Registration.NoKeyMakesCustomer` | server.js:183-188 | without a key, or without a configured secret, a registration makes a customer |
| `Registration.RegisteredRolePassesGate` | server.js:182-188 | a token carrying a new account's role passes `requireAdmin` exactly when the right admin key was sent at registration |
| `Strings.Split` | server.js:95 | `split` on one character gives at least one piece, and no piece contains the separator |
| `Strings.JoinSplit` | server.js:95 | joining the pieces of a split with the separator gives back the original string |
| `Strings.Trim` | server.js:571-573 | `trim` removes the maximal run of white space and line terminators at each end and nothing else |
| `Strings.TrimIdempotent` | server.js:573 | trimming a trimmed reply changes nothing |
| `Strings.TrimEmptyIffAllSpace` | server.js:571 | `trim()` is empty, and so falsy, exactly when the reply is all white space |
| `Json.Lookup` | server.js:55-59 | a member read is undefined exactly when no member has that name; otherwise it is the value of a member with that name, the last one when names repeat |

## Left out

- Store access is left out. That covers the menu query's contents, the
  duplicate-email lookup and the insert at registration, and all the CRUD
  handlers for orders, reservations, events and menu items. They pass
  fields through to storage. The chat retrieval appears only as its result:
  the items, or a failure.
- The token library is a parameter `verify`. Token signing, expiry
  arithmetic and bcrypt hashing are foreign library calls.
- The HTTPS request, chunk concatenation and `JSON.parse` itself are left
  out. They are I/O or library code. The model starts from the parsed value,
  or from the fact that parsing threw.
- The text of the `Error` objects is left out. `new Error(x)` converts `x`
  to a string, but the rejection reason is only logged and never reaches a
  reply. `Groq.Settle` keeps the JSON value it is built from.
- `Chat.Chat` does not model an exchange with the remote model that never
  ends. `callGroqAPI` sets no timeout, so a stalled exchange leaves the
  chat request without any reply; the model assumes every exchange ends in
  a response or a network error, and then always produces a reply.
- `Chat.Chat` does not model a `message` that is present but not a string
  (a number, an array). The field is modelled as an optional string.
- Prices, names and categories are modelled as opaque strings. This is the
  text the template literals make of the stored fields. It leaves out how a
  stored number prints, which is floating point, and the `parseFloat` in
  the menu handlers.
- JSON numbers are exact reals. Truthiness treats exactly 0 as falsy, so
  doubles that round to zero are not modelled.
- The learning-signal endpoint is left out. It performs no decision.
- CORS, body parsing, logging, startup and shutdown are left out, and so is
  the `userId` the chat handler computes only for its log line.
- Concurrent requests are left out. Two cache reloads racing each other
  need interleaving, and the model serves reads one after another.
- `authenticateUser` in front of the chat route is modelled by `Auth`, not
  repeated inside `Chat.Chat`.
