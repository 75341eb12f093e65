# Prompt generator: request handler and history, modelled in Dafny

This project models the decision logic of a small web application that turns a
topic and a category into a prompt for an AI model. There are three parts.

- **The request handler** (`POST /api/generate-prompt`, module `Route`).
  - It validates the body and rejects a missing or blank topic or category with 400.
  - It lower-cases the category without trimming it. It then looks up a role
    instruction and a one-shot example, falling back to the `fun` profile.
  - It composes the user message from a fixed template.
  - It flattens the model's reply to one string. It returns the reply parsed as
    JSON, or an "Untitled" fallback that carries the category as sent.
  - Anything thrown becomes a 500 with the error's message.
- **The page's history state machine** (module `Home`, class `Home.HomeState`).
  - Generating a prompt prepends a new item to a history capped at 50 items.
  - Delete removes the items with a given id. Clear empties the history.
- **The history panel's views** (module `HistoryList`): the category filter, the
  relative-time label and the empty-state text.

Supporting modules:
- `Text`: JavaScript's `trim` white-space set, `toLowerCase` on ASCII,
  `Number.prototype.toString` for naturals, and `Array.prototype.join`.
- `Lists`: `Array.prototype.filter` and subsequences.
- `Json`: JSON values, `Option`, and the `Outcome` of an operation that may throw.

Calls into code outside the core are inputs to the model:
- Reading the request body is an `Outcome<Json>`.
- The chat call to the model vendor is an `Outcome<Content>`.
- `JSON.parse` is an oracle `string -> Option<Json>`, returning `None` where it throws.
- The environment and the JavaScript engine form a `Host`: the `COHERE_MODEL`
  variable, and the TypeError message the engine raises at each of the three places
  where validation can throw.
- On the page, how `fetch` ends is an `Outcome<HttpReply>`, and the two readings of
  `Date.now()` are parameters.

The handler is defined over a `Route.Catalog`, which holds the two tables, the
template texts and the system message. `Route.SourceCatalog` holds the values of
route.ts verbatim. The lemmas about the handler hold for every catalog with the
same shape, and `Route.SourceCatalogComplete` proves that the source's catalog has
that shape.

Two behaviours of route.ts that the model keeps:
- The category is lower-cased but not trimmed, so `" Coding "` selects the `fun` profile.
- The fallback result echoes the category as sent, not lower-cased.

## Model

| member | source | states |
|---|---|---|
| Text.Trim | app/api/generate-prompt/route.ts:84 | `trim` keeps a contiguous slice of the string; everything dropped before and after it is white space, and the slice neither starts nor ends with white space |
| Text.TrimEmptyIffBlank | app/api/generate-prompt/route.ts:84 | a string trims to "" exactly when every character is white space |
| Text.TrimIdempotent | app/page.tsx:62-80 | trimming an already trimmed topic changes nothing, so the server sees the topic the page trimmed |
| Text.ToLower | app/api/generate-prompt/route.ts:91 | lower-casing keeps the length and maps each character to its lower-case form |
| Text.ToLowerFixed | app/api/generate-prompt/route.ts:91 | a string without upper-case letters is unchanged by lower-casing |
| Text.Decimal | app/page.tsx:94 | `Date.now().toString()` is a non-empty string of digits with no leading zero |
| Text.DecimalRoundTrip | app/page.tsx:94 | reading the decimal digits back gives the number, so distinct numbers have distinct decimal strings and ids made from distinct clock readings differ |
| Text.Join | app/api/generate-prompt/route.ts:136 | a join has the total length of its pieces plus one separator between each pair of neighbours |
| Text.JoinAt | app/api/generate-prompt/route.ts:134-136 | piece k of a join starts after the k pieces before it and k separators, and a separator follows every piece but the last |
| Lists.Filter | app/page.tsx:127 | a filter keeps no more elements than it was given, and every element it keeps passes the test |
| Lists.FilterCount | components/history-list.tsx:43-45 | a filter keeps every occurrence of an element that passes the test and drops every occurrence of one that does not |
| Lists.FilterMember | components/history-list.tsx:43-45 | an element is kept exactly when it was present and passes the test |
| Lists.FilterIsSubsequence | components/history-list.tsx:43-45 | a filter keeps the relative order of what it keeps |
| Lists.FilterKeepsAll | app/page.tsx:127 | when every element passes the test, the filter returns its input |
| Lists.FilterKeepsNone | components/history-list.tsx:100 | when no element passes the test, the filter returns the empty list |
| Lists.FilterIdempotent | components/history-list.tsx:43-45 | filtering twice with the same test is filtering once |
| Json.Get | app/page.tsx:89-95 | reading a member of a non-null value gives a value exactly when the value is an object with that member, and then the value is that member's |
| Route.ResolvedKey | app/api/generate-prompt/route.ts:91-94 | the profile chosen is always a known category: the normalized category itself exactly when it is known, and `fun` when it is not |
| Route.LookupOrDefault | app/api/generate-prompt/route.ts:92-94 | a lookup gives the entry of the key when the key is present with a non-empty entry, and the `fun` entry when the key is absent or its entry is ""; it is never "" when the `fun` entry is not "" |
| Route.ResolveInstruction | app/api/generate-prompt/route.ts:92-93 | the instruction is always one of the instruction table's entries |
| Route.ResolveExample | app/api/generate-prompt/route.ts:94 | the example is always one of the example table's entries |
| Route.CatalogResolution | app/api/generate-prompt/route.ts:92-94 | with both tables keyed by the six categories and holding no empty entry, the instruction and the example come from the same category: the category itself if known, `fun` otherwise |
| Route.InstructionsComplete | app/api/generate-prompt/route.ts:16-27 | the instruction table has exactly the six category keys, none with an empty entry |
| Route.ExamplesComplete | app/api/generate-prompt/route.ts:30-73 | the example table has exactly the six category keys, none with an empty entry |
| Route.SourceCatalogComplete | app/api/generate-prompt/route.ts:16-73 | the source's catalog satisfies the table invariant the handler lemmas assume |
| Route.CategoryIsNotTrimmed | app/api/generate-prompt/route.ts:91-94 | "Coding" normalizes to the `coding` profile, while " Coding " normalizes to " coding " and selects `fun` |
| Route.PresenceOf | app/api/generate-prompt/route.ts:84 | a field counts as present only when it is a string that is not all white space |
| Route.PresenceCases | app/api/generate-prompt/route.ts:84 | a field is blank exactly when it is missing, null or white space, and present exactly when it is a string that is not |
| Route.Validate | app/api/generate-prompt/route.ts:82-89 | an accepted body is not null and has both fields as non-blank strings, passed on as sent; a faulted one carries the TypeError raised at one of the three sites |
| Route.ValidateCases | app/api/generate-prompt/route.ts:82-89 | a body is rejected exactly when its topic is missing or blank, or its topic is a string and its category is missing or blank; it is accepted exactly when both are non-blank strings, which are passed on untrimmed |
| Route.ValidateAccepts | app/api/generate-prompt/route.ts:84-89 | a body whose topic and category are non-blank strings is accepted with those strings |
| Route.ValidateFaults | app/api/generate-prompt/route.ts:82-84 | validation throws exactly when the body is null, the topic is neither missing, null nor a string, or the topic is a non-blank string and the category is neither missing, null nor a string; the error is the TypeError of that site, in that order |
| Route.ComposeLayout | app/api/generate-prompt/route.ts:97-115 | the message starts with the instruction, then holds the category line, then the quoted topic, then the example, which the closing directive follows to the end |
| Route.Compose | app/api/generate-prompt/route.ts:97-115 | the user message built from the template; its layout is stated by Route.ComposeLayout and what can be read back from it by Route.ComposeInjective |
| Route.ComposeCategoryInjective | app/api/generate-prompt/route.ts:104 | two equal messages for the same profile whose categories have the same length carry the same category |
| Route.ComposeTopicInjective | app/api/generate-prompt/route.ts:111 | two equal messages for the same profile and category carry the same topic, verbatim |
| Route.CategoryEndsAtQuote | app/api/generate-prompt/route.ts:104 | in the message of a category without a quote, the first quote after the category line's opening quote is the one right after the category |
| Route.ComposeInjective | app/api/generate-prompt/route.ts:97-115 | two equal messages for the same profile whose categories hold no quote carry the same category and the same topic |
| Route.ComposeQuoteCollision | app/api/generate-prompt/route.ts:104-111 | a category that closes its own quote and repeats the criteria and the topic key gives, with a shorter topic, the same message as a different, shorter category: composition is not injective without the quote condition |
| Route.Pieces | app/api/generate-prompt/route.ts:135 | each segment maps to its text when that is a string and to "" otherwise, one piece per segment |
| Route.Flatten | app/api/generate-prompt/route.ts:131-139 | the reply as one string; Route.FlattenShape states what it is for each kind of content |
| Route.FlattenShape | app/api/generate-prompt/route.ts:131-139 | a string reply passes unchanged; a list of n segments gives its pieces joined by single spaces: piece k starts after the k pieces before it and k spaces and is followed by a space unless it is the last, so the length is total + n - 1; anything else gives "" |
| Route.FallbackFields | app/api/generate-prompt/route.ts:146 | the fallback's title is "Untitled", its prompt is the whole reply, and its category is the request's |
| Route.ExtractCases | app/api/generate-prompt/route.ts:141-149 | a reply that parses is returned as parsed; one that does not becomes exactly {title: "Untitled", prompt, category as sent} |
| Route.Fallback | app/api/generate-prompt/route.ts:146 | the "Untitled" result; Route.FallbackFields states its three members |
| Route.Extract | app/api/generate-prompt/route.ts:141-149 | the parsed reply or the fallback; Route.ExtractCases states which, exactly when |
| Route.ModelId | app/api/generate-prompt/route.ts:13 | the model id is never empty, and it is the configured one when that is set and not empty |
| Route.ChatFor | app/api/generate-prompt/route.ts:117-127 | the chat request of an accepted body; Route.HandleSends states its model, system message and user text |
| Route.ErrorMessage | app/api/generate-prompt/route.ts:155-157 | the message of a thrown Error, or the generic text for any other thrown value; Route.HandleFails states where it is used |
| Route.Handle | app/api/generate-prompt/route.ts:80-161 | the whole handler; Route.HandleRejects, Route.HandleSends, Route.HandleFails and Route.HandleSucceeds state each of its outcomes, exactly when it happens |
| Route.HandleRejects | app/api/generate-prompt/route.ts:84-89 | the status is 400 exactly when the body was read and fails validation, and then no chat request is sent and the body is the fixed message |
| Route.HandleSends | app/api/generate-prompt/route.ts:91-127 | a chat request is sent exactly when the request is accepted, with the configured model, the system message, and the text composed from the raw topic and the lower-cased category with the profile it selects |
| Route.HandleFails | app/api/generate-prompt/route.ts:150-160 | the status is always 200, 400 or 500; it is 500 exactly when reading the body throws, validation throws, or the chat call throws, and the body then carries the Error's message or the generic one |
| Route.HandleSucceeds | app/api/generate-prompt/route.ts:129-149 | the status is 200 exactly when the request is accepted and the chat call returns, and the body is then the extraction of the flattened reply |
| Route.EmptyReplyFallsBack | app/api/generate-prompt/route.ts:137-149 | a reply with no text gives status 200 and the fallback with an empty prompt |
| HistoryList.VisibleAll | components/history-list.tsx:43-45 | under "All" the whole history is visible, in order |
| HistoryList.VisibleByCategory | components/history-list.tsx:43-45 | under any other filter, the visible items are the order-preserving subsequence of the items whose category equals the filter exactly, every occurrence of each, no more than the history |
| HistoryList.VisibleIdempotent | components/history-list.tsx:43-45 | filtering the visible items again by the same choice changes nothing |
| HistoryList.ShownUnder | components/history-list.tsx:43-45 | the filter test: every item under "All", otherwise the items whose category equals the filter; stated through HistoryList.VisibleAll and HistoryList.VisibleByCategory |
| HistoryList.Visible | components/history-list.tsx:43-45 | the items shown under a filter; HistoryList.VisibleAll, HistoryList.VisibleByCategory and HistoryList.VisibleIdempotent state what they are |
| HistoryList.FormatTime | components/history-list.tsx:47-59 | under an hour gives "Just now"; from one hour to under a day gives the whole hours h, 1 <= h <= 23, as "<h>h ago"; otherwise the locale date |
| HistoryList.HoursReadBack | components/history-list.tsx:55 | the digits of an "h ago" label read back as the whole hours elapsed |
| HistoryList.FormatTimeMonotone | components/history-list.tsx:47-59 | for a later reading of the clock the label never moves back, from a date to an "h ago" text or from "h ago" to "Just now", and within the hour band it never shows fewer hours |
| HistoryList.LabelByBand | components/history-list.tsx:47-59 | the label is "Just now" under an hour, "<h>h ago" under a day and a date otherwise, and an "h ago" label shows the whole hours elapsed |
| HistoryList.EmptyStateCases | components/history-list.tsx:100-108 | the empty text shows under "All" exactly when the history is empty, and under a category exactly when no item has it, naming it in lower case |
| HistoryList.EmptyStateMessage | components/history-list.tsx:100-108 | the empty-state text; HistoryList.EmptyStateCases states both forms |
| HistoryList.EmptyState | components/history-list.tsx:100-108 | the empty state, shown when nothing is visible; HistoryList.EmptyStateCases states exactly when |
| Home.Prepend | app/page.tsx:101 | the new history has length min(old + 1, 50), starts with the new item, and continues with a prefix of the old history in order |
| Home.GenerationsKeepNewest | app/page.tsx:101 | after any run of generations from an empty history, the newest min(n, 50) items are kept, most recent first |
| Home.FiftyOneGenerations | app/page.tsx:101 | after 51 generations exactly 50 items remain, the most recent first |
| Home.AfterGenerations | app/page.tsx:101 | the history after one generation per item; Home.GenerationsKeepNewest and Home.FiftyOneGenerations state what it keeps |
| Home.DeleteByIdSpec | app/page.tsx:126-127 | delete keeps the order of what it keeps, removes every item with the id, keeps every other item, changes nothing for an absent id, and is idempotent |
| Home.DeleteById | app/page.tsx:127 | the history without the items with an id; Home.DeleteByIdSpec states what it keeps and drops |
| Home.CategoryNotBlank | app/page.tsx:16 | none of the page's categories is blank |
| Home.RequestBody | app/page.tsx:79-82 | the posted body is an object whose topic and category members are the given strings |
| Home.Receive | app/page.tsx:85-90 | the page reaches the prompt exactly when fetch resolves with an ok status and a JSON body that is not null, and then reads that body's `prompt` member |
| Home.PageRequestAccepted | app/page.tsx:74-83 | every body the page posts passes the server's validation, with the trimmed topic and the display-case category |
| Home.ServerFallbackReachesPage | app/page.tsx:89-90 | when the model's reply is not JSON, the page receives the whole reply text as the prompt |
| Home.ServerErrorsNotDelivered | app/page.tsx:85-87 | when the handler answers anything but 200, the page records nothing |
| Home.HomeState.constructor | app/page.tsx:19-25 | the page starts with an empty topic, the category "Fun", an empty prompt, not generating, and an empty history |
| Home.HomeState.GeneratePrompt | app/page.tsx:61-117 | a blank topic posts nothing and changes nothing. Otherwise the page posts the trimmed topic and the selected category, and ends not generating. On a delivered reply it records the prompt and prepends an item with the clock id, the trimmed topic and the display-case category. On any failure the prompt and history are unchanged. The history stays within 50 |
| Home.HomeState.DeleteHistory | app/page.tsx:126-127 | the history becomes the old one without the items with the id; nothing else changes |
| Home.HomeState.ClearHistory | app/page.tsx:134-135 | the history becomes empty; nothing else changes |

## Left out

- Vendor I/O: the vendor client, the `cohere.chat` network call and the module-load check for `COHERE_API_KEY` (route.ts lines 3-13, 117-127). The call is an `Outcome<Content>` input. `COHERE_MODEL` is read through `Host`.
- `request.json()` and `JSON.parse` are oracles. JSON numbers are kept as integers, since nothing in the core inspects them.
- A null element in a reply's segment list: reading `c.text` on null throws, which the source turns into a 500. A `Route.Segment` is always an object.
- Route.LookupOrDefault: the tables are finite maps. A category such as `"constructor"` that names a property of `Object.prototype` would hit that property in JavaScript; the model treats it as unknown and selects `fun`.
- Text.ToLower: maps only the ASCII letters A-Z. JavaScript's `toLowerCase` also maps non-ASCII letters.
- HistoryList.FormatTime: the date shown after a day (`toLocaleDateString`) depends on the locale, so it is kept as an opaque `LocaleDate(timestamp)`. The floating-point hour division is restated as integer division over milliseconds.
- Home.HomeState.GeneratePrompt: the `Date.now()` readings are parameters. The transient `isGenerating == true` while the request is in flight is not in the contract; only the final state is. Two overlapping generations are not modelled.
- Logging: the `console.error` calls in the handler's catch clause (route.ts line 151) and in the page's (page.tsx line 108) have no effect the model can observe.
- Browser state: `localStorage`, toasts, the typing timer, the resize listener, `showHistory`, `handleCopy` and all rendering and animation.
- The mascot, prompt-output and layout components: these are UI only.
