# SecureID front-end, modelled in Dafny

SecureID is a demonstration single-page application for a "decentralized
identity". Its logic lives in four React components and is driven by a
mocked contract object. This project models that logic. It leaves out the
rendering (except the few view conditions listed under "Left out"), the
timers' durations and the browser APIs:

- **Header** (`header.dfy`). The account badge. A connected account is shown
  as its first six characters, `...` and its last four. This follows the
  clamping rules of `String.prototype.substring` (section 22.1.3.25 of
  ECMA-262). An empty account shows the "Connect Wallet" button instead.
- **ChatBot** (`chat_bot.dfy`). The assistant widget.
  - `Reply` is the first-match chain of case-insensitive `includes` tests
    that picks one of five canned answers.
  - `Chat` is the transcript. It starts with the greeting. A non-blank send
    appends the untrimmed user text at once and sets `isTyping`. The reply
    timer is its own step, `CompleteReply`. It appends the answer to the text
    captured at send time and clears `isTyping`.
- **ViewIdentity** (`view_identity.dfy`). The identity viewer.
  - Its initial state, and the load timer that installs the demonstration
    identity and its two credentials.
  - The add-credential action, with its empty-field guard. It calls the
    contract, then a confirmation timer appends the entry to the list as it
    stood at submit time.
  - The verify action. It calls the contract, then a timer sets
    `isVerified` on the identity captured at click time.
- **CreateIdentity** (`create_identity.dfy`). The creation form: it clears
  the error, checks the required fields, calls the contract with the fixed
  image hash `QmXyZ123456789`, and handles success and failure. On success
  the confirmation timer records an identity and moves the application to
  the "view" tab.
- **JsString** (`js_string.dfy`). The JavaScript string built-ins these rely
  on: `toLowerCase` (ASCII letters), `includes`, `trim` and `substring`.
  Each is given with a reference meaning and lemmas linking the two.
- **Ledger** (`ledger.dfy`). The contract as the components see it.
  - A call is recorded in the component's `calls` list.
  - Whether its promise resolved or rejected (`Outcome`) is a parameter of
    the step that made the call.

Each timer callback is a separate method with a `requires`: the timer has
been set. Each user action whose button or form the page renders only under
some condition requires that condition:

- the verify button exists only for a loaded, unverified identity
  (ViewIdentity.js:95-97, 116-132);
- the add form, with its two input fields, exists only once loaded, and its
  button is disabled while an add is under way (ViewIdentity.js:95-97,
  160-188);
- the creation form, with its name and email fields, is mounted only on the
  "create" tab, and its button is disabled while loading
  (CreateIdentity.js:115, App.js:97-104).

The chat widget has no such guard. Several replies can be outstanding at
once, so `Chat.pending` is a queue: the first reply to arrive turns the
typing indicator off even when another reply is still due. That is what the
code does.

A missing required field sets the validation message
(CreateIdentity.js:25-30).

## Model

| member | source | states |
|---|---|---|
| `JsString.ToLower` | ChatBot.js:37 | same length as the input; each character is the ASCII-lowercase of the input's character at that position |
| `JsString.ToLowerHasNoUpper` | ChatBot.js:37 | a lowercased message contains no upper-case ASCII letter |
| `JsString.ToLowerIdempotent` | ChatBot.js:37 | lowercasing an already lowercased text changes nothing |
| `JsString.ToLowerAppend` | ChatBot.js:37 | lowercasing distributes over concatenation |
| `JsString.IncludesIffOccurs` | ChatBot.js:39-45 | `JsString.Includes`, the model of `userMessage.includes(keyword)` in each rule, returns true exactly when the keyword occurs at some position of the message (both directions) |
| `JsString.IncludesInfix` | ChatBot.js:39-49 | a keyword written anywhere in a text, whatever surrounds it, is found by `includes` |
| `JsString.MentionsWrittenKeyword` | ChatBot.js:37-39 | a keyword typed in any letter case anywhere in a text counts as mentioned |
| `JsString.TrimStart` | ChatBot.js:25 | the result is a suffix of the input, everything removed is white space, and the result does not start with white space |
| `JsString.TrimEnd` | ChatBot.js:25 | the result is a prefix of the input, everything removed is white space, and the result does not end with white space |
| `JsString.Trim` | ChatBot.js:25 | `input.trim()` (leading white space removed by `TrimStart`, then trailing by `TrimEnd`): the result is the slice of the input left after cutting white space only from its two ends, and when not empty it neither starts nor ends with white space |
| `JsString.TrimEmptyIffBlank` | ChatBot.js:25 | `input.trim()` is empty exactly when every character of the input is JavaScript white space or a line terminator |
| `JsString.Clamp` | Header.js:21 | a `substring` index ends up within `0..length`: an in-range index is kept as is, a negative one becomes 0 and one past the end becomes the length |
| `JsString.Substring` | Header.js:21 | with in-range indices in order, `substring` is exactly that slice |
| `JsString.SubstringFrom` | Header.js:21 | a start at or below 0 gives the whole text, an in-range start gives the suffix from there, a start past the end gives "" |
| `JsString.SubstringSymmetric` | Header.js:21 | swapping the two index arguments of `substring` gives the same result |
| `JsString.SubstringClamps` | Header.js:21 | out-of-range indices behave as the nearest end of the text |
| `JsString.SubstringPrefix` | Header.js:21 | `substring(0, n)` is the first min(n, length) characters |
| `JsString.SubstringSuffix` | Header.js:21 | `substring(length - n)` is the last min(n, length) characters, a negative start clamping to 0 |
| `Header.Badge` | Header.js:15-27 | the "Connect Wallet" button is shown exactly when the account is empty; otherwise the text is the account's first min(6, len) characters, then `...`, then its last min(4, len) characters, of length min(6, len) + 3 + min(4, len) |
| `Header.LongAccountBadge` | Header.js:21 | an account of 10 or more characters, such as a 42-character wallet address, reads `account[..6] + "..." + account[len-4..]`, exactly 13 characters |
| `Header.ShortAccountBadge` | Header.js:21 | an account of 1 to 3 characters is shown as itself, `...`, and itself again: the negative start of the tail clamps to 0 |
| `ChatBot.Reply` | ChatBot.js:36-49 | the answer to any sent text is one of the five canned texts |
| `ChatBot.AnswersDistinct` | ChatBot.js:40-48 | `ChatBot.Answer`, the five `botResponse` texts, gives a different text for each rule, so two rules share a text only when they are the same rule |
| `ChatBot.ReplyFirstMatch` | ChatBot.js:39-49 | `ChatBot.Classify`, the if/else-if chain over the lowercased message, selects each rule exactly when it is the first whose keywords the message includes, and the fallback exactly when none is included |
| `ChatBot.VerifyOutranksCredential` | ChatBot.js:41-44 | a text mentioning both "verify" and "credential", and no higher rule, gets the verification answer, not the credential one |
| `ChatBot.ReplyIgnoresCase` | ChatBot.js:37 | a text and its lowercased form get the same answer |
| `ChatBot.ThanksAnywhere` | ChatBot.js:45-46 | a text containing "Thank" anywhere never gets the fallback answer |
| `ChatBot.SendKeepsInvariant` | ChatBot.js:23-33 | appending a non-blank user message and queueing its text for a reply keeps the transcript invariant (greeting first, length = 1 + 2 * replies + outstanding, no blank user or queued text) |
| `ChatBot.ReplyKeepsInvariant` | ChatBot.js:35-53 | appending one bot message for the oldest queued text and dropping that text from the queue keeps the transcript invariant, with one more delivered reply |
| `ChatBot.Chat.constructor` | ChatBot.js:4-11 | the transcript is exactly the bot greeting; the input is empty, `isTyping` is false, and no reply is due |
| `ChatBot.Chat.Type` | ChatBot.js:117 | typing sets the input text and nothing else |
| `ChatBot.Chat.Send` | ChatBot.js:23-33 | a blank input changes nothing (transcript, input, `isTyping`, scheduled replies). Otherwise exactly one user message with the untrimmed text is appended at the end, the input is cleared, `isTyping` becomes true, and a reply is scheduled for the captured text. The invariant holds: the greeting comes first, length = 1 + 2 * replies + outstanding, and no user message and no text awaiting a reply is blank |
| `ChatBot.Chat.CompleteReply` | ChatBot.js:35-53 | exactly one bot message is appended after all earlier ones: the answer to the text captured at send time, not to the cleared input. `isTyping` becomes false, the input is untouched and the invariant is kept |
| `ChatBot.Chat.SettledLength` | ChatBot.js:4-53 | with no reply outstanding, after N delivered replies the transcript has 1 + 2N messages |
| `ViewIdentity.Verified` | ViewIdentity.js:85-88 | the verified copy has `isVerified` true and keeps the name, email and image hash |
| `ViewIdentity.VerifiedIdempotent` | ViewIdentity.js:85-88 | verifying an already verified identity gives the same identity; verifying twice is verifying once |
| `ViewIdentity.View` | ViewIdentity.js:95-132 | the loading notice is shown exactly while loading; otherwise the profile of the current identity, with the verify button exactly when it is unverified |
| `ViewIdentity.NoVerifyButtonAfterVerify` | ViewIdentity.js:116-132 | a verified identity is never offered the verify action |
| `ViewIdentity.Viewer.constructor` | ViewIdentity.js:4-23 | empty name, email and image hash; `isVerified` false; loading; no credentials; empty fields; `addingCredential` false; the load timer set; no contract call made |
| `ViewIdentity.Viewer.CompleteLoad` | ViewIdentity.js:23-38 | the identity becomes the demonstration identity, unverified; the credentials are exactly "National ID" then "Driving License"; loading stops; nothing else changes. Since the viewer is blank until loaded, the load never undoes a verification and never removes a credential |
| `ViewIdentity.Viewer.TypeCredentialType` | ViewIdentity.js:167 | typing sets the credential type field |
| `ViewIdentity.Viewer.TypeCredentialHash` | ViewIdentity.js:179 | typing sets the credential hash field |
| `ViewIdentity.Viewer.AddCredential` | ViewIdentity.js:49-76 | an empty type or hash changes no state and makes no contract call. Otherwise exactly one `addCredential(type, hash)` call is made. On rejection `addingCredential` is false and the credentials are unchanged. On resolution `addingCredential` is true and a confirmation is scheduled with the submit-time list and the new entry |
| `ViewIdentity.Viewer.CompleteAddCredential` | ViewIdentity.js:61-70 | the credentials become the submit-time list followed by the new entry, so the length grows by one and the earlier entries stay in order. Both fields are cleared and `addingCredential` is false |
| `ViewIdentity.Viewer.Verify` | ViewIdentity.js:78-93 | one `verifyIdentity` call is made. On resolution a timer is scheduled with the identity as it is at click time. On rejection nothing else changes; the identity is untouched either way |
| `ViewIdentity.Viewer.CompleteVerify` | ViewIdentity.js:84-89 | the identity becomes the captured identity verified, which equals the current identity verified: `isVerified` is true, name, email and image hash are unchanged, and nothing else changes |
| `CreateIdentity.Form.constructor` | CreateIdentity.js:3-9 | empty name and email, not loading, no error, on the "create" tab, no contract call made |
| `CreateIdentity.Form.TypeName` | CreateIdentity.js:71 | typing sets the name field |
| `CreateIdentity.Form.TypeEmail` | CreateIdentity.js:83 | typing sets the email field |
| `CreateIdentity.Form.Submit` | CreateIdentity.js:23-53 | the error is cleared first. An empty name or email sets the validation message, makes no contract call and leaves loading unchanged. Otherwise exactly one `createIdentity(name, email, "QmXyZ123456789")` call is made. Rejection sets the failure message, stops loading, and leaves `hasIdentity` and the tab unchanged. Resolution leaves the error empty, sets loading and schedules the confirmation |
| `CreateIdentity.Form.CompleteCreate` | CreateIdentity.js:42-46 | `hasIdentity` becomes true, the tab becomes "view" and loading stops; the error stays empty |

## Left out

- Rendering (JSX, Tailwind classes, `tailwind.config.js`): presentation only. The view logic kept is the header's account badge (`Header.Badge`) and the viewer's loading notice and verify-button condition (`ViewIdentity.View`).
- Timer durations (1000 ms and 1500 ms): each timer callback is its own step, and timers of the same delay fire in the order they were set.
- `scrollIntoView` and the message-end ref of the chat: DOM side effects.
- The profile image (`handleImageChange`, `FileReader`, `image`, `imagePreview`): browser I/O; the image hash sent is the fixed placeholder either way.
- App.js:
  - the wallet request and its placeholder fallback: provider I/O;
  - the mock contract's return values: calls are recorded and their outcome is an input;
  - the tab buttons and the chat toggle: thin UI composition.
- The contract operations `hasIdentity` and `getIdentityInfo`: none of the modelled components calls them.
- The `catch` branch of `loadIdentity` (ViewIdentity.js:40-43): it guards only the scheduling of a timer, which does not throw.
- Re-running the load effect (ViewIdentity.js:16-47). App rebuilds its mock contract on every re-render, for example when the chat is opened, which re-runs the viewer's `[contract, account]` effect. One second later the identity is reset to the unverified demonstration identity and added credentials are dropped. The model runs the load once, on mount, so `Viewer.CompleteLoad`'s promise that a verification is never undone holds for that first load only.
- Logging with `console.error` and `console.log`.
- `toLowerCase` beyond ASCII: only 'A'..'Z' are mapped.
- Strings are sequences of Unicode scalar values. JavaScript indexes UTF-16 code units, so `length` and `substring` differ for characters outside the Basic Multilingual Plane, and strings holding a lone surrogate cannot be represented.
- Non-string accounts: the header takes the account as a string; an `undefined` account (a wallet returning no account) is not modelled.
- HTML constraint validation: the `required` inputs (CreateIdentity.js:74, 86; ViewIdentity.js:170, 182) and the `type="email"` field (CreateIdentity.js:81) let the browser block a submit before the handler runs. The model covers the handlers' own guards only, so `Form.Submit` and `Viewer.AddCredential` accept inputs the browser would have stopped.
- The creation form unmounting when the tab switches to "view": the form stops receiving events, and the model's requires allow no further submit.
