# TestStellar core, modelled in Dafny

TestStellar is a browser extension. It spots multiple-choice questions (MCQs) that a user selects on a page and answers them through the Gemini API. This project models and proves the three sequential cores of the extension:

- **The page observer** (`content.js`):
  - It classifies the selected text as an MCQ: a length gate, a prefilter, then the current pattern list.
  - It hashes the selection with 32-bit FNV-1a over UTF-16 code units. The empty text hashes to 0.
  - It suppresses repeated selections. A selection is not forwarded within 250 ms of the last send, or while its hash is the last one sent or among the five most recent. A hash shifted out of that window can be forwarded again.
  - It keeps the overlay bookkeeping and runs the state transitions of its runtime message handler: `toggleActive`, `setActive`, `updatePatterns`, the focus-lock and selection-freedom flags, and `getStatus`.
- **The service worker** (`background.js`):
  - `cleanQuestionText` normalises the question and `createMCQPrompt` wraps it in the fixed instructions.
  - `tryGeminiModel` sorts one API reply into throw, `null` or an answer.
  - `getGeminiAnswer` tries "gemini-2.0-flash" and then "gemini-1.5-flash".
  - `extractAnswerOnly` reduces the reply to an option letter, "LETTER: content", or the first clause of a direct answer.
  - `handleMCQQuery` raises exactly one notification per context-menu query.
- **The popup** (`popup.js`):
  - The API-key format check and the masked display of the stored key.
  - The save / edit / remove flow over the stored key and the popup's controls.

Some collaborators are not computed inside the model. Each enters as a parameter or a log:

- `Date.now()` and `hasRuntime()` become arguments.
- The network is a function from the request to the reply.
- The regex matcher for the replaceable patterns is an oracle `test`, and whether a source compiles is an oracle `compiles`.
- Storage is a field or argument of type `Option<string>`, or a read that may fail.
- `confirm()` and `testApiKey` are arguments.
- Notifications go to a log of (title, message) pairs.

Modules:

| file | module | source |
|---|---|---|
| `wrappers.dfy` | `Wrappers` | `Option` |
| `jsstring.dfy` | `JsString` | the JavaScript string semantics the code relies on: the `\s`/`trim` white-space class, `\w`, ASCII case folding for `/i`, UTF-16 code units and `length` |
| `selection_hash.dfy` | `Int32`, `SelectionHash` | `hashText` and the signed 32-bit shift arithmetic it uses |
| `content_script.dfy` | `ContentScript` | the page observer's `STATE`, as the class `PageObserver` |
| `question_text.dfy` | `QuestionText` | `cleanQuestionText`, `createMCQPrompt` |
| `answer_text.dfy` | `AnswerText` | `extractAnswerOnly` |
| `background.dfy` | `Background` | `getOptimizedConfig`, `tryGeminiModel`, `getGeminiAnswer`, `handleMCQQuery`, the listeners; the notification log as the class `Worker` |
| `popup.dfy` | `Popup` | `isValidApiKey`, `updateMaskedKey`, and the popup's state as the class `PopupState` |

Each fixed regular expression is written out as a scan over the string:

- in `cleanQuestionText`: `/\s+/g`, the question prefix, exponents, ordinals, the trailing `?`;
- in `extractAnswerOnly`: the answer prefix, the letter rules, the connector split;
- in `isValidApiKey`: the key alphabet.

The exponent and ordinal replaces are left-to-right scans that resume after each match (`GlobalReplace`). The `/\s+/g` replace is the character scan `CollapseScan`. The anchored `/\s*\?\s*$/g` replace is `StripTrailingQuestionMark`.

Four points about the code are easy to get wrong, and the model follows the code on each:

- **The final "?":** `cleanQuestionText` first strips a trailing "?" with the white space around it (background.js:218). It then appends "?" itself when the text contains no "?" and does not end in "." or "!" (background.js:220-222). So the cleaned question normally ends in "?".
- **"<A-E><punct><rest>" replies:** the letter-at-start rule (background.js:262-267) never decides an answer. Whatever it matches, the single-letter rule at background.js:257-260 matched first, so "B) Paris" yields "B". The closing `/^[A-E]$/i` test (background.js:275-276) never succeeds either. `AnswerText.LetterAtStartIsShadowed`, `AnswerText.FallbackIsNeverLetterOnly` and `AnswerText.LetterThenMarkReply` prove this.
- **Repeated context-menu queries:** the context-menu path (background.js:9-13) goes straight to `handleMCQQuery` and never consults the content script's dedup state. The worker's message listener has no `prepareSelection` case (background.js:292-299). So the model keeps the two pipelines apart, and a second query for the same selection is answered again.
- **Lengths:** `length` counts UTF-16 code units, not characters (content.js:47-48, 55-56 and 316, popup.js:152). `JsLength` models this.

## Model

| member | source | states |
|---|---|---|
| SelectionHash.HashText | content.js:44-52 | the loop returns the page observer's hash of the text's UTF-16 code units: 0 for the empty text, otherwise FNV-1a from 0x811c9dc5 (loop invariant: the fold of the remaining units from `h` equals the fold of all units) |
| SelectionHash.TextHashCases | content.js:44-46 | the empty string hashes to 0, not to the offset basis; any other string hashes to the FNV-1a fold from 0x811c9dc5 |
| SelectionHash.SourceRoundIsFnvStep | content.js:48-49 | one round as written (`h ^= c`, then `h + (h<<1) + (h<<4) + (h<<7) + (h<<8) + (h<<24)` on signed 32-bit values, `>>> 0`) equals `(h xor c) * 16777619 mod 2^32` |
| SelectionHash.FnvFoldAppend | content.js:47-50 | hashing is a left fold: the hash of `a + b` continues from the hash of `a` |
| SelectionHash.TextHashExtend | content.js:47-50 | appending one code unit to a non-empty text applies exactly one more FNV-1a round to its hash |
| JsString.Trim | content.js:314 | `trim()` returns an infix with no white space at either end, removing white space only |
| JsString.Utf16 | content.js:47-48 | a string's code units: one per character in the Basic Multilingual Plane, two above it; empty exactly for the empty string |
| JsString.JsLengthOfBmp | popup.js:152 | for text inside the Basic Multilingual Plane, `length` is the character count |
| ContentScript.AnyMatches | content.js:58 | `patterns.some(test)` is true iff some pattern in the list matches |
| ContentScript.IsMCQ | content.js:54-59 | true iff the length is in [10, 5000] code units, the prefilter matches, and some current pattern matches; false for any text shorter than 10 or longer than 5000 whatever its content |
| ContentScript.PushRecent | content.js:221-224 | push then shift once past five: the hash ends the window, the window keeps at most five entries dropping the oldest first, and stays duplicate-free when the hash was not in it |
| ContentScript.PageObserver.constructor | content.js:18-36 | the initial `STATE`: active, focus lock and selection freedom on, no hashes, cooldown clock at 0, the five default patterns |
| ContentScript.PageObserver.ClearOverlays | content.js:152-157 | `overlayHash` becomes null and the overlay timers are emptied |
| ContentScript.PageObserver.DrawOverlay | content.js:159-188 | the same hash drawn again changes nothing; otherwise clear, and with ranges keep one timer per rectangle and record the hash |
| ContentScript.PageObserver.SendSelection | content.js:213-231 | without a runtime, within 250 ms of the last send, with the last hash, or with a recent hash: nothing is sent and no field changes; otherwise `lastHash` and `lastSentAt` are set and the hash is pushed onto the window; the window invariant (at most five distinct hashes, newest equal to `lastHash`) is kept |
| ContentScript.PageObserver.ProcessSelection | content.js:311-321 | inactive: nothing at all; a trimmed selection that is not an MCQ: overlays cleared, nothing sent; an MCQ: its hash is drawn (kept when already drawn, else cleared and recorded only when the selection has ranges), and it is sent exactly when the runtime is there and the hash is not suppressed, in which case `lastHash`, `lastSentAt` and the recent window (`PushRecent`) are updated; otherwise none of those change |
| ContentScript.PageObserver.Forward | content.js:318-320 | for an MCQ text: the overlay outcome of `DrawOverlay` and the send outcome of `SendSelection` for the text's hash, with suppression judged on the state before the call |
| ContentScript.PageObserver.GetSelection | content.js:235-239 | replies with the trimmed selection and whether it classifies as an MCQ |
| ContentScript.PageObserver.ClearHighlights | content.js:240-244 | overlays cleared, success reported |
| ContentScript.PageObserver.ToggleActive | content.js:250-254 | `active` flips; becoming inactive clears `overlayHash` and the timers, staying active leaves them |
| ContentScript.PageObserver.SetActive | content.js:255-259 | `active` becomes the value's truthiness; inactive clears the overlays |
| ContentScript.PageObserver.UpdatePatterns | content.js:260-271 | a non-array payload changes nothing; otherwise `invalid` lists exactly the entries that fail to compile, in order, and `patterns` becomes the compiled entries in order iff at least one compiled; the reply counts the patterns now in use |
| ContentScript.PageObserver.GetStatus | content.js:272-286 | the reply reports the flags, the pattern count and the configured constants |
| ContentScript.PageObserver.ToggleFocusLock | content.js:287-291 | the focus-lock flag flips and is reported |
| ContentScript.PageObserver.SetFocusLock | content.js:292-296 | the focus-lock flag becomes the value |
| ContentScript.PageObserver.ToggleSelectionFreedom | content.js:297-301 | the selection-freedom flag flips and is reported |
| ContentScript.PageObserver.SetSelectionFreedom | content.js:302-306 | the selection-freedom flag becomes the value |
| ContentScript.PageObserver.Teardown | content.js:343-353 | inactive, no overlay hash, no overlay timers |
| ContentScript.CompiledMembers | content.js:263-268 | the adopted patterns are exactly the entries that compile |
| ContentScript.RejectedMembers | content.js:261-267 | the `invalid` list holds exactly the entries that do not compile |
| ContentScript.CompiledRejectedPartition | content.js:264-267 | every entry lands in exactly one of the two lists |
| ContentScript.SecondSendSuppressed | content.js:216-219 | once a hash has been sent, sending it again is suppressed whatever the time |
| QuestionText.CollapseSpaces | background.js:212 | `replace(/\s+/g, " ")`: no double white space, every remaining white space is a plain space, the non-space characters are kept in order, and the text starts with white space iff the input does |
| QuestionText.CollapseShape | background.js:212 | the character scan behind `CollapseSpaces` has that shape, by induction over the text |
| QuestionText.CollapseRunToSpace | background.js:212 | a maximal run of white space between two non-space characters (or an end) becomes exactly one space, and the text on either side is collapsed on its own |
| QuestionText.CollapseAppend | background.js:212 | the scan works piece by piece when no run of white space straddles the cut |
| QuestionText.CollapseOfRun | background.js:212 | the scan turns a non-empty run of white space into a single space |
| QuestionText.CollapseOfNonSpaces | background.js:212 | the scan leaves text without white space unchanged |
| QuestionText.CollapseKeepsText | background.js:212 | collapsing and trimming change white space only |
| QuestionText.QuestionPrefixLength | background.js:214 | the removed prefix is "Question" (8), else "Q." (2), else "Q", its whole run of digits, one "." when the digits are followed by one, and the whole run of white space after that; nothing is removed iff none of these starts the text (case-insensitive) |
| QuestionText.StripQuestionPrefix | background.js:214 | what remains is a suffix of the text |
| QuestionText.GlobalReplaceDeletesOnlySpace | background.js:216-217 | a global replace whose every match only deletes white space keeps the first character and the non-space characters in order, and creates no double white space |
| QuestionText.PowerAtDeletesOnlySpace | background.js:216 | "$1^$2" for `(\d+)\s*\^\s*(\d+)` only deletes white space |
| QuestionText.OrdinalAtDeletesOnlySpace | background.js:217 | "$1$2" for `(\d+)\s*(st\|nd\|rd\|th)\b` only deletes white space |
| QuestionText.JoinPowers | background.js:216 | `replace(/(\d+)\s*\^\s*(\d+)/g, "$1^$2")` keeps the first character and the non-space characters in order, and creates no double white space |
| QuestionText.JoinOrdinals | background.js:217 | `replace(/(\d+)\s*(st\|nd\|rd\|th)\b/g, "$1$2")` keeps the first character and the non-space characters in order, and creates no double white space |
| QuestionText.PowerAtPositions | background.js:216 | digits, white space, "^", white space and digits not followed by another digit are one match, replaced by the two numbers around "^" |
| QuestionText.OrdinalAtPositions | background.js:217 | digits, white space and an ordinal suffix ending a word are one match, replaced by the number and the suffix |
| QuestionText.PowersJoined | background.js:216 | "2 ^ 3" becomes "2^3": the white space around the caret between two numbers is removed and nothing else |
| QuestionText.OrdinalsJoined | background.js:217 | "3 rd" becomes "3rd": the white space between a number and its ordinal suffix is removed and nothing else |
| QuestionText.StripTrailingQuestionMark | background.js:218 | `replace(/\s*\?\s*$/g, "")`: when the text without trailing white space ends in "?", the result is the prefix before that "?" and the white space around it (it ends in a non-space character or is empty, and only that "?" and white space were removed); otherwise the text is unchanged |
| QuestionText.StripTrailingQuestionMarkSqueeze | background.js:218 | at most one character besides white space is removed, and it is the final "?" |
| QuestionText.NormalisedQuestion | background.js:212-218 | after collapsing, trimming, prefix removal, joining and dropping the final "?", the text has no two adjacent white-space characters |
| QuestionText.NormalisedKeepsText | background.js:212-218 | up to dropping the final "?", only white space changes after the prefix |
| QuestionText.CleanQuestionText | background.js:211-225 | after the first five steps, "?" is appended exactly when the text has no "?" and does not end in "." or "!", and otherwise the text is returned as it is; the result has no double white space and contains "?" or ends a sentence |
| QuestionText.ClosingMarkTightened | background.js:218-222 | when the joined text is a question, white space and "?", the cleaned text is the question with "?" directly after its last word |
| QuestionText.SpacedMarkTightened | background.js:211-222 | for a plain question (words and single spaces, no digits, no leading "q") without "?" or a final "." or "!", the question followed by " ?" is cleaned to the question followed by "?" ("What is X ?" becomes "What is X?") |
| QuestionText.PlainQuestionGetsMark | background.js:211-222 | such a plain question without "?" is cleaned to itself followed by "?" |
| QuestionText.MarkedOrStoppedQuestionKept | background.js:211-222 | a plain question that has a "?" before its end or ends in "." or "!" is cleaned to itself, with no "?" added ("Is it true.", "What? is it") |
| QuestionText.JoinedOfPlainText | background.js:211-217 | a plain question passes the collapse, trim, prefix, exponent and ordinal steps unchanged |
| QuestionText.ReplaceWithoutMatches | background.js:216-217 | a global replace that matches nowhere leaves the text unchanged |
| QuestionText.CleanQuestionKeepsText | background.js:211-225 | besides white space and the prefix, the cleaned question keeps the selection's characters in order; a final "?" may be dropped or added |
| QuestionText.CreateMCQPrompt | background.js:227-240 | the prompt is the fixed instructions, the question, then "\n\nAnswer:" |
| QuestionText.PromptRoundTrip | background.js:227-240 | the question can be read back from the prompt, so distinct questions give distinct prompts |
| AnswerText.AnswerPrefixLength | background.js:245-248 | the first alternative that matches, case-insensitively, in the order "Answer:" (7), "The answer is" (13), "Correct answer is" (17), "Option" (6), "Choice" (6), followed by the greedy separator `\s*:?\s*`; nothing is removed iff no alternative matches |
| AnswerText.SeparatorEnd | background.js:246 | `\s*:?\s*` takes white space and at most one colon, and stops before a non-space character that it could not take |
| AnswerText.NoAnswerPrefix | background.js:245-248 | a reply whose first letter is not a, t, c or o keeps its text |
| AnswerText.StripAnswerPrefix | background.js:245-248 | what remains is a suffix and starts with a non-space character when the reply did |
| AnswerText.SpacedRest | background.js:250 | `\s*(.+)` matches iff some character is not a line terminator; the trimmed group is trimmed and on one line |
| AnswerText.SpacedRestSpan | background.js:250 | the group is the rest of the line after the leading white space, up to the end or the first line terminator, trimmed |
| AnswerText.LetterColonAnswer | background.js:250-255 | a match of `/^([A-E])\s*:\s*(.+)/i` needs an option letter at the start, and yields that letter upper-cased followed by ": " |
| AnswerText.LetterColonMatches | background.js:250 | the rule applies exactly when the reply starts with an option letter, then white space, then a colon, followed by some character that is not a line terminator |
| AnswerText.LetterColonContent | background.js:250-254 | a "letter, colon, rest" reply yields the upper-case letter, ": ", and a trimmed single-line content, non-empty when the reply does not end in white space |
| AnswerText.LetterColonSpan | background.js:250-254 | the content is taken from the text itself: white space up to the colon, white space after it, then the rest of that line up to a line terminator or the end, trimmed |
| AnswerText.LetterAtStartIsShadowed | background.js:257-267 | whatever `/^([A-E])[\s\.\)\-]\s*(.+)/i` matches, `/^([A-E])\b/i` matched first, so lines 262-267 never decide the answer |
| AnswerText.FallbackIsNeverLetterOnly | background.js:269-277 | the closing `/^[A-E]$/i` test never succeeds, so lines 275-276 are unreachable |
| AnswerText.ExtractAnswerRules | background.js:242-280 | extractAnswerOnly is three rules in order: letter-colon, single letter, otherwise the trimmed text before the first connector word and the first newline |
| AnswerText.BeforeConnector | background.js:269-271 | the split keeps the text before the first whole-word connector (because, since, as, explanation, reasoning, note, therefore; any case) |
| AnswerText.BeforeNewline | background.js:272 | the split keeps the text before the first line feed |
| AnswerText.ExtractAnswerOnly | background.js:242-280 | the extracted answer never starts or ends with white space and never contains a line feed; the letter-at-start rule and the closing letter test are never the ones that answer |
| AnswerText.SingleLetterReply | background.js:250-260 | when the letter-colon rule does not apply and the text starts with an option letter followed by a non-word character or the end, the answer is that letter, upper-cased |
| AnswerText.AnnouncedLetterReply | background.js:245-260 | "The answer is" (any case), white space, and an option letter yields that letter, upper-cased |
| AnswerText.LetterThenMarkReply | background.js:257-260 | an option letter followed by punctuation other than ":" (as in "B) Paris") yields just the letter |
| AnswerText.LetterColonReply | background.js:250-255 | "d : page" style replies come back as "D: page" |
| AnswerText.FormattedReplyIsKept | background.js:250-255 | a reply already in the form "LETTER: content" comes back unchanged, even when the content starts with "because" |
| Background.GetOptimizedConfig | background.js:184-209 | 30 output tokens for every model; one candidate and top-k 40 exactly for the two known models |
| Background.BuildRequest | background.js:86-113 | the URL carries the model and the key; the prompt is `createMCQPrompt` of the cleaned question, from which the cleaned question can be read back; the configuration is the model's |
| Background.ReadResponse | background.js:115-177 | throws on no response, a non-2xx status, a body that is not JSON or has `error`, MAX_TOKENS, content without `parts`, or a first part without text; `null` without a usable first part; otherwise `extractAnswerOnly` of the trimmed first part |
| Background.TryGeminiModel | background.js:84-182 | one call to the network with the request for this model, classified as above |
| Background.AttemptOutcome | background.js:115-177 | throws exactly on the rejected replies; returns null exactly when an accepted reply has no first part; an answer it returns comes from a first part and is trimmed and on one line |
| Background.GetGeminiAnswer | background.js:47-82 | returns the first truthy result in model order, or null; the models called are exactly those up to and including the first truthy one |
| Background.FirstModelWins | background.js:57-59 | a truthy first attempt is returned and the second model is never called |
| Background.FallbackToSecondModel | background.js:61-77 | an error or falsy value from the first model, rate limit or not, moves on to the second |
| Background.NoAnswerIffAllFalsy | background.js:80-81 | null comes back iff every attempt throws or is falsy, and then every model was called |
| Background.AnswerComesFromLastCall | background.js:50-60 | a returned answer is the last model's result and every earlier model failed |
| Background.QueryNotification | background.js:15-45 | "API Key Required" iff the stored key is missing or empty; a failed read gives "Error"; with a key, the first model answer (never empty) when there is one, else "Error" |
| Background.QueryCalls | background.js:15-45 | the models called are a prefix of the model list, empty exactly when there is no usable key |
| Background.Worker.HandleMCQQuery | background.js:15-45 | exactly one notification is appended per query, and the models called are logged |
| Background.Worker.OnContextMenuClicked | background.js:9-13 | only the "ask-teststellar" item with a non-empty selection starts a query; anything else changes nothing |
| Background.CheckApiKeyMatchesQueryGate | background.js:292-299 | the `checkApiKey` reply is true exactly when a query would get past the key check |
| Popup.IsValidApiKey | popup.js:151-153 | a key is valid iff it has at least 20 characters, all in [A-Za-z0-9_-] |
| Popup.ShortKeyRejected | popup.js:151-153 | a 15-character key is rejected |
| Popup.ValidKeyIsTrimmed | popup.js:83-90 | a valid key has no surrounding white space, so trimming the input never alters it |
| Popup.MaskedKey | popup.js:52-62 | 20 units: for keys longer than 8 units, the first 4, twelve bullets, the last 4; otherwise twenty bullets |
| Popup.MaskHidesMiddle | popup.js:52-58 | keys that agree on their first and last four units look the same, so the middle never shows |
| Popup.ShortKeysLookAlike | popup.js:59-61 | all keys of at most 8 units show the same placeholder |
| Popup.PopupState.constructor | popup.js:25-40 | a stored non-empty key shows the key-exists section with its mask; anything else, or a failed read, shows the entry section |
| Popup.PopupState.OnInput | popup.js:75-79 | the save button is disabled exactly when the trimmed input is empty; errors are cleared |
| Popup.PopupState.HandleSaveApiKey | popup.js:82-120 | empty or malformed input: an error, no network call, nothing else changes; a well-formed key is tested once; storage is written with the trimmed key only when the test passes and the write succeeds, and then the input is cleared and the mask and key-exists section shown; after a test the button is enabled and reads "Save" (`SaveOutcome`) |
| Popup.PopupState.Submit | popup.js:98-119 | the well-formed key is tested once; rejected: an error; not written: an error; accepted and written: stored, input cleared, mask and key-exists section shown, success banner; the button ends enabled |
| Popup.PopupState.OnKeyPress | popup.js:69-73 | Enter has exactly the outcome of a save on the current input (`SaveOutcome`); any other key changes nothing |
| Popup.PopupState.HandleEditApiKey | popup.js:122-134 | the input is prefilled with the stored key or "", and the entry section is shown; a failed read shows an error |
| Popup.PopupState.HandleRemoveApiKey | popup.js:136-149 | declined: nothing changes; confirmed: the key is removed and the entry section shown, or on failure an error and nothing removed |

## Left out

- The rendering side of overlays is not modelled: client rectangles, scroll offsets, the `MAX_RANGES` cap, and the elements created and removed (content.js:163-180). `DrawOverlay` takes the per-rectangle timers as an argument.
- DrawOverlay: the deferred render (`requestIdleCallback`, content.js:183-187) is treated as running at once, so the model does not capture a clear arriving between scheduling and rendering.
- The processing indicator is not modelled: `boundedTarget`, `addProcessingIndicator`, the `showProcessing` message, and the contextmenu and visibility listeners of content.js. Its ancestor walk depends on layout.
- Timers and debouncing are not modelled: `debouncedProcess`, overlay expiry, error and success banner expiry. Time enters only as the `now` argument of `SendSelection`.
- Focus lock and selection-freedom plumbing are not modelled: `initFocusLock`, `applySelectionFreedom`, the MutationObserver, style injection. Only the flags the handler flips are modelled.
- The replaceable patterns are user-supplied regular expressions (content.js:260-271), so matching them and compiling them are the oracles `test` and `compiles`. The prefilter is the fixed regular expression `PREFILTER` (content.js:38). It is left to the same oracle `test` and not written out as a scan.
- The `url` of the `prepareSelection` message and the `runtime.sendMessage` call are not modelled. A send is the returned `PreparedSelection`.
- Strings are Dafny strings of Unicode scalar values. Text with unpaired UTF-16 surrogates, which JavaScript allows, cannot be expressed.
- JSON parsing and the error-message strings built on failure (background.js:116-133, 143-147) are not modelled. A reply is the `FetchResult` datatype and every failure is `Threw`.
- The floating-point generation parameters `temperature` and `topP` are not modelled.
- Logging is not modelled: `console`, the rate-limit message at background.js:64-74 (that branch only logs, then moves on like any other error), and the banner markup.
- Notification icon and priority are not modelled, nor the context-menu creation at install time (background.js:1-7).
- The network calls `fetch` and `testApiKey` are functions of their request. Each model is asked at most once per query, so a deterministic oracle loses nothing.
- `chrome.storage` is a single `Option<string>` with reads and writes that may fail. Concurrent access from the popup and the worker is not modelled.
- Popup.PopupState.HandleSaveApiKey, Popup.PopupState.OnKeyPress and Background.Worker.HandleMCQQuery each run as one atomic step. The source awaits inside them, and interleavings at those points are not modelled, such as Enter pressed again while a `testApiKey` call is pending.
- The popup's `focus()` call and the five-second clearing of errors are not modelled.
- Background.GetGeminiAnswer: it takes the outcome of `tryGeminiModel` per model as a function (`ModelAttempt` builds it from the question, the key and the network), rather than calling `TryGeminiModel` itself.
- SelectionHash.HashText: its contract is stated through the function `TextHash`. The empty-string case and the FNV-1a fold are spelled out in `SelectionHash.TextHashCases`.
