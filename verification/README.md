# SpamGuardian core in Dafny

SpamGuardian is a browser application that classifies e-mail text as spam or
not spam. This project models the two pieces of it that hold logic.

- The **text normaliser** `preprocessText` (`services/textProcessor.ts`) has
  five steps: lower-case, delete HTML-like runs, delete URLs, delete
  everything that is not an ASCII letter or whitespace, then collapse
  whitespace and trim. Its companion `getTokenCount` counts the pieces of a
  whitespace split.
- The **pipeline orchestrator** in `App.tsx` drives a four-stage progress
  list (`Data Validation`, `Text Preprocessing`, `Feature Extraction
  (TF-IDF)`, `Model Inference`). It also holds a top-level status (idle,
  loading, success, error), an optional result and an optional error message.

Each regular-expression replacement is a recursive function over
`seq<char>` with JavaScript's semantics: leftmost match, global replacement,
no overlapping matches.

- `<[^>]*>?` is greedy and its `>` is optional, so an unclosed `<` deletes
  the rest of the string.
- `https?:\/\/\S+|www\.\S+` needs at least one non-whitespace character
  after the prefix. It is not anchored to a word boundary. Its prefixes hold
  no whitespace and `\S+` is greedy, so a match is always the whole leading
  non-whitespace run.
- `split(/\s+/)` follows the ECMAScript split algorithm: the empty pieces at
  either end are kept, and `""` splits into `[""]`.

The whitespace steps and the token count each have an independent
partner:

- `Trim(Collapse(x))` equals a reference definition, the list of words
  joined by single spaces.
- `replace(/\s+/g, ' ')` equals `split(/\s+/).join(' ')`.
- The token count equals one plus a character-by-character count of
  whitespace runs.

The deleting steps are pinned down by what they keep and what they delete
(`StripTagsPrefix`, `StripTagsClosedTag`, `StripTagsUnclosedTag`,
`StripUrlsPrefix`, `StripUrlsDeletesWord`, `StripUrlsAcrossSpace`,
`KeepLettersAppend`, `KeepLettersKeepsAll`, `KeepLettersDropsAll`), and
the whole normaliser by its output shape, its idempotence and its
plain-text characterisation.

The classifier `classifyEmail` (`services/geminiService.ts`) is an oracle.
Its parsed reply, or its failure, is a parameter. Only what the client adds
to that reply is modelled: the metadata and the single failure message.

React applies the setters called between two `await`s as one batch. A run
of `handleClassify` is therefore five batches of state updates, and the
user observes the state after each batch (`ClassifyTrace`). A user session
is a sequence of events: edit the text, run a prediction whose classifier
answers some outcome, or clear the form. While the status is loading, the
text area and both buttons are disabled. The prediction button is also
disabled while the input is blank. The reachable-state invariant is proved
for every state observed in every session.

Files:

- `wrappers.dfy`: `Option`.
- `chars.dfy`: character classes. JavaScript `\s` is the ECMAScript
  WhiteSpace and LineTerminator code points, which is also the set `trim`
  strips. Lower-casing is ASCII-only.
- `whitespace.dfy`: the whitespace operations and their reference
  definitions.
- `text_processor.dfy`: the normaliser and the token counter.
- `text_properties.dfy`: what each step deletes and keeps, idempotence, and
  the plain-text characterisation.
- `text_examples.dfy`: worked inputs.
- `classifier.dfy`: the classifier client's result record.
- `pipeline.dfy`: the orchestrator state machine and its invariant.

## Model

| member | source | states |
|---|---|---|
| Chars.ToLower | services/textProcessor.ts:10 | lower-casing leaves no capital letter and changes no other character; a capital becomes the lower-case letter that the inverse map `ToUpper` sends back to it; letters, whitespace and `<` keep their class |
| Chars.ToLowerUndoesUpper | services/textProcessor.ts:10 | lower-casing undoes upper-casing on `a`-`z`, so the case maps are inverse bijections between the two alphabets |
| TextProcessor.LowerCase | services/textProcessor.ts:10 | lower-casing keeps the length, maps each character through `Chars.ToLower` (this clause restates the definition), and leaves no capital letter |
| TextProperties.LowerCaseOfLower | services/textProcessor.ts:10 | lower-casing text that has no capital letters changes nothing |
| TextProcessor.StripTags | services/textProcessor.ts:13 | no `<` survives the HTML step, and its output is never longer than its input |
| TextProperties.StripTagsNoAngle | services/textProcessor.ts:13 | text without `<` passes the HTML step unchanged |
| TextProperties.StripTagsPrefix | services/textProcessor.ts:13 | text before the first `<` is kept verbatim, and the step continues on the rest |
| TextProperties.StripTagsClosedTag | services/textProcessor.ts:13 | a `<` deletes everything up to and including the next `>`; what precedes it is kept |
| TextProperties.StripTagsUnclosedTag | services/textProcessor.ts:13 | a `<` with no later `>` deletes everything to the end of the string |
| TextProcessor.StripTagsSubset | services/textProcessor.ts:13 | every character the HTML step keeps comes from its input |
| TextProcessor.UrlMatchLength | services/textProcessor.ts:16 | a URL match starts at a position exactly when `https://`, `http://` or `www.` begins there and a non-whitespace character follows it; the match then covers the whole leading non-whitespace run |
| TextProcessor.StartsUrlIsWord | services/textProcessor.ts:16 | a URL match starts with a non-whitespace character and its leading non-whitespace run is longer than four characters |
| TextProperties.StartsUrlInWord | services/textProcessor.ts:16 | when a URL match starts, the leading non-whitespace run on its own already starts a match |
| TextProperties.StripUrlsDeletesWord | services/textProcessor.ts:16 | a URL match deletes exactly its non-whitespace run: a run that starts a match and is followed by whitespace or the end disappears, and the step continues on what follows |
| TextProperties.StartsUrlExtend | services/textProcessor.ts:16 | extending a string that starts with a URL match keeps the match: `\S+` needs only one character |
| TextProcessor.StripUrls | services/textProcessor.ts:16 | only that the URL step is never longer than its input; the lemmas StripUrlsPrefix (built on the one-step unfolding helper StripUrlsNoMatch), StripUrlsDeletesWord, StripUrlsAcrossSpace, StripUrlsClean and StripUrlsNoUrl fix what it keeps and deletes |
| TextProperties.StripUrlsPrefix | services/textProcessor.ts:16 | text in which no position starts a match is kept verbatim whatever follows it, so the characters before a match that starts inside a word survive |
| TextProperties.StripUrlsClean | services/textProcessor.ts:16 | after the URL step no position of the text starts a URL match |
| TextProperties.StripUrlsNoUrl | services/textProcessor.ts:16 | text in which no position starts a URL match passes the URL step unchanged |
| TextProperties.StripUrlsAcrossSpace | services/textProcessor.ts:16 | a part that ends in whitespace and holds no match is kept verbatim, and the step continues independently on what follows |
| TextProperties.NoUrlWithoutPunctuation | services/textProcessor.ts:16 | text without `:` and `.` contains no URL match |
| TextProcessor.StripUrlsSubset | services/textProcessor.ts:16 | every character the URL step keeps comes from its input |
| TextProcessor.KeepLetters | services/textProcessor.ts:19 | only that the letter step is never longer than its input; KeepLettersShape states which characters it keeps |
| TextProcessor.KeepLettersShape | services/textProcessor.ts:19 | a character survives the letter step exactly when it is an ASCII letter or whitespace and occurs in the input |
| TextProperties.KeepLettersAppend | services/textProcessor.ts:19 | the letter step works character by character: it distributes over concatenation |
| TextProperties.KeepLettersKeepsAll | services/textProcessor.ts:19 | text made only of letters and whitespace passes the letter step unchanged |
| TextProperties.KeepLettersDropsAll | services/textProcessor.ts:19 | text with no letter and no whitespace is deleted entirely |
| Whitespace.Collapse | services/textProcessor.ts:22 | the collapse is never longer than its input, and on non-empty input it starts with the input's first character, or a space when that is whitespace |
| Whitespace.CollapseShape | services/textProcessor.ts:22 | after the collapse every whitespace character is one plain space followed by a non-whitespace character or the end, and every other character comes from the input |
| Whitespace.JoinSplitIsCollapse | services/textProcessor.ts:22 | `replace(/\s+/g, ' ')` equals joining the pieces of `split(/\s+/)` with single spaces |
| Whitespace.CollapseSingleSpaced | services/textProcessor.ts:22 | text that is already single-spaced is not changed by the collapse |
| Whitespace.Trim | services/textProcessor.ts:22 | the trimmed text is empty exactly when the input is all whitespace; otherwise it starts and ends with non-whitespace; it keeps only input characters; it is normalised when the input is single-spaced |
| Whitespace.TrimNormalised | services/textProcessor.ts:22 | trimming normalised text changes nothing |
| Whitespace.SquashIsJoinWords | services/textProcessor.ts:22 | collapse followed by trim equals the maximal non-whitespace runs joined by single spaces |
| TextProcessor.PreprocessText | services/textProcessor.ts:9-25 | the output holds only `a`-`z` and spaces, has no space at either end and never two in a row, and is never longer than the input |
| TextProcessor.LettersAreLower | services/textProcessor.ts:10-19 | after lower-casing, every character that survives the three deleting steps is a lower-case letter or whitespace |
| TextProcessor.SquashShape | services/textProcessor.ts:22 | collapsing and trimming lower-case letters and whitespace gives lower-case words separated by single spaces |
| TextProperties.PreprocessNoMarkup | services/textProcessor.ts:9-25 | the output contains no `<` and no URL match |
| TextProperties.PreprocessIdempotent | services/textProcessor.ts:9-25 | normalising normalised text changes nothing |
| TextProperties.PreprocessPlainText | services/textProcessor.ts:10-22 | for input with no `<` and no URL match, the output is the words of the lower-cased letters and whitespace, in order, joined by single spaces |
| TextProcessor.GetTokenCount | services/textProcessor.ts:27-29 | the count is at least 1 and equals one plus the number of maximal whitespace runs |
| Whitespace.SplitWs | services/textProcessor.ts:28 | the split yields at least one piece, and no piece contains whitespace |
| Whitespace.SplitCount | services/textProcessor.ts:28 | `split(/\s+/)` yields one more piece than the text has maximal whitespace runs |
| Whitespace.SplitNormalised | services/textProcessor.ts:28 | on non-empty normalised text the split yields exactly its words, with no empty piece at either end |
| TextProperties.TokenCountOfPreprocessed | services/textProcessor.ts:27-29 | the token count of normaliser output is its number of words when it is non-empty, and 1 when it is empty |
| TextExamples.FreeMoney | services/textProcessor.ts:19 | `free!money` normalises to `freemoney`: punctuation between letters is deleted, not turned into a space |
| TextExamples.UnclosedTag | services/textProcessor.ts:13 | `a < b` normalises to `a` |
| TextExamples.UnanchoredUrl | services/textProcessor.ts:16 | `xwww.foo` normalises to `x` |
| TextExamples.BarePrefix | services/textProcessor.ts:16-19 | `http:// ` is no URL match; its punctuation is deleted later, leaving `http` |
| TextExamples.Spam | services/textProcessor.ts:9-25 | `WIN FREE MONEY NOW!!! Click http://scam.example` normalises to `win free money now click` |
| TextExamples.TokenCounts | services/textProcessor.ts:28 | the token count is 1 for the empty string, 2 for ` a` and for `a `, and 2 for `win  free` |
| Classifier.Round | services/geminiService.ts:40 | `Math.round` gives the integer whose half-open window `[n - 0.5, n + 0.5)` holds the argument |
| Classifier.RoundUnique | services/geminiService.ts:40 | that integer is unique |
| Classifier.ClassifyEmail | services/geminiService.ts:8-47 | the client fails exactly when the call or the parse fails, and then always with the fixed connectivity message; otherwise it returns the reply's four fields, the rounded elapsed time and a quarter of the raw text's length as the token estimate |
| Pipeline.UpdateStage | App.tsx:34-36 | only the entry at the index takes the new status; the length, all names and all other entries are kept; an index outside the list changes nothing |
| Pipeline.UpdateStageRestore | App.tsx:34-36 | setting a stage back to its previous status undoes an update |
| Pipeline.UpdateStageOverride | App.tsx:34-36 | a later update of the same stage overrides an earlier one |
| Pipeline.UpdateStageCommute | App.tsx:34-36 | updates of different stages commute |
| Pipeline.ResetStages | App.tsx:46 | the reset sets every stage to pending and keeps the names and the length |
| Pipeline.ResetForgetsUpdate | App.tsx:46 | a reset forgets any earlier update, and resetting twice is resetting once |
| Pipeline.CompleteRunning | App.tsx:52-68 | completing the running stage leaves it and all stages before it completed, and the rest pending |
| Pipeline.StartNext | App.tsx:50-66 | activating the first pending stage makes it the only running one |
| Pipeline.SettledOrdered | App.tsx:46-68 | a list of completed stages followed by pending ones is ordered |
| Pipeline.RunningOrdered | App.tsx:46-68 | a list with one running stage, completed before it and pending after it, is ordered |
| Pipeline.OrderedAtMostOneActive | App.tsx:46-68 | an ordered stage list has at most one active stage |
| Pipeline.ShownError | App.tsx:73 | the message shown on failure is the thrown message when that is non-empty, and `An unexpected error occurred during analysis.` when it is empty |
| Pipeline.RunBatch | App.tsx:41-74 | the setters of one batch never touch the input; only batch 0 resets the stages; batch k sets only stage k, to active, and stage k - 1, to a status other than active; a failing classifier's last batch touches no stage |
| Pipeline.AfterBatch | App.tsx:41-74 | every state of a run keeps the input and the stage names it started with |
| Pipeline.ClassifyTrace | App.tsx:38-76 | blank input produces no observable state; otherwise a run shows exactly five states |
| Pipeline.ClassifyTraceShape | App.tsx:41-71 | in the first four states of a run the status is loading with no result and no error, and stage k is active with the stages before it completed and those after it pending; the last state records the outcome |
| Pipeline.HandleClassify | App.tsx:38-76 | blank input changes nothing. Success ends with all four stages completed, status success, the classifier's result and no error. Failure ends with stages 0-2 completed, stage 3 still active, status error, no result and the shown error message |
| Pipeline.ResetForm | App.tsx:78-83 | clearing empties the input, drops the result, returns to idle and sets every stage pending; it keeps the names and leaves the error message as it was |
| Pipeline.ResetStagesIdempotent | App.tsx:46 | resetting the stages twice is resetting them once |
| Pipeline.ResetFormIdempotent | App.tsx:78-83 | clearing twice is clearing once, and clearing the initial state changes nothing |
| Pipeline.InitialInv | App.tsx:21-32 | the initial state satisfies the invariant: the four named stages in order, a result exactly on success, a non-empty message on error, never both a result and an error, and at most one active stage, with completed stages before it and pending ones after it |
| Pipeline.ClassifyTraceInv | App.tsx:38-76 | every state observed during a run keeps the invariant |
| Pipeline.ResetFormInv | App.tsx:78-83 | clearing the form keeps the invariant |
| Pipeline.StepTrace | App.tsx:144-162 | while loading every event is ignored, and so is a prediction on blank input; a prediction otherwise shows five states, the last being the end state of `handleClassify`; editing shows one state that differs from the old one only in holding the typed text; clearing shows one state, the one `resetForm` produces |
| Pipeline.TypeThenClassify | App.tsx:38-76 | from the initial state, typing `a` and running a prediction shows six states, the last holding the typed text and the classifier's outcome: success with its result, or error with the shown message |
| Pipeline.StepTraceRuns | App.tsx:40-66 | while a prediction runs, the first four states shown have status loading, no result and no error, stage k active, the stages before it completed and those after it pending |
| Pipeline.StepTraceInv | App.tsx:146-162 | every state observed while one user event is handled keeps the invariant; events that arrive while loading are ignored, as the disabled controls ignore them |
| Pipeline.ObserveInv | App.tsx:21-83 | from a state satisfying the invariant, every state observed during any sequence of events satisfies it |
| Pipeline.ReachableInv | App.tsx:21-83 | every state reachable from the initial state satisfies the invariant |

## Left out

- TextProcessor.LowerCase: `toLowerCase` is modelled on ASCII `A`-`Z` only, and other characters are left unchanged. JavaScript's full Unicode mapping can produce ASCII from non-ASCII input. For example, it maps U+212A KELVIN SIGN to ASCII `k`, which then survives the letter step: the source turns "\u212A" into "k", while the model gives "". JavaScript also maps `İ` (U+0130) to two code units, `i` followed by a combining dot, and the letter step then keeps the `i`. So on input outside ASCII the model's output can lack letters that the source's output has.
- String length is counted in `char`s. JavaScript counts UTF-16 code units, so the length bound of `TextProcessor.PreprocessText` and the token estimate of `Classifier.ClassifyEmail` assume text without surrogate pairs.
- The comment at services/textProcessor.ts:7 promises "Tokenization", but `preprocessText` does none. The model follows the code.
- The remote model call, the prompt text, `JSON.parse` and `console.error` are not modelled. The parsed reply, or its absence, is the `reply` parameter of `Classifier.ClassifyEmail`. The cleaned text only feeds the prompt, so it does not appear.
- `performance.now()` is not modelled. The elapsed time is the `elapsedMs` parameter.
- JavaScript numbers are modelled as reals, without floating-point rounding. This affects `confidence`, `tokensCount` and the elapsed time.
- Classifier.ClassifyEmail: the client never validates the parsed reply against the response schema, so a reply that parses but lacks a field is returned with that field missing; `Reply` always holds all four fields and cannot represent that case. The `...data` spread copies any extra fields of the reply, but only the four schema fields are modelled. `confidence` is not checked against any range, because the client checks none.
- The `setTimeout` delays in `handleClassify` are not modelled. They only separate the five batches of setters.
- Pipeline.ClassifyTrace: assumes React 18 automatic batching. It records the state after each `await` segment, not after each setter call.
- `activeTab`, all rendering, `components/MetricsDashboard.tsx`, `constants.ts`, `api/classify.ts` and `tailwind.config.js` are not modelled. They are presentation, static numbers, or an HTTP wrapper around the same remote call.
- Pipeline.Inv: does not say that an error message exists exactly when the last request failed. `resetForm` (App.tsx:78-83) never clears the error, so after a failure and a clear the state is idle and still holds the message. The message is only rendered while the status is error (App.tsx:220-226), so it is hidden. The invariant states what the code keeps: a non-empty message whenever the status is error, and never both a result and an error.
