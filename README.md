# LLM Evaluation Research Hub, the verified core

A Dafny model of the logic in the LLM Evaluation Research Hub. The hub is a small catalog of papers and datasets used to evaluate large language models. The model covers:

- the search and filter behind the catalog grid, and the "Key Metrics" sidebar figures (`App.tsx`);
- the Gemini request builders for the expert chat and for the research summary, with their reply and error fallbacks (`services/geminiService.ts`);
- the chat panel of the research assistant, a state machine over the message history, the input box and the loading flag (`components/AIAssistant.tsx`);
- the "Add New Research Resource" form: its field-by-field edits and its submit rule (`components/AddEntryModal.tsx`);
- the five seed entries the hub ships with (`data.ts`).

Modules, one per source file plus two shared ones:

| module | file | models |
|---|---|---|
| `Types` | `types.dfy` | the record types of `types.ts`. `type` is renamed `resourceType`, because `type` is a Dafny keyword. |
| `Text` | `text.dfy` | the JavaScript string operations the core relies on: `toLowerCase`, `includes`, `trim`, `join`, template printing of integers, `parseInt` |
| `Data` | `data.dfy` | `RESEARCH_ITEMS` as a constant |
| `Catalog` | `catalog.dfy` | `filteredItems` and the sidebar aggregates |
| `Gemini` | `gemini.dfy` | `chatWithExpert` and `getResearchSummary`. The network call is an outcome parameter: a response whose text may be absent, or a failure. |
| `Assistant` | `assistant.dfy` | the `AIAssistant` component. The class `ChatPanel` has `SetInput`, `Submit` and `Resolve`. These split `handleSend` at its `await`, and each is specified by a pure step function. |
| `AddEntry` | `add_entry.dfy` | the `AddEntryModal` component. The class `EntryForm` holds the form record, with one `Edit` method for the `onChange` handlers and a `Submit` method for `handleSubmit`. |

What the model takes from the code itself:

- **Categories.** The category set is the six values of the `Category` enum in `types.ts` (`types.ts:7-14`): General, Reasoning, Coding, Math, Safety and Multilingual.
- **No catalog store.** Nothing appends to `RESEARCH_ITEMS`, and `App.tsx` never mounts `AddEntryModal`. `HandleSubmit` therefore only yields the callbacks `onSave(item)` and `onClose()`, and no duplicate-id check exists to model.
- **The chat opens with a greeting.** The history starts with the assistant's greeting, not empty (`components/AIAssistant.tsx:7-9`).
- **Where the fallback comes from.**
  - `chatWithExpert` catches every failure itself. It returns "The AI expert is currently unavailable." on a failure, and "No response received." on an empty reply.
  - So with the real service, the panel's own catch branch, "Sorry, I ran into an error…", is never taken. `Exchange` states the behaviour of the real pair.
  - `ChatPanel.Resolve` still models both branches of `handleSend`.

## Model

| member | source | states |
|---|---|---|
| Text.Lower | App.tsx:18-20 | lower-casing keeps the length and folds each character on its own (ASCII letters A-Z) |
| Text.Contains | App.tsx:18-20 | the empty term is contained in every string, and a contained needle is no longer than the haystack |
| Text.ContainsIff | App.tsx:18-20 | `includes` holds exactly when the needle occurs at some index of the haystack |
| Text.ContainsEmpty | App.tsx:18 | the empty search term is contained in every string |
| Text.Trim | components/AIAssistant.tsx:21 | the trimmed text is the input with its leading and trailing whitespace cut off and nothing else: a slice of the input, with only whitespace before and after it, that neither starts nor ends with whitespace |
| Text.TrimEmptyIff | components/AIAssistant.tsx:21 | `trim()` gives the empty string exactly when every character is whitespace |
| Text.Join | services/geminiService.ts:32 | `join` of no parts is empty, of one part is that part, and of more starts with the first part and the separator; `SplitJoin` gives it back in full |
| Text.SplitJoin | services/geminiService.ts:30-32 | joining newline-free parts with `\n` and splitting at `\n` gives the parts back |
| Text.IntToString | services/geminiService.ts:31 | a printed integer is non-empty, starts with "-" exactly when negative, and is digits otherwise; `ParseIntOfIntToString` reads it back |
| Text.NatToString | services/geminiService.ts:31 | a printed year is a non-empty run of digits with no leading zero |
| Text.ParseInt | components/AddEntryModal.tsx:98 | `parseInt` yields a number exactly when, after the leading whitespace and an optional sign, a digit follows |
| Text.ParseIntSkipsSpace | components/AddEntryModal.tsx:98 | leading whitespace does not change what `parseInt` reads (" 1200" reads as "1200") |
| Text.ParseIntPlusSign | components/AddEntryModal.tsx:98 | a `+` before the digits does not change the number ("+1200" reads as "1200") |
| Text.ParseIntLeadingZero | components/AddEntryModal.tsx:98 | a leading zero does not change the number ("01200" reads as "1200") |
| Text.ParseIntOfIntToString | components/AddEntryModal.tsx:98 | `parseInt` reads back any printed integer, and stops at the first non-digit after it |
| Text.ParseIntWithoutDigits | components/AddEntryModal.tsx:98 | a text without digits parses to NaN |
| Data.SeedIds | data.ts:6-82 | the seed ids are mmlu, helm, gsm8k, human-eval and truthfulqa, in that order and pairwise distinct |
| Data.SeedAuthorsNonEmpty | data.ts:8-84 | every seed entry names at least one author |
| Data.SeedKinds | data.ts:10-92 | HELM is the only paper, and every dataset has an item count |
| Catalog.Matches | App.tsx:18-24 | with an empty term and both selectors on 'All' every entry passes; a selected category or type admits only entries of that category or type |
| Catalog.Filter | App.tsx:16-26 | the grid shows no more entries than the catalog has, and each one shown matches the query |
| Catalog.FilterIsSubsequence | App.tsx:17 | the result is an order-preserving subsequence of the catalog |
| Catalog.FilterMultiplicity | App.tsx:17-25 | a matching entry appears as often as in the catalog, and a non-matching one not at all, so nothing is duplicated |
| Catalog.FilterMembership | App.tsx:18-24 | an entry is shown iff it is in the catalog and its text, category and type all match |
| Catalog.ShownWhenMatching | App.tsx:18-24 | every catalog entry that matches the query is shown |
| Catalog.InitialQueryShowsAll | App.tsx:11-13 | the initial query (empty term, 'All', 'All') shows the whole catalog in order; "Clear all filters" (App.tsx:104) restores this query |
| Catalog.TextMatchesAnyField | App.tsx:18-20 | the text matches iff the lower-cased term occurs in the title, the description or any one tag |
| Catalog.FilterCaseInsensitive | App.tsx:18-20 | two terms with the same lower-case form give the same result |
| Catalog.FilterUpperCaseTerm | App.tsx:18-20 | upper-casing the search term does not change the result |
| Catalog.MatchesPrefixOfTerm | App.tsx:18-20 | an entry that matches the term s+t also matches s |
| Catalog.NarrowingSearchShrinks | App.tsx:16-26 | extending the search term yields a subsequence of the previous result |
| Catalog.CategoryOnly | App.tsx:21 | with an empty term and type 'All', category c shows exactly the entries of category c, in order |
| Catalog.CitationsOf | App.tsx:134 | `curr.citationCount \|\| 0`: the entry's count, or 0 when it has none |
| Catalog.ReduceCitations | App.tsx:134 | the `reduce` leaves the start value on an empty catalog and on one whose entries have no counts; `ReduceIsSum` gives its value in general |
| Catalog.TotalCitations | App.tsx:134 | "Total Citations Indexed" is the sum of all citation counts, an absent count adding nothing |
| Catalog.ReduceIsSum | App.tsx:134 | the reduce adds each entry's citation count to the start value, with an absent count as 0 |
| Catalog.TotalCitationsAppend | App.tsx:134 | the citation total of two catalogs joined is the sum of their totals |
| Catalog.SeedFigures | App.tsx:129-134 | on the seed catalog, "Total Resources" is 5 and "Total Citations Indexed" is 10300 |
| Catalog.SeedInCategory | data.ts:11-87 | of the seed entries, Math holds GSM8K alone, and Reasoning and Multilingual hold none |
| Catalog.SeedCategories | App.tsx:21 | choosing Math on the seed catalog shows [GSM8K]; choosing Reasoning or Multilingual shows nothing |
| Catalog.SeedMathTitle | data.ts:45 | GSM8K's lower-cased title contains "math" |
| Catalog.SeedMathTag | data.ts:53 | GSM8K's first tag, lower-cased, contains "math" |
| Catalog.TwoEntryMathSearch | App.tsx:18-24 | on any two entries, one titled "MMLU", described as "multitask" and tagged "Benchmark", the other tagged "Math", searching "math" shows exactly the second: one tag is enough, and an entry without the term in any field is hidden |
| Catalog.SeedMathSearch | data.ts:44-53 | GSM8K, the third seed entry, matches the search "math" with both selectors on 'All' |
| Gemini.AsWire | components/AIAssistant.tsx:29 | a panel message reaches the service with its text unchanged and role "user" or "assistant" as it was sent |
| Gemini.AsWireAll | components/AIAssistant.tsx:29 | the history goes to the service message by message, in order, role and content kept |
| Gemini.ContextLine | services/geminiService.ts:30-31 | an entry's line starts with its title, ends with its description, and holds a newline only if one of them does |
| Gemini.ContextLines | services/geminiService.ts:30-32 | one context line per catalog entry, in catalog order |
| Gemini.BuildContext | services/geminiService.ts:30-32 | the context is empty exactly when the catalog is, and starts with the first entry's line |
| Gemini.ContextSplitsIntoLines | services/geminiService.ts:30-32 | when titles and descriptions have no newline, splitting the context at `\n` gives back exactly the entry lines, so none is added or lost |
| Gemini.ContextAppend | services/geminiService.ts:30-32 | one more entry adds `\n` and its line at the end, with no separator before the first line and none after the last |
| Gemini.ContextOfEmpty | services/geminiService.ts:32 | an empty catalog gives an empty context |
| Gemini.SystemInstruction | services/geminiService.ts:34 | the system instruction is the persona and "Use context: " followed by exactly the context |
| Gemini.SystemInstructionRoundTrip | services/geminiService.ts:34 | the system instruction is the fixed persona and "Use context: " followed by the context, which can be read back from it |
| Gemini.ApiRole | services/geminiService.ts:37 | the role is always "user" or "model", and is "user" iff the message's role is "user" |
| Gemini.FormatMessage | services/geminiService.ts:36-39 | one turn: the mapped role, "user" exactly for a user message, and the text as its only part |
| Gemini.FormatMessages | services/geminiService.ts:36-39 | role mapping keeps the length and order; each turn carries its message's content as its only part; the role is "user" iff the message's role is "user", and "model" otherwise |
| Gemini.FormatMessagesAppend | services/geminiService.ts:36-39 | formatting distributes over concatenation of histories |
| Gemini.ChatTurns | services/geminiService.ts:44-47 | the request has one turn more than the history: first the system instruction as a user turn, then the formatted history unchanged |
| Gemini.ChatTurnsAppend | services/geminiService.ts:44-47 | a longer history becomes one more turn at the end of the same request |
| Gemini.ChatRequest | services/geminiService.ts:42-51 | the chat request names the fixed model and has one turn more than the history; its first turn is a single user part from which the seed catalog's context reads back |
| Gemini.ChatRequestAppend | services/geminiService.ts:42-47 | a history one message longer is sent as the same request plus one turn at the end |
| Gemini.ChatReply | services/geminiService.ts:53-56 | the chat result is never empty: a non-empty reply verbatim, "No response received." for an empty or absent text, "The AI expert is currently unavailable." on failure |
| Gemini.SummaryPrompt | services/geminiService.ts:15 | the summary prompt is the preamble, then exactly the context, then the question label, the query and the instructions |
| Gemini.SummaryPromptRoundTrip | services/geminiService.ts:15 | the summary prompt holds the context at a fixed offset, and the query can be read back from it |
| Gemini.SummaryRequest | services/geminiService.ts:13-19 | the summary request is a single prompt for the fixed model, and the query reads back from it over the seed catalog |
| Gemini.SummaryReply | services/geminiService.ts:21-24 | the summary is never empty: the reply verbatim, the "couldn't generate a summary" text when empty, the "Error connecting" text on failure |
| Gemini.SeedContext | services/geminiService.ts:9-11 | the seed context has five lines, the third being GSM8K's |
| Assistant.CanSendIff | components/AIAssistant.tsx:21 | a send goes ahead exactly when no reply is awaited and the input holds a non-whitespace character; the button's `disabled` at components/AIAssistant.tsx:85 is the same guard |
| Assistant.SendStep | components/AIAssistant.tsx:21-29 | a refused send changes nothing and calls nothing; an accepted one appends the user turn, clears the box, sets loading and hands the service the new history |
| Assistant.ResolveStep | components/AIAssistant.tsx:30-34 | resolution appends exactly one assistant turn with the reply or the error text, keeps the older history and the input, and clears loading |
| Assistant.InitialTranscript | components/AIAssistant.tsx:7-11 | the panel opens with the greeting alone, which is a well-formed transcript |
| Assistant.BlankInputIgnored | components/AIAssistant.tsx:21 | sending empty or whitespace-only input changes nothing and calls nothing |
| Assistant.SendWhileLoadingIgnored | components/AIAssistant.tsx:21 | sending while a reply is awaited changes nothing and calls nothing |
| Assistant.SendAccepted | components/AIAssistant.tsx:23-29 | an accepted send appends the untrimmed input as a user turn, clears the box, sets loading and passes the service the new history |
| Assistant.FullSendAddsTwo | components/AIAssistant.tsx:20-36 | a send and its resolution add exactly two turns, the user's and then the assistant's, and end with loading off |
| Assistant.HistoryAppendOnly | components/AIAssistant.tsx:24-32 | the old history is a prefix of the new one after either step, and resolution adds exactly one turn |
| Assistant.SendKeepsTranscript | components/AIAssistant.tsx:21-26 | a send keeps the transcript invariant: greeting first, user turns at odd positions and not blank, loading iff the last turn is the user's |
| Assistant.ResolveKeepsTranscript | components/AIAssistant.tsx:28-35 | resolving an awaited send keeps the transcript invariant and ends loading |
| Assistant.SendRequest | components/AIAssistant.tsx:29 | the request of an accepted send is the previous request with the typed text as one more user turn at the end |
| Assistant.ChatPanel.constructor | components/AIAssistant.tsx:7-11 | the initial state: greeting only, empty input, not loading |
| Assistant.ChatPanel.SetInput | components/AIAssistant.tsx:78 | typing replaces the input and nothing else |
| Assistant.ChatPanel.Submit | components/AIAssistant.tsx:20-29 | `handleSend` up to the `await` does exactly the send step and returns the history passed to the service |
| Assistant.ChatPanel.Resolve | components/AIAssistant.tsx:28-35 | `handleSend` after the `await` does exactly the resolve step |
| Assistant.Exchange | components/AIAssistant.tsx:20-36 | typing non-blank text and sending it, with the real service, appends the user turn and the service's reply and leaves the panel idle with an empty box |
| AddEntry.InitialForm | components/AddEntryModal.tsx:12-19 | the form opens as a paper in General for the given year, with no authors, tags or related papers, and cannot be submitted as it is |
| AddEntry.ApplyEdit | components/AddEntryModal.tsx:96-98 | Citation/Scale stores the text verbatim as the item count of a dataset, and `parseInt(...) \|\| 0` as the citation count of anything else; no edit touches authors, tags, related papers or domain |
| AddEntry.EditsKeepUntouchedFields | components/AddEntryModal.tsx:54-142 | no sequence of edits changes the authors, tags, related papers or domain |
| AddEntry.CitationOfNumber | components/AddEntryModal.tsx:98 | a typed integer, optionally followed by text such as " citations", is stored as that citation count |
| AddEntry.CitationWithoutDigits | components/AddEntryModal.tsx:98 | a text without digits is stored as citation count 0 |
| AddEntry.CitationValue | components/AddEntryModal.tsx:98 | `parseInt(...) \|\| 0`: a parsed number is kept as it is, a NaN parse (as for "abc 12") gives 0, and a non-zero count only comes from text that holds a digit |
| AddEntry.SavedAuthors | components/AddEntryModal.tsx:30 | the saved authors are never empty: the form's when there are some, ['Anonymous'] otherwise |
| AddEntry.Submittable | components/AddEntryModal.tsx:25 | the submit guard holds exactly when title, description and link are present and non-empty; `HandleSubmit` and `MissingFieldRejected` use it |
| AddEntry.HandleSubmit | components/AddEntryModal.tsx:23-34 | submit does nothing iff title, description or link is absent or empty; otherwise it saves the new entry once and then closes |
| AddEntry.MissingFieldRejected | components/AddEntryModal.tsx:25 | a missing or empty title, description or link stops the submit |
| AddEntry.NewItem | components/AddEntryModal.tsx:27-31 | a saved entry has the fresh id, at least one author, and a non-empty title, description and link |
| AddEntry.NewItemCopiesForm | components/AddEntryModal.tsx:27-31 | the saved entry has the fresh id and every form field unchanged, except authors, which are defaulted |
| AddEntry.SavedEntryFromForm | components/AddEntryModal.tsx:12-31 | whatever is typed in, a saved entry is by "Anonymous", with no tags, no related papers and no domain |
| AddEntry.EntryForm.constructor | components/AddEntryModal.tsx:12-19 | the form opens as a paper in General for the given year, with empty tags, authors and related papers |
| AddEntry.EntryForm.Edit | components/AddEntryModal.tsx:54-142 | an `onChange` replaces the form record by the edited one |
| AddEntry.EntryForm.Submit | components/AddEntryModal.tsx:23-34 | `handleSubmit` yields the callbacks of the submit rule and leaves the form as it is |

## Left out

- Rendering. This covers the JSX and CSS, the scroll effect (`components/AIAssistant.tsx:14-18`) and the display-only components: Navbar, AuthModal, DetailView, ResearchCard and ModelDetailView.
- Model entries. `components/ModelsView.tsx` imports `MODEL_ITEMS` and `ModelItem`, which neither `data.ts` nor `types.ts` defines.
- The Gemini client:
  - the API key and the network call itself;
  - the sampling temperatures 0.7 and 0.8, which are floating-point constants with nothing to prove about them;
  - the `console.error` logging.
  - The call is modelled by its outcome, and the request by the model name and contents it carries (`ChatRequest`, `SummaryRequest`).
- The random id and the current year. Both are parameters of `HandleSubmit` and `EntryForm.constructor`.
- The Enter key handler (`components/AIAssistant.tsx:79`) and the send button (`components/AIAssistant.tsx:83-89`). Both call `handleSend`, which the model splits into `ChatPanel.Submit` and then `ChatPanel.Resolve`. The button is disabled by the same guard that `CanSend` states (`components/AIAssistant.tsx:85`), so a click on it while disabled is a refused send.
- Full JavaScript string semantics:
  - `toLowerCase` folds only A-Z;
  - `trim` uses a fixed set of ten whitespace characters;
  - `parseInt` is leading whitespace, an optional sign and leading decimal digits, with NaN as `None`;
  - integers are printed as plain decimal.
  - Radix prefixes, exponents and precision loss on very long digit strings are not modelled.
- AddEntry.EntryForm.Edit: the year input's `parseInt` can give NaN on empty input (`components/AddEntryModal.tsx:87`). `EditYear` carries an integer, so NaN is not modelled.
- React scheduling:
  - stale closures and batched `setState` calls are not modelled;
  - the model is sequential, and the loading guard keeps sends from overlapping.
- The "Latest Entry" label (`App.tsx:139`). It is fixed text, not computed.
- `toLocaleString` formatting of the citation total. The model proves the number, 10300, not its rendering "10,300".
- Catalog.SeedMathSearch: proves that GSM8K matches "math", not that it is the only seed entry to do so. Ruling out a substring over the long seed descriptions is beyond what the verifier handles at a reasonable cost. `TwoEntryMathSearch` proves the exclusion on short texts.
- Gemini.SeedContext: states the number and position of the seed lines, not that the seed titles and descriptions are newline-free. That fact is the premise of `ContextSplitsIntoLines`, and it cannot be evaluated cheaply over the long literals.
