# ClangLib code completion, modelled in Dafny

ClangLib is a Code::Blocks plug-in. It offers code completion from a libclang
translation-unit service. This project models the completion request engine,
`ClangCodeCompletion`, together with two sets of supporting types:

- the records it exchanges with the plug-in: token categories, raw completion tokens,
  token positions, service events, and the attach state of a plug-in component;
- the symbol-interning table of the token database.

The engine's state is a Dafny class, `ClangCC.ClangCodeCompletion`, with five fields:

- the current translation unit;
- the timeout counter;
- the caret position recorded at a timeout;
- the cached raw results;
- the tab-jump placeholder queue.

Its operations are methods that follow the source's steps:

- `GetAutocompList`: guards, cache or service request, filters, volume cut, category
  refinement, weight compression;
- `DoAutocomplete`: the insert decision, the editor update, the placeholder queue and the
  call-tip condition;
- `OnKeyDown`: tab cycling through the placeholders;
- the three service notification handlers.

Each loop of the source is a loop in a method. The method is proved against a
specification function in `CompletionFilter` or `ClangCC`, and lemmas state what those
functions mean.

The editor is a value, `Editor.EditorState`. It holds:

- the document text;
- one lexer style per position, answering four questions: string, comment, character,
  preprocessor;
- the caret and the selection;
- whether a completion list is showing;
- the file name.

The Scintilla queries the engine uses are functions over that value: line start, word start
and end, text range, indentation, and case-insensitive `FindText`.

Everything the engine asks of code outside this model is a parameter:

- the plug-in's translation-unit lookup for the active editor's file (`lookup`);
- the completion service, which returns results or a timeout (`service`);
- the insert-suffix service (`suffixService`);
- the unit's keyword list (`keywords`);
- the `/tooltip_mode` setting (`tooltipMode`).

Modules, one per file:

- `Wrappers` (wrappers.dfy): `Option` and a 32-bit unsigned type for `ClTokenPosition`.
- `Text` (text.dfy): wxString and standard-library string operations, including
  `std::binary_search` over a keyword list.
- `Editor` (editor.dfy): the editor control.
- `ClangPluginApi` (clangpluginapi.dfy): clangpluginapi.h.
- `TokenDatabase` (tokendatabase.dfy): tokendatabase.h.
- `CompletionFilter` (completion_filter.dfy): the candidate pipeline of `GetAutocompList`.
- `ClangCC` (clangcc.dfy): the engine.

Two behaviours of the code worth knowing:

- The placeholder queue is emptied entirely when it holds more than ten entries. It is not
  trimmed oldest-first (clangcc.cpp:545-546).
- After a timeout the cache is empty (clangcc.cpp:374). A second request at the same caret
  therefore asks the service again (clangcc.cpp:361). The cache is served only after
  `OnCodeCompleteFinished` has stored delivered results. `ClangCC.CacheServesDeliveredResults`
  states both cases.

## Model

| member | source | states |
|---|---|---|
| Text.Lower | clangcc.cpp:347 | lower-casing keeps the length and lowers each character |
| Text.StripLeading | clangcc.cpp:422 | the result is a suffix of the input, every dropped character is white space, and the result does not start with white space |
| Text.Find | clangcc.cpp:259 | -1 exactly when the pattern occurs nowhere; otherwise the pattern occurs at the index and at no earlier index |
| Text.FindCharIsFirst | clangcc.cpp:259-262 | searching for one character gives -1 exactly when it is absent; otherwise its first position |
| Text.SubString | clangcc.cpp:551 | `SubString(first, last)` includes both ends: `last - first + 1` characters from `first`; a span ending just before its start is empty; one ending further before its start wraps the count and reads the rest of the string from `first`; a start past the end reads nothing |
| Text.LowerBoundSplits | clangcc.cpp:434 | on a sorted list, lower_bound splits the keys into those below the target and the rest |
| Text.BinarySearchIsMembership | clangcc.cpp:434 | on a sorted keyword list, binary_search answers membership, in both directions |
| Editor.NextLineStart | clangcc.cpp:202 | the position after the caret line's break, or the end of the document on the last line; no break lies in between |
| Editor.FindText | clangcc.cpp:205 | -1 exactly when the pattern, ignoring case, matches nowhere in the search range; otherwise the position lies in the range, the pattern matches there, and it matches at no earlier position of the range |
| Editor.IndentPositionSkipsBlanks | clangcc.cpp:271 | the indentation position is reached over blanks and tabs only, and stops at the first other character or the end of the text |
| Editor.SetSelection | clangcc.cpp:208 | as Scintilla's `SCI_SETSEL`: the caret goes to the second position, or to the document end when it is negative; a negative anchor leaves no selection, at the caret; otherwise the selection spans both positions clamped to the document; text and styles are unchanged |
| Editor.ReplaceRange | clangcc.cpp:535 | the target range is replaced by the new text; the rest of the document is unchanged |
| ClangPluginApi.FromValueOfValue | clangpluginapi.h:9-41 | reading back the integer value of any category gives that category |
| ClangPluginApi.FromValueRoundTrip | clangpluginapi.h:9-41 | no two categories share an integer value |
| ClangPluginApi.CategoryValueRange | clangpluginapi.h:9-41 | `tcNone` is -1, `tcClassFolder` is 0, `tcLangKeyword` is 40; every other category lies between 0 and 40 |
| ClangPluginApi.CategoryValuesConsecutive | clangpluginapi.h:9-41 | every value from 0 to 40 is taken by a category other than `tcNone`: no gaps |
| ClangPluginApi.NewClToken | clangpluginapi.h:45-46 | the constructor stores name, id, weight and category as passed |
| ClangPluginApi.NewClTokenPosition | clangpluginapi.h:55 | the constructor stores line and column as given |
| ClangPluginApi.NewEvent | clangpluginapi.h:62-66 | id and file name as given, location (0,0), no results |
| ClangPluginApi.NewOccurrencesEvent | clangpluginapi.h:67-72 | id, file name, location and occurrences as given, no completions |
| ClangPluginApi.NewCompletionEvent | clangpluginapi.h:73-78 | id, file name, location and completions as given, no occurrences |
| ClangPluginApi.CopyEvent | clangpluginapi.h:79-85 | the copy keeps id, file name, location, occurrences and completions, so the getters answer as on the original |
| ClangPluginApi.NewCCToken | clangcc.cpp:389 | the candidate record stores id, display name, name, weight and category as passed |
| ClangPluginApi.ClangPluginComponent.constructor | clangpluginapi.h:133 | a new component is detached |
| ClangPluginApi.ClangPluginComponent.OnAttach | clangpluginapi.h:134 | the component holds the given plug-in, and is attached exactly when that plug-in is not null |
| ClangPluginApi.ClangPluginComponent.OnRelease | clangpluginapi.h:135 | the component holds no plug-in and is not attached |
| ClangPluginApi.ClangPluginComponent.BuildToolBar | clangpluginapi.h:137 | the default adds no tool bar |
| ClangPluginApi.ClangPluginComponent.GetProviderStatusFor | clangpluginapi.h:139 | the default status is inactive |
| ClangPluginApi.ClangPluginComponent.GetAutocompList | clangpluginapi.h:141 | the default offers no candidates |
| TokenDatabase.TokenTypeBits | tokendatabase.h:13-21 | `TokenType_Unknown` is 0, each kind is one distinct bit, and a two-kind mask contains exactly those two kinds |
| TokenDatabase.NewAbstractToken | tokendatabase.h:25-26 | the constructor stores every field as given |
| TokenDatabase.CopyAbstractToken | tokendatabase.h:27-28 | the copy keeps type, file id, line, column, display name and hash |
| TokenDatabase.Lookup | tokendatabase.h:46 | wxNOT_FOUND exactly when no entry has the key; otherwise an entry with the key |
| TokenDatabase.LookupUnique | tokendatabase.h:46 | with unique keys, the entry holding a key is the one found |
| TokenDatabase.InsertKeepsKeysUnique | tokendatabase.h:47 | inserting keeps the keys unique |
| TokenDatabase.InsertThenLookup | tokendatabase.h:46-48 | after inserting, the key finds the returned id; a new key stores the given record; a present key leaves the table unchanged |
| TokenDatabase.InsertIdempotent | tokendatabase.h:47 | inserting the same key again returns the same id and stores nothing |
| TokenDatabase.InsertKeepsIssuedIds | tokendatabase.h:47-48 | inserting never changes the record of an id already issued |
| TokenDatabase.TokenDatabase.constructor | tokendatabase.h:41 | a new database is empty |
| TokenDatabase.TokenDatabase.GetTokenId | tokendatabase.h:46 | the loop returns wxNOT_FOUND exactly when no stored token has the key; otherwise an id holding the key |
| TokenDatabase.TokenDatabase.InsertToken | tokendatabase.h:47 | duplicates are discarded: the table and the id are those of interning, and keys stay unique |
| TokenDatabase.TokenDatabase.GetToken | tokendatabase.h:48 | the record of an issued id; none for an id never issued |
| CompletionFilter.ActualName | clangcc.cpp:257-263 | the name up to its first ':': a prefix of the name with no ':', the whole name exactly when it has none |
| CompletionFilter.BackedOffColumn | clangcc.cpp:336-345 | the largest column not above the token's where the loop stops; every column skipped is preceded by two blanks, or is column 1 after a blank |
| CompletionFilter.BackOffColumn | clangcc.cpp:336-345 | the loop ends on the backed-off column |
| CompletionFilter.ScanIncludeCtors | clangcc.cpp:348-358 | constructors are excluded exactly when the nearest non-blank character before the token, at position 1 or later, is ';' or '}' |
| CompletionFilter.FilterByPrefix | clangcc.cpp:383-410 | the three tier loops build the candidates of the tokens that pass, in result order |
| CompletionFilter.FilteredFollowsKeptIndices | clangcc.cpp:383-410 | the k-th candidate is made from the token at the k-th kept position |
| CompletionFilter.KeptIndicesAreThePassing | clangcc.cpp:383-410 | the kept positions increase, and a position is kept exactly when its token passes the prefix and constructor rules |
| CompletionFilter.FilteredIsOrderedSelection | clangcc.cpp:383-410 | the filter output is an order-preserving selection of exactly the passing tokens |
| CompletionFilter.FilteredCandidatesPass | clangcc.cpp:347-410 | every candidate matches the prefix tier chosen by the prefix length; no public constructor survives when constructors are excluded; each comes from a result |
| CompletionFilter.LightestIndex | clangcc.cpp:416 | the position of a candidate no heavier than any other |
| CompletionFilter.SelectLightest | clangcc.cpp:416 | one selection step keeps the kept candidates sorted and no heavier than any remaining, and loses no candidate |
| CompletionFilter.SplitIsTop | clangcc.cpp:416-417 | a sorted split with no kept candidate heavier than a dropped one is the partial-sort result |
| CompletionFilter.PartialSortCut | clangcc.cpp:414-418 | k candidates in ascending weight, a sub-multiset of the input, none heavier than any dropped |
| CompletionFilter.RefinedChangesOnlyUnknownCategories | clangcc.cpp:422-451 | only `tcNone` categories change: to `tcMacroDef` on a preprocessor line, otherwise to `tcLangKeyword` exactly when the actual name is a keyword; id, names and weight are unchanged |
| CompletionFilter.InsertSorted | clangcc.cpp:428 | set insertion keeps the weights strictly increasing and adds exactly the new weight |
| CompletionFilter.UsedWeights | clangcc.cpp:423-428 | the distinct weights of the candidates, in increasing order |
| CompletionFilter.RefineAndCollectWeights | clangcc.cpp:422-452 | the loop refines every candidate and collects exactly the used weights |
| CompletionFilter.CompressedIndexMonotone | clangcc.cpp:462-464 | compressed positions never move up and keep their order |
| CompletionFilter.CompressWeightShape | clangcc.cpp:456-464 | with at most 3 weights nothing changes; with more, the two smallest map to themselves and the i-th maps to the ((i-2)/f+2)-th, f being 3 above 7 weights and 2 otherwise |
| CompletionFilter.CompressWeightLowers | clangcc.cpp:463-468 | a compressed weight is one of the used weights and never larger than the original |
| CompletionFilter.CompressWeightMonotone | clangcc.cpp:463-468 | compression keeps the weight order |
| CompletionFilter.CompressWeightProperties | clangcc.cpp:456-470 | the compression map in full: identity cases, formula, range, non-increase and monotonicity |
| CompletionFilter.MapsSmallestStep | clangcc.cpp:463-464 | one iteration of the map-building loop extends the map correctly by the next weight |
| CompletionFilter.BuildCompressionMap | clangcc.cpp:458-464 | the loop maps every used weight to the weight at its compressed position, and nothing else |
| CompletionFilter.CompressWeights | clangcc.cpp:456-470 | every candidate's weight is rewritten through the compression map, and only with more than 3 used weights |
| CompletionFilter.CompressedCandidates | clangcc.cpp:456-470 | on the candidates only weights change; none rises; each is a used weight; order is kept; with at most 3 weights nothing changes |
| CompletionFilter.Postprocess | clangcc.cpp:412-471 | volume cut, refinement and compression in that order; with an empty prefix and more than 1500 candidates exactly 1000 remain, otherwise all |
| ClangCC.ReusesCacheExactly | clangcc.cpp:318-323 | the cache is served exactly when the counter is positive, the caret is where the timeout happened, and the cache is not empty |
| ClangCC.RequestLocation | clangcc.cpp:325-368 | the request names the unit and file, a 1-based line and column (the column no further right than the token's), and the 20 ms timeout exactly for automatic launches |
| ClangCC.PlanInsertShape | clangcc.cpp:485-529 | the replaced range runs from the word start or selection to at least the caret; the inserted text is the actual name, plus the suffix unless a rename finds it already typed; the caret target lies within the inserted text |
| ClangCC.AppendingPlan | clangcc.cpp:525-529 | without an in-place rename, the range up to the caret is replaced by the name and the whole suffix |
| ClangCC.AcceptedText | clangcc.cpp:532-535 | after acceptance the document holds the planned text in place of the range, whether or not a replace was needed, and the list is closed |
| ClangCC.AppendingRenamePlan | clangcc.cpp:515-522 | on an in-place rename whose next character does not start the suffix, a suffix not of length two is appended to the name, the word up to its end is replaced and the caret target is right after the name |
| ClangCC.FirstPlaceholderSelected | clangcc.cpp:515-539 | whenever the suffix is appended right after the name (no in-place rename, or a rename whose next character does not start a suffix not of length two), the selection after acceptance covers exactly the first placeholder span of the suffix |
| ClangCC.AcceptedSelection | clangcc.cpp:536-543 | the selection set by acceptance starts and ends at the caret target plus the first span's offsets |
| ClangCC.SpansComeFromSpans | clangcc.cpp:547-554 | each queued placeholder comes from a span with distinct ends; there are at most as many as spans, and exactly as many when every span is non-empty |
| ClangCC.RotateFrontPermutes | clangcc.cpp:557-563 | rotation keeps the entries and puts the front one last |
| ClangCC.QueueAfterAcceptContents | clangcc.cpp:545-563 | the new queue holds the old entries (none if there were more than ten) plus exactly the new placeholders |
| ClangCC.QueueAfterTwoSpans | clangcc.cpp:545-563 | with spans (0,3) and (5,8), both placeholders are queued, the selected (0,3) one last |
| ClangCC.PlaceholderSelectionLength | clangcc.cpp:208 | the tab selection of a placeholder queued from span (first, second) is as long as the span selected at acceptance |
| ClangCC.FirstFoundFrom | clangcc.cpp:203-206 | the first queue entry found on the line, or the queue length when none is found |
| ClangCC.MoveToBackPermutes | clangcc.cpp:209-211 | cycling keeps the entries, puts the used one last and keeps the others in order |
| ClangCC.CandidatesOf | clangcc.cpp:383-471 | the candidates are the filtered results, post-processed |
| ClangCC.TruncatedAtColon | clangcc.cpp:485-488 | `DoAutocomplete` cuts the name at its first ':' exactly as `GetActualName` does |
| ClangCC.PlanAcceptance | clangcc.cpp:485-530 | the source's insert steps compute the insert plan |
| ClangCC.ApplyPlan | clangcc.cpp:532-543 | the editor ends in the accepted state |
| ClangCC.IncludeDirectiveMeans | clangcc.cpp:271-284 | the include test holds exactly when the caret line, past its blanks and tabs, holds '#' then the word `include` (followed by no word character) and the token ends past that word |
| ClangCC.CompletesInclude | clangcc.cpp:271-284 | the method's test is the include-directive predicate that `IncludeDirectiveMeans` characterises |
| ClangCC.IllogicalAutoLaunch | clangcc.cpp:301-312 | the auto-launch filter fires after a lone ':', after a '>' not ending "->", or after one of `<"/` outside a preprocessor style |
| ClangCC.ClangCodeCompletion.constructor | clangcc.cpp:36-47 | no unit, counter 0, recorded position -1, empty cache and queue |
| ClangCC.ClangCodeCompletion.GetCurrentTranslationUnitId | clangcc.cpp:227-240 | the plug-in is asked only while the unit is unknown, and its answer is kept; with no editor the answer is wxNOT_FOUND |
| ClangCC.ClangCodeCompletion.GetAutocompList | clangcc.cpp:265-474 | rejected requests return nothing and keep the cache state; otherwise the cache is served or the service is asked; a timeout returns nothing with counter 1, the caret recorded and the cache emptied; delivered results become the post-processed candidates |
| ClangCC.ClangCodeCompletion.RequestOrReuse | clangcc.cpp:318-474 | past the guards: the counter is zeroed; the cache is served exactly as `ReusesCache` says; otherwise the request is built and its reply handled |
| ClangCC.ClangCodeCompletion.IssuedRequest | clangcc.cpp:360-366 | the request built from the token's line and backed-off column is the one `RequestLocation` describes |
| ClangCC.ClangCodeCompletion.AcceptPlaceholders | clangcc.cpp:545-563 | the queue becomes: emptied above ten entries, the non-empty spans appended, the front rotated to the back when there are spans |
| ClangCC.ClangCodeCompletion.DoAutocomplete | clangcc.cpp:483-576 | the editor is the accepted state of the plan, the queue is updated with the plan's spans, the call tip follows the category, first span and tooltip mode, and the result is true |
| ClangCC.ClangCodeCompletion.FirstPlaceholderOnLine | clangcc.cpp:201-215 | the search stops at the first queued placeholder found on the line (the queue length when none is) and reports where it was found |
| ClangCC.ClangCodeCompletion.OnKeyDown | clangcc.cpp:190-220 | on tab, with an editor and no list showing, the first placeholder found on the caret line is selected and moved to the back; otherwise the event is skipped and nothing changes |
| ClangCC.ClangCodeCompletion.ResetForCurrentUnit | clangcc.cpp:640-660 | for the current unit, counter 0, position 0 and an empty cache; for another unit, no change |
| ClangCC.ClangCodeCompletion.OnTranslationUnitCreated | clangcc.cpp:640-649 | for the current unit, counter 0, position 0 and an empty cache; for another unit, no change |
| ClangCC.ClangCodeCompletion.OnReparseFinished | clangcc.cpp:651-660 | for the current unit, counter 0, position 0 and an empty cache; for another unit, no change |
| ClangCC.ClangCodeCompletion.OnCodeCompleteFinished | clangcc.cpp:662-688 | with a positive counter and the caret unmoved, stores the results; a new completion is requested exactly when they are non-empty; otherwise the counter drops by one and never below 0 |
| ClangCC.CacheServesDeliveredResults | clangcc.cpp:361-381 | delivered results at the recorded caret are served; an emptied cache after a timeout is not; at another caret the cache is never served |

## Left out

- Editor and event wiring are not modelled: `OnAttach`/`OnRelease` of the engine, editor activation, close and hooks, the timers and the reparse request (clangcc.cpp:54-188, 634-638). They only connect UI events.
- `HighlightOccurrences` and `GetDocumentation` are not modelled: they render indicators or forward to the service.
- The image registration (clangcc.cpp:419-421) is not modelled: it passes bitmaps to the editor.
- The include-directory code and the empty `GetAutocompListIncludes` are not modelled. An include request ends `GetAutocompList` with no candidates.
- The warning logged when the unit is unknown (clangcc.cpp:289-290) is not modelled: it only writes to the log. The request is rejected with no candidates.
- The "busy parsing" notice and its wall-clock throttle (clangcc.cpp:291-295) are not modelled: they are UI and clock. The request is rejected with no candidates.
- The engine's own `GetProviderStatusFor` (clangcc.cpp:242-247) is not modelled: it compares colour-set languages of the editor.
- The call-tip event and the configuration read are not modelled. `tooltipMode` is a parameter, and only the boolean condition is modelled.
- The services of `IClangPlugin` are parameters, and so is the keyword list. So is the file's translation unit as answered for the active editor. `GetCodeCompletionInsertSuffix` is `suffixService`.
- ClangCC.ClangCodeCompletion.DoAutocomplete: the EOL string and line indent passed to the suffix service are not modelled, since the suffix is an oracle answer.
- `ClangEvent`'s wx event base and `Clone` are not modelled.
- The pointer left uninitialised by the `ClangPluginComponent` constructor is modelled as detached.
- `TokenDatabase`'s mutex is not modelled: the model is sequential.
- The file tables, `GetFilenameId`, `GetFilename`, `GetTokenMatches`, `GetFileTokens` and `Shrink` are not modelled: no implementation or contract is given for them.
- The token table is a sequence of entries; a token id is a position in it.
- The check `translUnitId != m_TranslUnitId` (clangcc.cpp:298) can never succeed. `GetCurrentTranslationUnitId` returns the field it has just set, so the model asserts the two are equal.
- Positions are character offsets; Scintilla's byte positions and multi-byte characters are not modelled.
- Lines end with '\n' only.
- `GetCharAt` is compared as a character; its signed byte result is not modelled.
- Text.Lower: lower-cases ASCII letters only, not the locale's full case mapping.
- Editor.FindText: case-insensitive for ASCII only.
- Text.SubString: negative arguments are clamped to 0; their size_t wrap-around is not modelled.
- CompletionFilter.PartialSortCut: fixes which candidates are kept only up to ties in weight; `std::partial_sort` leaves the order among equal weights unspecified.
- Re-lexing of styles after a replace is not modelled. `EnableTabSmartJump` and `ChooseCaretX` are not modelled either: they are editor display state.
- ClangCC.ClangCodeCompletion.GetAutocompList: the keyword list is read once per request, not once per candidate, since it is a parameter.
