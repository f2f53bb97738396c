# Entity post-processing of the NER service, modelled in Dafny

The NER endpoint of this service sends text to a token classifier and then
cleans up what comes back. The classifier returns one record
`{word, score, entity}` per token. The clean-up code is modelled here
(`src/ner_service.py` and the alternate helpers in `src/tmp_ner.py`), and
the model's properties are proved. Every step is a sequential list-to-list
rewrite. Each Python loop is a Dafny `method` with the same loop. Each
method is proved equal to a specification function over the input, and the
properties are lemmas about those functions.

- `text.dfy` (module `Text`): the Python built-ins the code leans on.
  - `str.split()` is `Words`; whitespace is the ASCII set `str.isspace` accepts.
  - `" ".join` is `Join`.
  - `str.replace("##", "")` is `StripMarkers`.
  - `str.startswith` is `StartsWith`.
- `entities.dfy` (module `Entities`):
  - the token record `Entity(word, score, entity)`, with scores as reals;
  - the score average `(a + b) / 2`;
  - `Result`, for the one exception the code can raise;
  - `Subseq`, "obtained by deleting elements".
- `capitalized_runs.dfy` (module `CapitalizedRuns`): the capitalised-run regex
  `\b([A-Z][a-z]+(?:\s[A-Z][a-z]+)*)\b` with `re.findall`, as an ASCII
  scanner. It returns the leftmost, non-overlapping, greedy matches, and
  accounts for the closing `\b` forcing the matcher to back off a trailing
  word.
- `ner_service.dfy` (module `NerService`):
  - the chunker `split_text_into_chunks`;
  - pass 1 `merge_adjacent_entities`;
  - pass 2 `merge_capitalized_sequences`;
  - the endpoint flow: chunk when the text has more than `WORD_LIMIT` words,
    classify every chunk, concatenate, then pass 1, then pass 2. The
    classifier `nlp_ner` is a function parameter.
- `tmp_ner.dfy` (module `TmpNer`): `merge_consecutive_entities`,
  `merge_based_on_capitalization`, `merge_names_with_initials` and
  `refine_merged_entities`.
- `scenarios.dfy` (module `Scenarios`): the endpoint on two concrete
  sentences, with a classifier that tags "Barack" and "Obama" as persons.

Two behaviours of the code are worth stating plainly. The model follows the
code in both.

- **A capitalised sequence at the start of the text.** Pass 2 skips every
  capitalised sequence the text starts with (`src/ner_service.py:89`).
  - For "Barack Obama visited Paris.", the sequence "Barack Obama" is the
    start of the text, so the two person spans stay apart
    (`Scenarios.VisitedReportsTwoNames`).
  - The same name inside a sentence, as in "He met Barack Obama.", is merged
    into one span (`Scenarios.MetReportsOneName`).
- **Long input.** The endpoint does not reject long input. When the text has
  more than `WORD_LIMIT` words it classifies the text chunk by chunk instead
  (`src/ner_service.py:155-161`), whereas the UI test at
  `tests/test_ui_endpoints.py:70-73` expects the message "Input text exceeds
  400 words. Please provide shorter text."

## Model

| member | source | states |
|---|---|---|
| NerService.SplitTextIntoChunks | src/ner_service.py:115-133 | the loop that fills `current_chunk` and closes it when full returns exactly the chunks of `Chunks` |
| NerService.PackCovers | src/ner_service.py:123-128 | at every step, the words of the closed chunks followed by the open chunk are the words read so far; the open chunk is empty only before the first word |
| NerService.PackStepCovers | src/ner_service.py:124-128 | one iteration of the loop keeps that invariant, whether the word joins the open chunk or closes it |
| NerService.PackClosedNormal | src/ner_service.py:127 | every closed chunk is its own words joined by single spaces |
| NerService.PackSizes | src/ner_service.py:123-128 | with a limit of at least 1, every closed chunk holds exactly `limit` words and the open chunk at most `limit` |
| NerService.ChunksCoverWords | src/ner_service.py:119-133 | splitting the chunks and concatenating gives exactly `text.split()`: nothing dropped, duplicated or reordered; each chunk is its words joined by single spaces; there are no chunks exactly when the text has no word |
| NerService.ChunkSize | src/ner_service.py:123-131 | for a limit of at least 1, chunk `k` has between 1 and `limit` words, and exactly `limit` unless it is the last |
| NerService.ChunkSizes | src/ner_service.py:123-131 | the same bounds for all chunks at once |
| NerService.ChunksOfBlankText | src/ner_service.py:119-133 | empty or whitespace-only text gives no chunk |
| NerService.ChunksWithoutRoom | src/ner_service.py:123-128 | with a limit below 1 the size test never passes: the result is an empty chunk "" followed by one chunk per word |
| NerService.PackNoRoom | src/ner_service.py:123-128 | the loop state behind `ChunksWithoutRoom`: closed chunks "" and every word but the last, the last word open |
| NerService.AdjacentMerge | src/ner_service.py:48-65 | pass 1 returns no span exactly for no token, and never more spans than tokens |
| NerService.MergeAdjacentEntities | src/ner_service.py:37-67 | the loop returns exactly `AdjacentMerge` of the tokens |
| NerService.AdjacentMergeStep | src/ner_service.py:53-65 | scanning one more token is one step on the spans built so far |
| NerService.ContinuationIsGlued | src/ner_service.py:57-59 | a token starting with "##" is appended to the open span without a space and with every "##" removed, whatever its label; the score becomes the average; the label stays |
| NerService.PlainTokenJoinsIff | src/ner_service.py:61-65 | a token without "##" joins the open span iff its label equals the span's label and is not "I-PER"; joining adds one space and averages the score; otherwise the token is appended unchanged |
| NerService.PersonTokenOpensSpan | src/ner_service.py:61-65 | an "I-PER" token without "##" always opens a new span |
| NerService.TwoTokensOfOneType | src/ner_service.py:61-63 | two tokens of one non-person label become one span "a b" with score `(a + b) / 2` |
| NerService.OpenersAreOrdered | src/ner_service.py:51-65 | each span has an opening token; the openers are strictly increasing token indices, and the first is token 0 |
| NerService.SpanGrewFromOpener | src/ner_service.py:51-65 | every span keeps the label of the token that opened it, and its word starts with that token's word |
| NerService.AbsorbGrows | src/ner_service.py:58-63 | a merge step changes only the word (by appending) and the score |
| NerService.FragmentsNeverOpen | src/ner_service.py:56-65 | no span after the first is opened by a "##" fragment |
| NerService.FirstSpanOpenedByFirstToken | src/ner_service.py:51 | the first span has the first token's label, and its word starts with the first token's word |
| Text.StripMarkersRemovesAll | src/ner_service.py:58 | `replace("##", "")` leaves no "##" anywhere in the word, not only at its start |
| Text.StripMarkersKeepsPlainText | src/ner_service.py:62 | a word with no "##" in it is appended unchanged |
| Text.StripMarkers | src/ner_service.py:58 | `replace("##", "")` never makes a word longer |
| CapitalizedRuns.CapitalizedSequences | src/ner_service.py:81 | every sequence found by the regex splits into one or more words of the form `[A-Z][a-z]+` |
| CapitalizedRuns.ScanFindsRuns | src/ner_service.py:81 | every match from any position on consists of capitalised words only |
| CapitalizedRuns.RunTailWords | src/ner_service.py:81 | what the starred group `(?:\s[A-Z][a-z]+)*` adds is whitespace followed by capitalised words |
| CapitalizedRuns.CapWordEnd | src/ner_service.py:81 | a word the pattern accepts is `[A-Z][a-z]+`, followed by a non-word character or the end of the text |
| CapitalizedRuns.CapWordEndFinds | src/ner_service.py:81 | conversely, every `[A-Z][a-z]+` at a position that a non-word character or the end of the text follows is found, with its exact end |
| CapitalizedRuns.LowerLenIs | src/ner_service.py:81 | `[a-z]+` takes exactly the lower-case letters up to the first other character |
| NerService.FirstWithWord | src/ner_service.py:93-104 | `index` of the first match finds the first span whose word equals the token, or reports that none does |
| NerService.Pieces | src/ner_service.py:109 | every element of `token_entities` equals the token or "##" + token |
| NerService.RemoveTokenPieces | src/ner_service.py:109-111 | removing, one at a time, each span that equals the token or "##"+token leaves exactly the other spans in order |
| NerService.RemoveNextPiece | src/ner_service.py:110-111 | `remove` of the i-th piece deletes the first equal element, which is that piece, from what the earlier removals left |
| NerService.DropAllPieces | src/ner_service.py:109-111 | removing all pieces in turn is the same as filtering them out |
| NerService.DropNothing | src/ner_service.py:109-111 | a token with no pieces removes nothing |
| NerService.RemoveSequenceTokens | src/ner_service.py:108-111 | the loop over the remaining tokens filters out every piece of each token |
| NerService.WithoutPiecesKeeps | src/ner_service.py:109-111 | a span survives one token's removal iff it is not a piece of that token; the order is kept |
| NerService.WithoutAllPiecesKeeps | src/ner_service.py:108-111 | a span survives iff it is a piece of none of the tokens; survivors keep their order |
| NerService.MergeCapitalizedSequences | src/ner_service.py:69-113 | the loop over the found sequences returns exactly `CapitalizedMerge` |
| NerService.ApplyRunEffect | src/ner_service.py:89-111 | a sequence changes the list iff it has at least two words, the text does not start with it, some span has its first word, and the span right after the first such span has its second word. When it merges: the first matching span gets the whole sequence as its word and survives; the list gets strictly shorter; no survivor is a piece of a remaining token; the others keep their order. Scores and labels keep their order in every case |
| NerService.SingleWordSkipped | src/ner_service.py:89-90 | a one-word sequence leaves the list unchanged |
| NerService.LeadingSequenceSkipped | src/ner_service.py:89-90 | a sequence the text starts with leaves the list unchanged |
| NerService.RunIsNoPiece | src/ner_service.py:105-109 | the rewritten span, whose word holds a space, is never a piece of a token, so it survives the removals |
| NerService.ApplyRunsKeepsTags | src/ner_service.py:85-111 | over any list of sequences the spans never grow, and their (score, label) pairs are a subsequence of the input's |
| NerService.CapitalizedMergeKeepsTags | src/ner_service.py:69-113 | pass 2 never adds spans; it only deletes spans and rewrites words |
| NerService.ClassifyChunks | src/ner_service.py:157-161 | the per-chunk results are concatenated in chunk order |
| NerService.NamedEntityRecognition | src/ner_service.py:152-166 | the endpoint classifies the whole text, or its chunks when it has more than the limit's words; then it runs pass 1 and then pass 2 |
| NerService.ClassifierInputsFit | src/ner_service.py:153-163 | with a limit of at least 1, every text sent to the classifier has at most `limit` words, and together they hold exactly the words of the request |
| NerService.RecognizeBound | src/ner_service.py:165-166 | the result has no more entities than the classifier returned, and none when it returned none |
| Scenarios.MetReportsOneName | src/ner_service.py:152-166 | "He met Barack Obama." with tokens Barack and Obama (both I-PER) gives one entity "Barack Obama" with Barack's score and label |
| Scenarios.VisitedReportsTwoNames | src/ner_service.py:89-90 | "Barack Obama visited Paris." with the same tokens gives the two spans unchanged, because the text starts with the sequence |
| Scenarios.NamesStayApart | src/ner_service.py:61-65 | pass 1 keeps the two person tokens apart |
| Scenarios.ShortTextUnchunked | src/ner_service.py:155-163 | a text shorter than the limit goes to the classifier whole |
| Scenarios.MetSequences | src/ner_service.py:81 | the regex finds "He" and "Barack Obama" in "He met Barack Obama." |
| Scenarios.VisitedSequences | src/ner_service.py:81 | the regex finds "Barack Obama" and "Paris" in "Barack Obama visited Paris." |
| Scenarios.PairMerged | src/ner_service.py:93-111 | a two-word sequence made of two consecutive spans' words fuses them into the first span |
| Scenarios.WordThenPair | src/ner_service.py:85-111 | a one-word sequence followed by such a pair fuses the pair |
| Scenarios.MetMerges | src/ner_service.py:85-111 | pass 2 on "He met Barack Obama." fuses the two person spans |
| Scenarios.VisitedKeeps | src/ner_service.py:85-111 | pass 2 on "Barack Obama visited Paris." changes nothing |
| TmpNer.MergeConsecutiveEntities | src/tmp_ner.py:18-35 | the loop with its `prev_entity` accumulator returns exactly `ConsecutiveMerge` |
| TmpNer.ConsecutiveJoinIff | src/tmp_ner.py:21-32 | a token joins the previous span iff it has the same label and score > 0.5 (there is no person exception). Joining adds one space and its word, and averages the score. Otherwise the token is appended as it is |
| TmpNer.ConsecutiveLength | src/tmp_ner.py:18-35 | the output is the input length minus the number of joins, and it is empty exactly for empty input |
| TmpNer.OpenSpanLabel | src/tmp_ner.py:29-32 | after at least one token there is an open span, and it carries the last token's label |
| TmpNer.RefineMergedEntities | src/tmp_ner.py:129-141 | the filter loop returns exactly `Keep` |
| TmpNer.KeepSelects | src/tmp_ner.py:132-141 | an entity is in the result iff it is in the input and its word is expected; the result is the input with entities deleted, so order and fields are kept |
| TmpNer.KeepIdempotent | src/tmp_ner.py:129-141 | refining twice is refining once |
| TmpNer.FirstWord | src/tmp_ner.py:46 | `split()[0]` is the first word, and fails exactly when the string has none |
| TmpNer.ExtendMatch | src/tmp_ner.py:52-62 | the extension test: the next word, when it is capitalised and either the entity is the last one or the word differs from the next entity's first word; an entity without words raises IndexError |
| TmpNer.MatchedEntity | src/tmp_ner.py:48-70 | a matched entity is emitted as its own words plus the extension, joined by spaces, with its own score and label |
| TmpNer.CapitalizeWord | src/tmp_ner.py:44-79 | the body of the loop for one word returns the new entity index and output, or the IndexError it raises |
| TmpNer.MergeBasedOnCapitalization | src/tmp_ner.py:38-81 | the loop returns exactly `CapitalizationMerge`, including the IndexError |
| TmpNer.CapStepMatch | src/tmp_ner.py:44-71 | a word equal to the current entity's first word emits that entity, with its extension, and moves to the next entity |
| TmpNer.CapStepGuess | src/tmp_ner.py:72-79 | any other word adds `{word, 0.5, "I-MISC"}` when it starts upper-case and nothing otherwise, and the entity index stays |
| TmpNer.CapStepNoWord | src/tmp_ner.py:46 | the current entity having no word raises |
| TmpNer.CapStepNoNextWord | src/tmp_ner.py:56-58 | the extension test on a next entity without words raises |
| TmpNer.CapFoldStopsAt | src/tmp_ner.py:43 | once an iteration raises, the call raises |
| TmpNer.CapFoldFails | src/tmp_ner.py:46-58 | the call raises only when some input entity's word holds no word |
| TmpNer.ExtensionExplained | src/tmp_ner.py:52-62 | a matched entity is extended by at most one word. That word is the one right after its words, it is capitalised, and it is not the next entity's first word |
| TmpNer.MatchExplained | src/tmp_ner.py:44-71 | emitting a matched entity keeps every emitted entity explained |
| TmpNer.GuessExplained | src/tmp_ner.py:72-79 | a guessed entity is a capitalised word of the text with score 0.5 and label "I-MISC" |
| TmpNer.CapStepExplained | src/tmp_ner.py:44-79 | each successful iteration keeps every emitted entity explained |
| TmpNer.AppendExplained | src/tmp_ner.py:64-79 | appending one explained entity keeps the output explained |
| TmpNer.ExplainedEach | src/tmp_ner.py:43-79 | the explanation holds for every emitted entity, one by one |
| TmpNer.CapFoldExplained | src/tmp_ner.py:43-79 | the explanation holds after every successful prefix of the words |
| TmpNer.CapitalizationMergeExplained | src/tmp_ner.py:38-81 | on success, at most one entity per word of the text is emitted. The input entities emitted are the first ones, in order, each with its own score and label, and its word is its own words plus at most one capitalised following word. Every other emitted entity is a capitalised word of the text with score 0.5 and label "I-MISC" |
| TmpNer.NameEnd | src/tmp_ner.py:110-114 | the index where the `while` loop stops is at or after its start and inside the list |
| TmpNer.MergeEnd | src/tmp_ner.py:103-120 | a merge takes in at least the next entity, and never reads past the end of the list |
| TmpNer.AbsorbNameParts | src/tmp_ner.py:110-114 | the `while` loop stops at the last consecutive name part (longer than two characters, upper-case first); its word is the joined words so far; its score is the running average |
| TmpNer.MergeInitial | src/tmp_ner.py:99-122 | the merged entity for an initial at `i`: the words from `i` to `MergeEnd` joined by spaces, the running average score, and the first initial's label |
| TmpNer.MergeNamesWithInitials | src/tmp_ner.py:84-127 | the `skip_next` loop returns exactly `InitialsFrom(entities, 0)` |
| TmpNer.InitialsMergeStep | src/tmp_ner.py:99-122 | an initial that is not the last entity emits one merged entity, and the loop then skips exactly the next index |
| TmpNer.InitialsKeepStep | src/tmp_ner.py:124-125 | any other entity is emitted as it is |
| TmpNer.InitialsLength | src/tmp_ner.py:91-125 | the output length is the input length minus the number of merges |
| TmpNer.InitialsShape | src/tmp_ner.py:91-125 | the output has between half of and all the entities, and its labels are a subsequence of the input's labels |
| TmpNer.InitialsKeepAll | src/tmp_ner.py:99 | without an initial before the last position the list is returned unchanged |
| TmpNer.InitialsShorten | src/tmp_ner.py:99-120 | an initial before the last position makes the output shorter |
| TmpNer.InitialsLengthIff | src/tmp_ner.py:91-125 | the length is kept iff no entity before the last is an initial |
| TmpNer.RowlingMerged | src/tmp_ner.py:86 | for "J.", "K.", "Rowling" the merge takes in all three, giving "J. K. Rowling" with the running average score and the label of "J." |
| TmpNer.RowlingAsWritten | src/tmp_ner.py:106-114 | as written, the same input gives "J. K. Rowling" followed by "Rowling" again |
| TmpNer.RowlingRepeated | src/tmp_ner.py:106-114 | as written, the output's words do not spell out the input's words |
| TmpNer.InitialsIntendedKeepsWords | src/tmp_ner.py:86 | with the loop continuing after the last absorbed entity, the output's words joined by spaces are exactly the input's, and the output is empty only for empty input |
| TmpNer.EmittedWord | src/tmp_ner.py:99-125 | each emitted entity's word is the words of the entities it covers, joined by spaces |
| TmpNer.JoinRowling | src/tmp_ner.py:86 | the three words joined by spaces read "J. K. Rowling" |
| TmpNer.RowlingIntended | src/tmp_ner.py:86 | with that correction, "J.", "K.", "Rowling" gives the single entity "J. K. Rowling" |
| Text.Words | src/ner_service.py:119 | `split()` yields only non-empty words without whitespace |
| Text.WordsOfJoin | src/ner_service.py:127 | splitting a space-joined list of words gives the list back |
| Entities.Average | src/ner_service.py:59 | the average of two scores lies between them |
| Entities.SubseqTags | src/ner_service.py:108-111 | deleting entities deletes their (score, label) pairs and keeps the rest in order |

The specification functions that the method rows name carry no contract of
their own; what they mean is stated by the lemmas about them in the rows
above. They are `NerService.Chunks` (`split_text_into_chunks`),
`NerService.CapitalizedMerge` (`merge_capitalized_sequences`),
`NerService.RemoveFirst` (`list.remove`), `CapitalizedRuns.Scan`
(`re.findall`), `Text.Join` (`" ".join`), `TmpNer.ConsecutiveMerge`,
`TmpNer.CapitalizationMerge`, `TmpNer.InitialsFrom` and `TmpNer.Keep`.

## Left out

- The HTTP layer, router, request and response models, and the `:.4f`
  formatting of the response (`src/ner_service.py:135-173`) are not
  modelled. The endpoint model returns the entity records themselves.
- Loading the tokenizer and the model (`src/ner_service.py:138-143`) is not
  modelled. The classifier `nlp_ner` is a parameter `classify`. Its internal
  behaviour and the real tokens it produces are outside the model.
- `WORD_LIMIT` comes from the environment (`src/ner_service.py:33`). The
  limit is a parameter; its default, 400, is the constant
  `DEFAULT_WORD_LIMIT`.
- The `NERService` HTTP client in `src/tmp_ner.py:4-15` is not modelled; it
  only forwards requests.
- Aliasing is not modelled, because entities are value records and every
  pass returns a new sequence.
  - `merge_adjacent_entities` updates the caller's dictionaries in place.
  - The shallow copy at `src/ner_service.py:83` lets line 105 change records
    that the caller still holds.
  - A record that appears twice in the same list is mutated once for both
    positions.
  - `merge_consecutive_entities` copies each record (`entity.copy()`), so in
    that pass the value view is exact.
- Scores are reals, not IEEE doubles, so rounding in `(a + b) / 2` and in
  `score > 0.5` is not modelled.
- Only ASCII text is modelled. Non-ASCII whitespace and letters seen by
  `str.split`, `str.isupper` and the regex classes are not.
- `CapitalizedRuns.CapitalizedSequences`: the contract only says that every
  match is a well-formed run of capitalised words. That no match is missed
  and every match is maximal is not proved. Agreement with `re.findall` is
  argued in the module comment, and the scanner's output is proved for the two
  example sentences (`Scenarios.MetSequences`, `Scenarios.VisitedSequences`).
  That `re.findall` gives the same output there was reasoned out, not proved.
- `NerService.LeadingSequenceSkipped`, `TmpNer.CapStepMatch`,
  `TmpNer.CapStepGuess`, `TmpNer.CapStepNoWord` and
  `TmpNer.CapStepNoNextWord` follow directly from the definitions. They are
  kept because they state the skip and branch rules one by one.
- The end-to-end UI tests (`tests/test_ui_endpoints.py`) are not modelled.
  That includes the expected "Input text exceeds 400 words" message, which the code never
  produces for the NER endpoint.

## Findings

| source | as written | input that shows it | evidently intended | confidence | as-written member | corrected member |
|---|---|---|---|---|---|---|
| src/tmp_ner.py:106-114 | `i += 1` inside `for i in range(...)` does not advance the loop, and `skip_next` skips only one index. Name parts taken in by the `while` loop are therefore visited again and emitted a second time | entities with words "J.", "K.", "Rowling" | a single entity "J. K. Rowling", as the function's doc comment at line 86 says, with the loop continuing after the last entity taken in | not executed | TmpNer.RowlingRepeated | TmpNer.InitialsIntendedKeepsWords |
