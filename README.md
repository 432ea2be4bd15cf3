# Grammar quiz session, modelled in Dafny

GrammarMaster is a single-page grammar quiz. A learner is shown ten multiple-choice questions from a fixed table. The learner can narrow them by grammar topic and by difficulty. For each question the learner picks an option, submits it and moves on. The results screen shows the score as a rounded percentage with one of four messages.

This project models the quiz's logic:

- **Question table** (`questions.dfy`, module `Questions`). The question record and the ten table entries with their tags and options. The explanation texts are left out. The lemmas state what the table satisfies: option sets, ids, tags used, and the single Advanced entry.
- **Filter engine** (`filters.dfy`, module `Filters`). The working set is the table filtered by a topic setting and a difficulty setting. Each setting is `All` or one value. The working set is proved to be exactly the ordered selection of the matching entries. Filtering is also proved idempotent, and `All`/`All` is proved to keep every entry.
- **Sentence split** (`sentence.dfy`, module `Sentence`). The sentence is split on the six-underscore blank marker (`Blank`), and the question view shows the text before the marker, the selection or a placeholder, and the text after it. Split is modelled for any non-empty separator and proved lossless. Every table sentence is proved to hold the marker exactly once.
- **Truthiness** (`maybe.dfy`, module `Maybe`). `Option` and the JavaScript truthiness of a `string | null`.
- **Results** (`results.dfy`, module `Results`). The rounded percentage and the message chosen from it.
- **Session** (`quiz.dfy`, module `Quiz`). This module has two layers:
  - The seven component fields as a value `State`, with `Step` (one case per event handler) and `Offered` (which control the current screen shows).
  - The same fields as a class `Session`. Each of its handler methods updates the fields in place and is proved to produce `Step` of the old fields.
  - A reachable-state invariant is proved to be kept by every offered handler, both on single steps and on runs. Client methods play three concrete sessions through the class.

### Behaviour worth noting

The model follows `src/App.tsx` as written. Four points of that behaviour shape the properties proved here:

- **Filter change and score.** The filter handlers at `src/App.tsx:188` and `:200` reset the index, the selection and the submitted flag but keep the score. So points carry over to the new working set, and the score can exceed its length. `CarriedScoreSession` plays a session that ends at 2 points out of 1 question, which is 200 percent. `ResultsViewBound` and `PercentageWithoutFilterChange` prove the bound that still holds.
- **Submit and next have no guard of their own.** The submit handler (`:48-54`) tests only that the selection is truthy, so a second call scores again (`SubmitScoresOncePerQuestion`). The next handler (`:56-64`) does not test the submitted flag. Only the screen guards them: it shows the submit button before submitting and the next button after it (`:259-280`).
- **Restart.** The restart button is rendered only on the results screen (`:124-131`). It keeps both filters (`:66-72`).
- **`isCorrect`.** It compares the selection with the current question's answer whatever the submitted flag (`:41`).

The handlers are modelled without guards they do not have. The screen's guards are the predicate `Quiz.Offered`. The laws that need a guard take `Offered` as a hypothesis.

## Model

| member | source | states |
|---|---|---|
| `Questions.EntryFacts` | src/types.ts:34-175 | each entry, taken alone, has four pairwise distinct options that include its correct answer, a topic other than Conjunction, Tense and Voice, and is Advanced exactly when it is entry "9" |
| `Questions.TableOptionsWellFormed` | src/types.ts:34-175 | every entry's correct answer is one of its options, and every entry has exactly four options, pairwise distinct |
| `Questions.TableIds` | src/types.ts:36-162 | the table has ten entries, and its ids are "1" to "10" in table order, hence pairwise distinct |
| `Questions.TableTags` | src/types.ts:34-175 | no entry is tagged Conjunction, Tense or Voice; the only Advanced entry is id "9", a NounClause question |
| `Filters.FilterQuestions` | src/App.tsx:32-38 | the working set is no longer than the table and each of its entries passes both the topic and the difficulty setting |
| `Filters.FilterMembership` | src/App.tsx:32-38 | a question is in the working set if and only if it is in the table and passes both settings |
| `Filters.FilterAppend` | src/App.tsx:32-38 | filtering a concatenation is the concatenation of the filtered parts, so entries are never reordered |
| `Filters.MatchingPositions` | src/App.tsx:32-38 | reference definition: the positions of the matching entries, each in range and matching, in strictly increasing order |
| `Filters.MatchingPositionsComplete` | src/App.tsx:32-38 | every position whose entry matches is among the listed positions |
| `Filters.FilterIsOrderedSelection` | src/App.tsx:32-38 | the working set is exactly the entries at the matching positions, in position order: the ordered subsequence of matching entries |
| `Filters.FilterAllAll` | src/App.tsx:34-35 | with both settings at `All` the working set is the whole input |
| `Filters.FilterIdempotent` | src/App.tsx:32-38 | filtering a working set again with the same settings changes nothing |
| `Filters.TableUnfiltered` | src/App.tsx:29-38 | with the initial `All`/`All` settings the working set is the whole ten-entry table |
| `Filters.TableUnusedTopics` | src/types.ts:34-175 | choosing Conjunction, Tense or Voice gives an empty working set, whatever the difficulty |
| `Filters.TableAdvancedOtherTopics` | src/types.ts:34-175 | choosing Advanced with a topic setting that excludes NounClause gives an empty working set |
| `Filters.TableAdvancedNounClause` | src/types.ts:146-160 | choosing Advanced with a topic setting that admits NounClause gives exactly entry "9" |
| `Sentence.SplitFrom` | src/App.tsx:75 | a split with a non-empty separator always yields at least one part |
| `Sentence.Split` | src/App.tsx:75 | `split` with a non-empty separator yields at least one part and loses nothing: the parts joined with the separator give the sentence back |
| `Sentence.SplitPartsFree` | src/App.tsx:75 | no part of a split contains the separator |
| `Sentence.SplitOneBlank` | src/App.tsx:75 | a sentence made of a prefix, the blank marker and a suffix, with no other underscore, splits into exactly that prefix and suffix |
| `Sentence.RenderSentence` | src/App.tsx:74-91 | the text shown before the blank is the start of the sentence, and neither shown piece of the sentence holds a marker |
| `Sentence.RenderOneBlank` | src/App.tsx:74-91 | such a sentence is shown as its prefix, then the selection when it is truthy or the placeholder "......" otherwise, then its suffix |
| `Sentence.SentenceOfTwoParts` | src/types.ts:37-163 | a table sentence written as prefix, marker and suffix splits into those two parts, which joined with the marker give the sentence back |
| `Sentence.TableSentences` | src/types.ts:37-163 | every table sentence holds the six-underscore marker exactly once: it splits into exactly two parts |
| `Results.Percentage` | src/App.tsx:94 | the result is the integer nearest to 100 * score / total, with halves rounded up |
| `Results.PercentageUnique` | src/App.tsx:94 | no other integer meets that rounding bracket, so the rounded value is determined |
| `Results.PercentageBounds` | src/App.tsx:94 | no points give 0; full marks give exactly 100; a score at most the total gives at most 100; a score at least the total gives at least 100 |
| `Results.PercentageMonotone` | src/App.tsx:94 | more points never give a lower percentage |
| `Results.MessageFor` | src/App.tsx:95-98 | "perfect" exactly at 100, "excellent" at 80 or more other than 100, "good" from 60 to 79, "keep going" below 60; each percentage gets exactly one message |
| `Results.MessageMonotone` | src/App.tsx:95-98 | up to 100, a higher percentage never gets a worse message |
| `Results.ResultExamples` | src/App.tsx:94-98 | one of two right is 50 percent with "keep going"; all right is "perfect" |
| `Quiz.CurrentQuestion` | src/App.tsx:40 | there is a current question exactly when the index is inside the working set, and it is then a table entry that passes both filters |
| `Quiz.IsCorrect` | src/App.tsx:41 | no selection or no current question is never correct, and a correct selection is one of the current question's options |
| `Quiz.ViewOf` | src/App.tsx:93-153 | the results screen is tested first and shown whenever results are open, even for an empty working set; otherwise the empty screen for an empty working set and the question screen for a non-empty one |
| `Quiz.Step` | src/App.tsx:43-72 | one case per handler (the four named handlers and the inline ones at :144, :188, :200): only submit raises the score, by one; only restart lowers it, to 0; only the filter handlers touch the filters; only next opens the results and only restart closes them |
| `Quiz.Offered` | src/App.tsx:124-280 | the controls each screen renders: restart alone on the results screen (:124-131); clear-filters alone on the empty screen (:143-146); on the question screen both selects (firing only on a new value, :183-209), the option buttons while not submitted (:238-255), and submit before submitting with a truthy selection or next after submitting, never both (:259-280) |
| `Quiz.Invariant` | src/App.tsx:24-72 | the reachable-state invariant bounds the score by the carried score plus the working set's length, and keeps the index inside the working set on the question screen |
| `Quiz.StepKeepsInvariant` | src/App.tsx:43-72 | every handler the screen offers keeps the invariant. The invariant: the index is 0 or inside the working set; results imply a non-empty set, a submitted answer and the last index; a submitted answer is truthy; the score is at most the carried score plus the index plus one if submitted |
| `Quiz.QuestionViewInRange` | src/App.tsx:40 | on the question screen the index is inside the working set, so the current question exists and the progress counter reads 1 to the set's length |
| `Quiz.SelectLaw` | src/App.tsx:43-46 | before submitting, a selection replaces the previous one and changes nothing else; after submitting it changes nothing; of two selections the last wins |
| `Quiz.SubmitLaw` | src/App.tsx:48-54 | with a null or empty selection submit changes nothing; otherwise it sets submitted and adds exactly one point if and only if the selection is the correct answer, and changes nothing else |
| `Quiz.SubmitScoresOncePerQuestion` | src/App.tsx:48-54 | the handler alone scores a correct answer again on a second call, but after a submit the screen no longer offers submit |
| `Quiz.NextLaw` | src/App.tsx:56-64 | below the last index, next moves on and clears the selection and the submitted flag; on the last it only opens the results; the score is unchanged; next is not offered before submitting |
| `Quiz.ResetLaw` | src/App.tsx:66-72 | restart returns to the initial fields except that both filters are kept, so with an empty working set it lands on the empty screen |
| `Quiz.FilterChangeLaw` | src/App.tsx:188-200 | a topic or difficulty change sets that filter, returns to index 0 with no selection and not submitted, and keeps the score |
| `Quiz.ClearFiltersLaw` | src/App.tsx:143-146 | clearing the filters on the empty screen brings back the whole table on the question screen at its first question |
| `Quiz.ResultsViewBound` | src/App.tsx:93-94 | on the results screen the working set is non-empty, the score is at most the carried score plus its length, and with nothing carried the percentage is at most 100 |
| `Quiz.RunKeepsInvariant` | src/App.tsx:43-72 | any sequence of offered handler calls keeps the invariant |
| `Quiz.RunScore` | src/App.tsx:48-54 | without a restart, the score grows by exactly the number of submissions of a truthy, correct selection |
| `Quiz.CarriedWithoutFilterChange` | src/App.tsx:188-200 | without a filter change the carried score never grows |
| `Quiz.PercentageWithoutFilterChange` | src/App.tsx:93-94 | from the first screen, a session that never changes a filter reaches results with a percentage of at most 100 |
| `Quiz.Session.constructor` | src/App.tsx:24-30 | the fields start at index 0, no selection, not submitted, score 0, results hidden, both filters `All`, and satisfy the invariant |
| `Quiz.Session.HandleAnswerSelect` | src/App.tsx:43-46 | the new fields are `Step` of the old ones for this selection; offered, it keeps the invariant |
| `Quiz.Session.HandleSubmit` | src/App.tsx:48-54 | the new fields are `Step` of the old ones for submit; offered, it keeps the invariant |
| `Quiz.Session.HandleNext` | src/App.tsx:56-64 | the new fields are `Step` of the old ones for next; offered, it keeps the invariant |
| `Quiz.Session.HandleReset` | src/App.tsx:66-72 | the new fields are `Step` of the old ones for restart; the carried score is 0 and the invariant holds |
| `Quiz.Session.SetCategoryFilter` | src/App.tsx:188 | the new fields are `Step` of the old ones for the topic change; the old score becomes the carried score; offered, it keeps the invariant |
| `Quiz.Session.SetDifficultyFilter` | src/App.tsx:200 | the new fields are `Step` of the old ones for the difficulty change; the old score becomes the carried score; offered, it keeps the invariant |
| `Quiz.Session.ResetFilters` | src/App.tsx:144 | the new fields are `Step` of the old ones for clearing both filters; offered, it keeps the invariant |
| `Quiz.AdvancedAnsweredOnce` | src/App.tsx:200 | narrowing to Advanced and answering entry "9" correctly leaves one point on that single question, submitted |
| `Quiz.PerfectSession` | src/App.tsx:93-96 | Advanced only, entry "9" answered correctly: one point out of one, 100 percent, "perfect" |
| `Quiz.CarriedScoreSession` | src/App.tsx:188-200 | entry "9" answered correctly, the topic switched to NounClause (same single question, point kept), answered again: 200 percent, "excellent" |
| `Quiz.EmptyFilterSession` | src/App.tsx:136-151 | choosing the Tense topic shows the empty screen; clearing the filters returns to the first of all ten questions |

## Left out

- Rendering is left out because it is presentation, not logic. This covers the JSX markup, the class-name selection (`cn`, `clsx`, `twMerge`), the animations and the icons. The correct/incorrect colouring of options and the explanation panel are part of this.
- The explanation texts and the Chinese display strings are static display data. The four messages are the enum `Results.Message`. The enum labels of topics and levels are datatype constructors.
- The progress bar's width (`src/App.tsx:174`) is floating-point and left out. The counter `index + 1 / length` is covered by `QuestionViewInRange`.
- `Results.Percentage`: computed with exact integers, not in floating point. Its requires excludes an empty working set. There the source would compute `NaN` for a score of 0, which shows "keep going", and `Infinity` for a positive score, which shows "excellent". `ResultsViewBound` proves the results screen never has an empty set, so neither case is reachable.
- React hook mechanics, the `useState` batching and the `useMemo` caching, are left out. Each handler's updates are applied in order to the current fields. Each handler reads the fields as they were when it started, as the source's closures do.
- The unused `@google/genai` import in `src/types.ts:1` is left out.
- `Questions.Q5` and `Questions.Q10` write their sentence text after the blank in two concatenated pieces. The value is the same string.
- The comment on the `sentence` field in `src/types.ts:21` says `"____"` (four underscores). The code splits on six (`src/App.tsx:75`), and so does the model, as do all table sentences.
