# Flashcard generator and study pages — a Dafny model

The Flashcard application turns an uploaded PDF into a deck of exam-style
question/answer cards. Each card carries a mark value (1, 2, 5 or 10) and a
difficulty ("easy", "medium" or "hard"). The cards are then studied on four
client pages: a multiple-choice quiz, a read-aloud page with per-difficulty
progress bars, a test mode stepping through one difficulty, and a review page
over the local upload history.

This project models the server routes that build the deck and the state
transitions of the four study pages. Everything is pure Dafny functions over
immutable datatypes, plus a few loop-based methods proved equal to their
functional definitions.

- **Generation route** (`server/routes/flashcards.js`). The model covers:
  - the difficulty heuristic;
  - the three-rung JSON extraction from the model reply (the array slice, the
    repair of trailing commas, and the per-object regular expression);
  - answer padding by marks;
  - the deterministic fallback generator, with its 6/8/4/2 distribution table
    and its sentence splitting;
  - the completion rules (fall back under 15 cards, cut to 20, top up below 20);
  - the final normalisation of every card;
  - the text chunking that selects the context sent to the model.

  The language model itself is a parameter: its reply is an `Option<string>`,
  where `None` stands for a failed call. JSON parsing is a parameter
  `parse: string -> Option<Json>`.
- **Legacy upload route** (`server/routes/upload.js`). The model covers line
  pairing of non-blank lines into cards and its length-only difficulty rule.
- **QuizPage.jsx**:
  - questions with one correct and three fixed wrong options;
  - shuffling, modelled as an explicit list of swaps;
  - the 15-question cap;
  - answer recording, scoring and the Next/Previous/Finish buttons.
- **QnSpeakPage.jsx**:
  - the mark-to-difficulty buckets and the totals per bucket;
  - the shown counters and the rounded percentages;
  - loading, moving to the next card and revealing the answer.
- **TestMode.jsx**. The model covers filtering by difficulty, the
  equal-share progress bar capped at 100, and changing the level.
- **ReviewPage.jsx**. The model covers mounting on the latest upload, the
  marks filter and its counts, flipping cards, selecting an upload and
  deleting one.

Modules, one per file:

| module | contents |
|---|---|
| `Wrappers` | `Option`, `Result` |
| `Text` | JavaScript string helpers: `trim`, `split`, `join`, `toLowerCase` (ASCII) |
| `Lists` | `Array.prototype.filter` and its laws |
| `Cards` | the raw and final card records, JavaScript truthiness, `marks \|\| 1` |
| `Difficulty` | both difficulty heuristics |
| `Chunking` | the context selection |
| `Extraction` | `extractJSON` |
| `Fallback` | `generateFallbackFlashcards` |
| `Padding` | the answer-padding map |
| `Normalize` | the final map |
| `Pipeline` | the route itself |
| `LegacyUpload` | `upload.js` |
| `Quiz`, `SpeakProgress`, `TestMode`, `Review` | the pages |

## Where the code and the documented behaviour differ

The model follows the code. The following points differ from the documented
behaviour:

- **Fallback wrap-around.** The fallback generator's
  `sentences[cardIndex % sentences.length]` never wraps, because the loop
  guard keeps `cardIndex < sentences.length`. Slot k always uses sentence k.
  So the fallback yields at most one card per sentence and at most 20 cards.
  A short text can yield fewer than 20 cards, or none. The 6/8/4/2
  distribution is an upper bound per mark value, not a guarantee
  (`Fallback.FallbackCounts`).
- **Duplicated top-up.** When the fallback has replaced a short extraction,
  the top-up to 20 appends a prefix of the same fallback list again. Cards
  are duplicated (`Pipeline.CompleteUsesFallback`).
- **Trailing ellipsis.** Normalisation removes one trailing `...` before
  trimming. A trailing ellipsis can therefore survive: `"w......"` becomes
  `"w..."` (`Normalize.NormalizeAnswerKeepsInnerEllipsis`).
- **Repeated quiz answers.** Going back to a question and pressing Next again
  records a second answer for it. The review list can hold the same question
  twice (`Quiz.AnswersCanRepeat`).
- **Load registers nothing.** On the read-aloud page, the first card's
  progress bump on load reads the totals captured before they were set. Those
  are all zero, so the bump does nothing (`SpeakProgress.Load`,
  `SpeakProgress.LoadValid`).
- **Test mode misses computed difficulties.** Test mode filters on
  "Easy"/"Medium"/"Hard", while the generation route writes lower-case names
  whenever it computes the difficulty itself: for every fallback card and for
  every reply card that has no difficulty. Such cards are never shown there
  (`TestMode.ServerNamesNeverShown`). A reply card that already says
  "Easy" keeps it verbatim and is shown.
- **Unreachable bare-object branch.** The repair rung of `extractJSON` returns
  the parsed value unwrapped. A parsed object has no `length`, so the route
  would answer with an error. This branch is unreachable with a real JSON
  parser, because the repaired slice starts with `[`
  (`Extraction.NoBareWithArrayParser`).

## Model

| member | source | states |
|---|---|---|
| Text.Trim | server/routes/flashcards.js:252 | `trim` returns the stretch of the string that starts right after its leading white space and is followed only by white space, with no white space at either end |
| Text.LeadingSpaces | server/routes/flashcards.js:252 | the leading white space `trim` drops is the longest all-white-space prefix |
| Text.TrimIdempotent | server/routes/flashcards.js:252 | trimming twice gives the same result as trimming once |
| Text.TrimmedIsFixpoint | server/routes/flashcards.js:252 | trimming a string without surrounding white space returns it unchanged |
| Text.Split | server/routes/flashcards.js:15-16 | `split(' ')` yields one more piece than there are separators, and no piece contains the separator |
| Text.JoinSplit | server/routes/flashcards.js:92 | joining the pieces of a split with the separator gives back the original string |
| Text.SplitLower | server/routes/flashcards.js:14-16 | lower-casing then splitting on a non-letter gives the lower-cased pieces of the original split |
| Lists.Filter | client/src/pages/TestMode.jsx:17-19 | `filter` keeps exactly the elements passing the test: every kept element passes and is from the input, every passing input element is kept |
| Lists.FilterAppend | client/src/pages/TestMode.jsx:17-19 | filtering a concatenation is the concatenation of the filtered parts, so the input order is kept |
| Lists.FilterIdempotent | client/src/pages/ReviewPage.jsx:45-47 | filtering twice with the same test equals filtering once |
| Lists.FilterKeepsAll | client/src/pages/ReviewPage.jsx:45-47 | when every element passes, the filter returns the whole list |
| Lists.FilterDropsAll | client/src/pages/TestMode.jsx:17-19 | when no element passes, the filter is empty |
| Cards.OrElse | server/routes/flashcards.js:260 | `x \|\| d` on a string is `x` exactly when `x` is present and non-empty, `d` otherwise |
| Cards.MarksOr1 | server/routes/flashcards.js:197 | `marks \|\| 1` never gives 0 and keeps every non-zero mark |
| Difficulty.LongWords | server/routes/flashcards.js:15 | counts at most one per word, and none exactly when no word is longer than 8 characters |
| Difficulty.Classify | server/routes/flashcards.js:13-22 | the result obeys the two thresholds: easy needs length under 80 and under 10% long words; medium needs under 200 and under 20% long words and must fail the easy test; hard means both tests failed; length 200 or more is always hard |
| Difficulty.ShortPlainIsEasy | server/routes/flashcards.js:14-19 | a short question and answer made of words of at most 8 letters is easy, whatever the letter case |
| Difficulty.DenseIsHard | server/routes/flashcards.js:17-21 | when at least a fifth of the words are longer than 8 letters, the card is hard at any length |
| Difficulty.LowerKeepsShortWords | server/routes/flashcards.js:14-15 | lower-casing does not turn a short word into a long one |
| Difficulty.LegacyClassify | server/routes/upload.js:12-17 | easy iff the combined text is under 50 characters, medium iff 50 to 99, hard iff 100 or more |
| Difficulty.LegacyMonotone | server/routes/upload.js:12-17 | a longer question plus answer never gets a lower difficulty |
| Chunking.Chunks | server/routes/flashcards.js:148 | every chunk holds 1 to 4000 characters and no line or paragraph separator |
| Chunking.ChunksCover | server/routes/flashcards.js:148 | the chunks concatenate to the text minus the separators `.` cannot match |
| Chunking.ChunksConcatenate | server/routes/flashcards.js:148 | without such separators, the chunks concatenate back to the whole text |
| Chunking.ChunksAreFull | server/routes/flashcards.js:148 | every chunk but the last has exactly 4000 characters |
| Chunking.SelectedContext | server/routes/flashcards.js:149 | the context is at most 6 chunks of 4000 characters plus 5 newlines |
| Chunking.Kept | server/routes/flashcards.js:149 | `slice(0, 6)` keeps the first min(6, n) chunks, in order |
| Chunking.JoinBound | server/routes/flashcards.js:149 | joining k ≥ 1 chunks with newlines gives their total length plus exactly k-1 characters, so at most k·4000 + k-1 |
| Chunking.SelectedContextIsPrefix | server/routes/flashcards.js:148-149 | without line or paragraph separators, the kept chunks are the first min(length, 24000) characters cut into 4000-character pieces, and the context is those pieces joined by newlines, of length min(length, 24000) + k-1 |
| Extraction.IndexOf | server/routes/flashcards.js:27 | `indexOf` is -1 iff the character is absent, otherwise its first position |
| Extraction.LastIndexOf | server/routes/flashcards.js:28 | `lastIndexOf` is -1 iff the character is absent, otherwise its last position |
| Extraction.BracketSlice | server/routes/flashcards.js:45 | the slice is the text from the first `[` to the last `]`, both included, and it is empty iff no `[` comes before a `]` |
| Extraction.ObjectMatchesFrom | server/routes/flashcards.js:32 | every match is a brace-delimited object without inner braces that mentions `"question"` |
| Extraction.MatchStarts | server/routes/flashcards.js:32 | lists positions where the object pattern matches (a `{`, then the first brace after it is a `}`, with `"question"` in between) |
| Extraction.MatchStartsComplete | server/routes/flashcards.js:32 | the match positions come in increasing order and none is missed |
| Extraction.ObjectMatchesAreStarts | server/routes/flashcards.js:32 | the global search returns exactly the texts at the match positions, in order: the k-th result runs from the k-th position to its closing brace |
| Extraction.DropTrailingCommas | server/routes/flashcards.js:54-55 | removing commas before a closing bracket never lengthens the text |
| Extraction.DropTrailingCommasKeepsContent | server/routes/flashcards.js:54-55 | the repair removes only commas and white space before a closing bracket: all other characters survive in order |
| Extraction.DropTrailingCommasRemoves | server/routes/flashcards.js:54-55 | wherever it stands, a comma followed by white space and the closing character is replaced by that character, and the text on either side is repaired independently |
| Extraction.DropTrailingCommasAppend | server/routes/flashcards.js:54-55 | the repair of `a + t` is the repair of `a` followed by that of `t` when `t` starts with neither white space nor the closing character |
| Extraction.NoCloseUnchanged | server/routes/flashcards.js:54-55 | a text without the closing character passes that repair unchanged |
| Extraction.Repair | server/routes/flashcards.js:52-55 | both repair passes together never lengthen the text and keep every character other than commas and white space, in order |
| Extraction.RepairRemovesBeforeBracket | server/routes/flashcards.js:52-55 | in a text without `}`, a comma with white space before a `]` is removed and the text on either side repaired independently |
| Extraction.DropTrailingCommasNoComma | server/routes/flashcards.js:54-55 | a text without commas passes the repair unchanged |
| Extraction.KeepsFirst | server/routes/flashcards.js:54-55 | the repair keeps a leading `[` in place |
| Extraction.ParseEach | server/routes/flashcards.js:35 | mapping `JSON.parse` over the matches succeeds iff every match parses, and then card k is match k as parsed |
| Extraction.ExtractJSON | server/routes/flashcards.js:25-62 | without both brackets, the result is a card list; when the slice parses, the result is a card list; a bare object appears only when the slice fails and its repair parses to an object |
| Extraction.OnlySliceMatters | server/routes/flashcards.js:44-61 | with both brackets present, the result depends only on the bracket slice |
| Extraction.ObjectRungAllOrNothing | server/routes/flashcards.js:30-42 | without both brackets, the result is a card list: when every match parses, card k is match k as parsed; one unparsable match empties the list |
| Extraction.ExtractArray | server/routes/flashcards.js:44-47 | when the slice parses to an array, its elements are the cards |
| Extraction.ExtractObject | server/routes/flashcards.js:44-47 | when the slice parses to one object, it is wrapped as the only card |
| Extraction.ExtractRepaired | server/routes/flashcards.js:48-56 | when only the repaired slice parses, an array gives its elements as the cards and an object is returned bare |
| Extraction.ExtractGivesUp | server/routes/flashcards.js:57-60 | when neither the slice nor its repair parses, the result is an empty card list |
| Extraction.NoBareWithArrayParser | server/routes/flashcards.js:51-56 | with a parser that reads `[` texts as arrays, extraction never returns a bare object |
| Fallback.SplitStops | server/routes/flashcards.js:66 | splitting on runs of `.`, `!`, `?` yields pieces without such characters |
| Fallback.StopRuns | server/routes/flashcards.js:66 | the separators the split consumes are non-empty runs of stops |
| Fallback.SplitStopsRoundTrip | server/routes/flashcards.js:66 | there is one more piece than there are runs, and interleaving the pieces with the runs gives back the text, so the split happens exactly at every maximal run of stops |
| Fallback.MakeQuestion | server/routes/flashcards.js:90-108 | the question opens with the mark's own phrase ("What is " ending in `?`, "Explain ", "Describe in detail: ", "Provide a comprehensive analysis of ") |
| Fallback.SplitStopsCover | server/routes/flashcards.js:66 | the pieces concatenate to the text with the stops removed |
| Fallback.Sentences | server/routes/flashcards.js:66 | every kept sentence has more than 20 characters after trimming and contains no stop |
| Fallback.SlotMarks | server/routes/flashcards.js:69-75 | every slot carries one of the table's mark values 1, 2, 5, 10 |
| Fallback.RowMarks | server/routes/flashcards.js:70-80 | the slots of table row d all carry that row's mark |
| Fallback.MakeAnswer | server/routes/flashcards.js:90-117 | the answer ends with a full stop and is bounded per mark value (61, 203, 301, 601 characters) |
| Fallback.BuildCard | server/routes/flashcards.js:87-125 | a built card keeps its slot's marks, has a bounded answer ending in a full stop, and has the heuristic's difficulty name |
| Fallback.Slots | server/routes/flashcards.js:80-85 | the slots that yield cards are exactly the positions, in order, whose sentence has at least 30 characters |
| Fallback.CardsUpToStep | server/routes/flashcards.js:80-128 | a short sentence adds no card; a long one appends the card for its own slot |
| Fallback.Close | server/routes/flashcards.js:93 | cutting to n characters, trimming and adding a full stop gives at most n+1 characters ending in a full stop |
| Fallback.SlotMapIndex | server/routes/flashcards.js:79-129 | entry j of the per-slot map is the builder applied to the j-th usable slot |
| Fallback.CardSource | server/routes/flashcards.js:79-129 | card j is built from the j-th usable slot's sentence with that slot's marks |
| Fallback.CardsSources | server/routes/flashcards.js:79-129 | the j-th fallback card is built from the j-th usable slot with that slot's marks |
| Fallback.Wrap | server/routes/flashcards.js:81 | the modulo never changes an index below the sentence count, so slot k reads sentence k |
| Fallback.GenerateFallback | server/routes/flashcards.js:65-132 | the loop version returns the functional fallback deck |
| Fallback.WalkTable | server/routes/flashcards.js:79-129 | walking the four table rows builds the cards of the first min(20, sentences) slots |
| Fallback.WalkStep | server/routes/flashcards.js:80-127 | within row d, a short sentence adds no card and a long one adds the card built with the row's marks, which are the slot's marks |
| Fallback.Visit | server/routes/flashcards.js:81-127 | one inner-loop iteration extends the deck exactly as the reference definition does for one more slot |
| Fallback.WalkRow | server/routes/flashcards.js:80-128 | one row's inner loop extends the deck to the row's end slot, or stops early when the sentences run out |
| Fallback.FallbackSize | server/routes/flashcards.js:65-132 | at most 20 cards, at most one per sentence, none from a text of 20 characters or fewer |
| Fallback.FallbackSources | server/routes/flashcards.js:79-129 | the cards come from strictly increasing slots below 20, each with a sentence of at least 30 characters |
| Fallback.FallbackAnswers | server/routes/flashcards.js:87-125 | every fallback card has a table mark and a bounded answer ending in a full stop |
| Fallback.FallbackOrdered | server/routes/flashcards.js:69-79 | fallback cards come in non-decreasing mark order: 1s, then 2s, 5s and 10s |
| Fallback.CardsOrdered | server/routes/flashcards.js:69-79 | the same order holds for every prefix of the slot walk |
| Fallback.CountInRange | server/routes/flashcards.js:69-80 | cards with a given mark come only from that mark's slot range |
| Fallback.CardsMarks | server/routes/flashcards.js:79-129 | each card's marks are its slot's marks |
| Fallback.CardsCounts | server/routes/flashcards.js:69-75 | no mark value occurs more often than the table's count for it |
| Fallback.FallbackCounts | server/routes/flashcards.js:69-75 | the fallback deck has at most 6 one-mark, 8 two-mark, 4 five-mark and 2 ten-mark cards |
| Fallback.FallbackFull | server/routes/flashcards.js:79-85 | when every sentence is long enough, the deck has min(20, sentences) cards |
| Fallback.AllSlots | server/routes/flashcards.js:80-85 | with only long sentences, every slot yields a card |
| Padding.WordCount | server/routes/flashcards.js:196 | a truthy answer counts its space-separated pieces, at least one; a missing or empty answer counts 0 |
| Padding.Pad | server/routes/flashcards.js:195-221 | padding keeps question, marks and difficulty, and either leaves the card alone or appends the mark's sentence to the answer (to "undefined" when the answer is missing) |
| Padding.PadExactly | server/routes/flashcards.js:206-218 | a card is padded iff it has 2 marks and under 40 words, 5 marks and under 80, or 10 marks and under 200 |
| Padding.PadAll | server/routes/flashcards.js:195-221 | the map pads each card in place and keeps the count |
| Normalize.StripEllipsis | server/routes/flashcards.js:252 | removes exactly one trailing `...` and nothing else |
| Normalize.Terminated | server/routes/flashcards.js:254-257 | appending a full stop to a trimmed unterminated answer keeps it trimmed and makes it terminated |
| Normalize.NormalizeAnswer | server/routes/flashcards.js:249-257 | every final answer is non-empty, trimmed, and ends in `.`, `!` or `?` |
| Normalize.NormalizeMissingAnswer | server/routes/flashcards.js:249-257 | a missing or empty answer becomes "No answer provided." |
| Normalize.NormalizeLettered | server/routes/flashcards.js:249-257 | an answer that starts and ends with a letter only gains a full stop |
| Normalize.NormalizeAnswerKeepsFinal | server/routes/flashcards.js:249-257 | an already trimmed, terminated answer without a trailing ellipsis is kept verbatim |
| Normalize.NormalizeStripped | server/routes/flashcards.js:249-257 | after the ellipsis is removed, a terminated remainder is kept and an unterminated one gets a full stop |
| Normalize.NormalizeAnswerEllipsis | server/routes/flashcards.js:252-257 | an answer cut off with `...` ends with a single full stop instead |
| Normalize.NormalizeAnswerKeepsInnerEllipsis | server/routes/flashcards.js:252 | a doubled ellipsis leaves one `...` at the end of the final answer |
| Normalize.NormalizeCard | server/routes/flashcards.js:259-267 | the final card is well formed, carries the normalised answer, keeps truthy fields and non-zero marks, turns falsy marks into 1, numbers missing questions from 1, and computes a missing difficulty from the final answer |
| Normalize.NormalizeAll | server/routes/flashcards.js:247-268 | the final map normalises each card with its own index and keeps the count |
| Pipeline.Complete | server/routes/flashcards.js:228-243 | a success has 1 to 20 cards, except that a short extraction replaced by the fallback may have up to twice the fallback's cards |
| Pipeline.CompleteKeepsExtraction | server/routes/flashcards.js:228-243 | 15 or more extracted cards are kept, in order: cut to the first 20, or topped up from the front of the fallback |
| Pipeline.CompleteUsesFallback | server/routes/flashcards.js:228-243 | under 15 extracted cards, the result is the fallback followed by a prefix of itself, min(2f, 20) cards, and fails iff the fallback is empty |
| Pipeline.CompleteFails | server/routes/flashcards.js:228-235 | the route fails iff the extraction is a bare object, or it is short and the fallback is empty |
| Pipeline.CompleteAtMostTarget | server/routes/flashcards.js:237-243 | with a fallback of at most 20 cards, every success has 1 to 20 cards |
| Pipeline.FallbackRaw | server/routes/flashcards.js:230 | the fallback deck as raw cards, card for card in the same order, at most 20 |
| Pipeline.FromReply | server/routes/flashcards.js:188-225 | a failed call leaves an empty list; a bare object stays bare; otherwise the extracted cards are each padded in place, count kept |
| Pipeline.Generate | server/routes/flashcards.js:135-268 | no PDF is an error; every success holds 1 to 20 well-formed cards |
| Pipeline.GenerateFails | server/routes/flashcards.js:223-235 | with a PDF, the route fails iff the extraction is a bare object, or it is short and the fallback yields no card |
| Pipeline.GenerateKeepsLongExtraction | server/routes/flashcards.js:237-268 | when the reply yields at least 20 cards, the route returns the first 20 of them, padded and normalised |
| LegacyUpload.Lines | server/routes/upload.js:25 | every kept line is non-blank |
| LegacyUpload.PairsUpToIndex | server/routes/upload.js:28-37 | the k-th card is built from lines 2k and 2k+1 |
| LegacyUpload.Pair | server/routes/upload.js:28-37 | the loop pairs consecutive lines into floor(n/2) cards, dropping an odd last line, with trimmed texts and the length-based difficulty |
| LegacyUpload.Upload | server/routes/upload.js:20-37 | no file is an error; otherwise the cards pair the non-blank lines of the text |
| LegacyUpload.PairCard | server/routes/upload.js:30-35 | the card has the caller's user id, trimmed question and answer, and easy iff the untrimmed lines total under 50 characters with the space, hard iff 100 or more |
| LegacyUpload.PairedCardsAreFilled | server/routes/upload.js:28-35 | a paired card has the caller's user id and a non-empty, trimmed question and answer |
| Quiz.Shuffle | client/src/pages/QuizPage.jsx:24 | shuffling is a permutation: same length, same multiset |
| Quiz.BuildQuestion | client/src/pages/QuizPage.jsx:16-31 | a question keeps the card's text and answer and offers four options: the three fixed wrong ones and the answer, in some order |
| Quiz.Formatted | client/src/pages/QuizPage.jsx:16-31 | one question per stored card, in card order |
| Quiz.Session | client/src/pages/QuizPage.jsx:33-41 | at most 15 questions, all drawn from the formatted ones; up to 15 cards keep their order |
| Quiz.SessionQuestionsFromCards | client/src/pages/QuizPage.jsx:16-41 | every session question comes from some stored card and offers its correct answer among four options |
| Quiz.Response | client/src/pages/QuizPage.jsx:45-56 | the recorded answer names the current question and the selection, and is correct iff the selection equals the correct answer |
| Quiz.SaveAnswer | client/src/pages/QuizPage.jsx:44-62 | saving appends one answer and adds 1 to the score exactly when it is correct |
| Quiz.Prev | client/src/pages/QuizPage.jsx:75-79 | Previous moves back one question, never below the first, and records nothing |
| Quiz.Choose | client/src/pages/QuizPage.jsx:130 | selecting an option records nothing and keeps the position |
| Quiz.StartValid | client/src/pages/QuizPage.jsx:5-10 | the initial state satisfies the quiz invariant |
| Quiz.CountCorrectAppend | client/src/pages/QuizPage.jsx:59-61 | the count of correct answers grows by one exactly for a correct answer |
| Quiz.SaveAnswerValid | client/src/pages/QuizPage.jsx:44-62 | saving keeps the score equal to the number of correct answers, each one recorded for a session question |
| Quiz.StepValid | client/src/pages/QuizPage.jsx:137-149 | every enabled button press keeps the quiz invariant |
| Quiz.Next | client/src/pages/QuizPage.jsx:64-73 | Next keeps the questions, appends the response for the current selection, adds 1 to the score iff it is correct, clears the selection, and advances or finishes on the last question |
| Quiz.Finish | client/src/pages/QuizPage.jsx:81-84 | Finish appends the response, scores it, and ends the quiz on the same question with the same selection |
| Quiz.Step | client/src/pages/QuizPage.jsx:137-149 | an enabled press keeps the questions and the position in range, records one answer iff it is Next or Finish, never drops an earlier answer, and ends the quiz iff it is Finish |
| Quiz.NextRecordsOne | client/src/pages/QuizPage.jsx:64-73 | Next records exactly one answer, clears the selection, and advances or finishes |
| Quiz.FinishRecordsOne | client/src/pages/QuizPage.jsx:81-84 | Finish records exactly one answer and ends the quiz on the same question |
| Quiz.ScoreOnlyOnCorrect | client/src/pages/QuizPage.jsx:44-84 | the score rises by one iff Next or Finish is pressed with the correct option selected, and otherwise stays |
| Quiz.StepKeepsIndex | client/src/pages/QuizPage.jsx:64-79 | enabled presses keep the current question in range and the questions unchanged |
| Quiz.AnswersCanRepeat | client/src/pages/QuizPage.jsx:64-79 | Next, Previous, and Next again records two identical answers for the first question |
| SpeakProgress.MarkToLevel | client/src/pages/QnSpeakPage.jsx:23-28 | medium iff 5 marks, hard iff 10 marks, easy for every other mark |
| SpeakProgress.Totals | client/src/pages/QnSpeakPage.jsx:34-38 | the three bucket totals add up to the number of cards |
| SpeakProgress.TotalsAppend | client/src/pages/QnSpeakPage.jsx:34-38 | the totals of a concatenation are the sums of the totals |
| SpeakProgress.TotalsOfOne | client/src/pages/QnSpeakPage.jsx:36-37 | one card counts once, in its mark's bucket |
| SpeakProgress.QuotBounds | client/src/pages/QnSpeakPage.jsx:68-70 | the integer quotient is the floor of the division |
| SpeakProgress.PercentNearest | client/src/pages/QnSpeakPage.jsx:68-70 | the rounded percentage is within half a point of the exact one, halves rounding up |
| SpeakProgress.PercentRange | client/src/pages/QnSpeakPage.jsx:68-70 | the percentage is between 0 and 100, 0 for nothing shown, and 100 iff at least 99.5% is shown |
| SpeakProgress.Increment | client/src/pages/QnSpeakPage.jsx:56-76 | the bump changes only counters and bars, and does nothing when the total it reads is 0 |
| SpeakProgress.IncrementValid | client/src/pages/QnSpeakPage.jsx:56-76 | one bump raises only its own bucket's counter, never past the total, and keeps its bar equal to the rounded percentage, at most 100 |
| SpeakProgress.Load | client/src/pages/QnSpeakPage.jsx:30-46 | loading takes the new cards, starts at the first one, and sets totals that add up to the card count |
| SpeakProgress.LoadValid | client/src/pages/QnSpeakPage.jsx:30-46 | after loading, the state is consistent and every counter and bar is 0, the first card included |
| SpeakProgress.NextCard | client/src/pages/QnSpeakPage.jsx:93-104 | Next hides the answer and moves on; past the last card it returns to the first without counting |
| SpeakProgress.NextCardCounts | client/src/pages/QnSpeakPage.jsx:93-104 | moving to a next card counts it once in its own bucket, capped at the bucket's non-zero total, sets that bar to the rounded percentage, and leaves the other buckets alone |
| SpeakProgress.TotalsCountMember | client/src/pages/QnSpeakPage.jsx:34-38 | every card is counted in its own bucket's total |
| SpeakProgress.MoveValid | client/src/pages/QnSpeakPage.jsx:95-102 | changing the current card or hiding the answer leaves every counter and bar consistent |
| SpeakProgress.NextCardValid | client/src/pages/QnSpeakPage.jsx:93-104 | moving on keeps the counters and bars consistent |
| SpeakProgress.Speak | client/src/pages/QnSpeakPage.jsx:78-87 | the answer becomes visible iff there is a current card and speech is available; nothing else changes |
| SpeakProgress.RepeatShown | client/src/pages/QnSpeakPage.jsx:56-76 | k bumps raise the counter by k, capped at the total, with the bar at its rounded percentage |
| SpeakProgress.FullBucketShowsHundred | client/src/pages/QnSpeakPage.jsx:56-76 | as many bumps as the bucket has cards fill its bar to exactly 100 |
| TestMode.Shown | client/src/pages/TestMode.jsx:17-19 | exactly the stored cards whose difficulty equals the page's level name are shown |
| TestMode.Advance | client/src/pages/TestMode.jsx:27-36 | a full bar stays; otherwise it grows by 100/n, capped at 100 |
| TestMode.Next | client/src/pages/TestMode.jsx:23-44 | Next never changes the cards or the level |
| TestMode.ChangeLevel | client/src/pages/TestMode.jsx:46-49 | changing level restarts at the first card and keeps every bar |
| TestMode.NextWithoutCard | client/src/pages/TestMode.jsx:24 | without a current card, Next does nothing |
| TestMode.NextWithCard | client/src/pages/TestMode.jsx:23-44 | with a current card, only the selected bar grows, stays at most 100, and the index advances or stays on the last card |
| TestMode.StartValid | client/src/pages/TestMode.jsx:5-8 | the initial state satisfies the invariant |
| TestMode.NextValid | client/src/pages/TestMode.jsx:23-44 | Next keeps every bar in 0..100 and the index on a card |
| TestMode.ChangeLevelValid | client/src/pages/TestMode.jsx:46-49 | changing level keeps the invariant |
| TestMode.PressesProgress | client/src/pages/TestMode.jsx:27-44 | k presses from an empty bar give min(100, k·100/n) |
| TestMode.PressesFill | client/src/pages/TestMode.jsx:27-44 | n presses over a level's n cards fill its bar to exactly 100 |
| TestMode.ServerNamesNeverShown | client/src/pages/TestMode.jsx:17-19 | cards with lower-case difficulty names are never shown |
| Review.View | client/src/pages/ReviewPage.jsx:42-49 | "all" shows every card; a mark filter shows exactly the cards whose `marks \|\| 1` equals it |
| Review.Mount | client/src/pages/ReviewPage.jsx:15-24 | on mount, the latest upload is selected with all its cards, or nothing when the history is empty |
| Review.Flip | client/src/pages/ReviewPage.jsx:27-35 | flipping toggles one card position and touches nothing else |
| Review.FlipTwice | client/src/pages/ReviewPage.jsx:27-35 | flipping a card twice restores the state |
| Review.ApplyFilter | client/src/pages/ReviewPage.jsx:38-53 | the filter is always recorded; with a selection, the view follows it and flips are cleared |
| Review.SelectUpload | client/src/pages/ReviewPage.jsx:55-60 | selecting an upload shows all its cards under "all" with no flips |
| Review.CountByMarks | client/src/pages/ReviewPage.jsx:62-63 | the count is 0 without a selection, otherwise the size of the selected upload's view under that mark |
| Review.CountIsFilterSize | client/src/pages/ReviewPage.jsx:62-63 | a mark button's count equals the number of cards its filter shows |
| Review.Remove | client/src/pages/ReviewPage.jsx:68-69 | `splice` removes exactly one entry and shifts the later ones down |
| Review.Delete | client/src/pages/ReviewPage.jsx:66-86 | deleting an index beyond the history changes nothing; otherwise exactly that entry is spliced out, flips are kept, and any selection stays within the history |
| Review.DeleteKeepsOthers | client/src/pages/ReviewPage.jsx:66-86 | deleting another entry keeps the same upload selected, with its view and filter |
| Review.DeleteSelected | client/src/pages/ReviewPage.jsx:73-84 | deleting the selected entry selects the new latest upload under "all", or nothing |
| Review.MountValid | client/src/pages/ReviewPage.jsx:15-24 | mounting gives a consistent view |
| Review.FlipValid | client/src/pages/ReviewPage.jsx:27-35 | flipping keeps the view consistent |
| Review.ApplyFilterValid | client/src/pages/ReviewPage.jsx:38-53 | filtering keeps the view equal to the selected upload under the filter |
| Review.SelectUploadValid | client/src/pages/ReviewPage.jsx:55-60 | selecting keeps the view consistent |
| Review.DeleteValid | client/src/pages/ReviewPage.jsx:66-86 | deleting keeps the view consistent |

## Left out

- The language-model request: the prompt, model name and sampling settings
  (`server/routes/flashcards.js`, lines 151-187). The reply is a parameter,
  and a failed call is a missing reply.
- PDF text extraction and multipart handling. The extracted text is a
  parameter, and a missing upload is `None`.
- `JSON.parse` internals. Parsing is a parameter returning either an array of
  raw cards or one raw card. JSON `null` elements, non-object elements,
  non-string fields and non-numeric marks are not represented; marks are
  integers, with 0 standing for missing.
- Database persistence: deleting the old cards, inserting the new ones, and
  recording the upload. This is I/O, and the race between the two writes is
  concurrency.
- Stamping of user id, filename and upload date; the statistics, logging and
  response bodies (`server/routes/flashcards.js`, lines 270-298). None of
  them affects the cards.
- The GET routes of `upload.js` (history, cards by upload): database queries.
- `LegacyUpload.Upload`: the user id is a parameter, since the
  authentication middleware is not part of this model.
- Unicode: `trim`, `toLowerCase` and the `\s` of the repair patterns are
  modelled for ASCII white space and letters only; JavaScript also treats
  characters such as U+00A0 as white space. A Dafny `char` is a Unicode
  scalar value, whereas JavaScript strings count UTF-16 code units. A
  character outside the Basic Multilingual Plane therefore counts once here
  and twice toward the 4000-unit chunk limit in the source, where a chunk
  boundary can also fall between the two halves of a surrogate pair; neither
  is modelled. U+2028/U+2029 are the only separators besides `\r` and `\n`
  that the chunk pattern's `.` cannot match.
- Randomness. Both shuffles are explicit lists of swaps.
- ObjectMatchesFrom: its own contract states only what each match looks
  like; that the search returns every match, in order, is stated by
  `Extraction.ObjectMatchesAreStarts`.
- DropTrailingCommas: its own contract is the length bound; what it removes
  and keeps is stated by `DropTrailingCommasRemoves`,
  `DropTrailingCommasKeepsContent` and `NoCloseUnchanged`.
- ExtractJSON: its own contract states which kind of result each rung gives;
  the cards of each rung are stated by `ExtractArray`, `ExtractObject`,
  `ExtractRepaired`, `ExtractGivesUp` and `ObjectRungAllOrNothing`.
- SelectedContext: its own contract is the length bound; its content is
  stated by `Chunking.Kept` and `Chunking.SelectedContextIsPrefix`, the latter
  for text without U+2028/U+2029.
- SplitStops: its own contract says the pieces hold no stops; where the text
  is cut is stated by `Fallback.SplitStopsRoundTrip`.
- NextCard: its own contract states the move; how the new card is counted is
  stated by `SpeakProgress.NextCardCounts`.
- `Quiz.Session`: states that the session is drawn from the formatted
  questions (a sub-multiset), not that every ordering is reachable.
- React batching and effects. Every handler is a sequential pure transition,
  except the stale totals read on load, which is modelled.
- Storage-event reloading, `localStorage` writes, alerts, speech synthesis
  (only its availability is a parameter), navigation, menus and styling
  (`getMarkStyling`).
- Floating point. Test-mode progress is a real number; the read-aloud page's
  `Math.round` is round-half-up on exact rationals.
- Review uploads without a `cards` field (`upload.cards \|\| []`): every
  history entry carries a card list.
- The client pages not listed above (login, signup, input, home) and the
  authentication and history routes.
