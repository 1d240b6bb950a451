# studyAhead study modes and learning rules, modelled in Dafny

studyAhead is a study planner. A learner uploads material, and flashcards are made from it. The learner then practises the cards in a set of study modes:

- flashcard swiping: the learn mode and the older study page;
- a multiple-choice quiz;
- a matching game;
- typed writing practice, graded by a character diff;
- fill-the-gaps sentences;
- a four-phase test that chains the quiz, the matching game, writing and fill-the-gaps.

The backend supplies the rules behind the plan:

- the personalised learning speed and the adaptive schedule of one task per available day (two on a one-day budget, as written);
- the pre-assessment sampled from the plan's cards;
- the daily study session and the streak of complete days;
- the onboarding answers that seed the learning profile;
- a plan's progress figures;
- the offline mock of the AI service, and the fallbacks the AI service uses when a reply is unusable.

Each module below is the model of one source file. It states the rules as pure functions over immutable datatypes, and proves what each operation promises.

- **Randomness is a parameter.** A shuffle is an `order` with the same multiset of elements. A splice offset lies in 3..5. A random pick is an index or a chooser function.
- **Time is a parameter.** The clock is a `now` argument, and dates are day numbers.
- **Requests are values.** An HTTP request or a mastery post is an `Option` value that the operation returns.
- **Follow-up calls are separate operations.** Where a React handler calls a follow-up (for example `handleRoundComplete` after the last pair), the model has one function for each, and the caller composes them.

Modules:

| module | models |
|---|---|
| `Common` | `Option`, splicing, counting and filtering |
| `Models` | the stored `Flashcard` and `Task` records |
| `TextNormalize` | the `normalizeText` of writing practice and fill-the-gaps |
| `JsText` | `indexOf`, `substring`, `replace` |
| `LcsDiff` | the LCS answer comparison of writing practice |
| `PositionalDiff` | the position-by-position answer comparison of fill-the-gaps |
| `DrillDeck` | the deck rules shared by writing practice and fill-the-gaps: retire a card, or requeue it 3 to 5 places ahead |

The remaining modules follow the source files one to one: `WritingPractice`, `FillTheGaps`, `LearnMode`, `StudyMode`, `MatchingGame`, `MultipleChoiceQuiz`, `TestFlow`, `Onboarding`, `EditPlan`, `StudyPlanDetail`, `AdaptiveLearning`, `PreAssessment`, `StudySessions`, `Users`, `MockAi` and `AiService`.

Where the code and the written description of the system disagree, the model follows the code:

- `normalizeText` does not fold case. It expands 'ß' to "ss", trims, and collapses white-space runs.
- The LCS backtrack moves up only when `dp[i-1][j] > dp[i][j-1]`, so a tie moves left.
- A missed card is requeued as a second copy spliced in ahead. The card is not moved.
- The current card is `deck[currentIndex]`, and the index stays put after a retirement unless it falls off the end.

## Model

| member | source | states |
|---|---|---|
| Models.NewCard | backend/app/models.py:146-167 | a new flashcard has medium difficulty, has never been studied, and has mastery 0 within 0..100 |
| Models.TasksTotal | backend/app/models.py:104-106 | the plan's task total is the number of its tasks |
| Models.TasksCompleted | backend/app/models.py:108-110 | the completed count never exceeds the total, and equals it exactly when every task is done; it is the number of tasks the completion filter keeps |
| Models.ProgressPercentage | backend/app/models.py:112-117 | 0 for a plan without tasks; otherwise completed × 100 / total, within 0..100, and 100 exactly when every task is done |
| Models.CompletingRaisesProgress | backend/app/models.py:112-117 | marking one more task complete never lowers the plan's progress |
| TextNormalize.NormalizeShape | frontend/src/components/study-modes/WritingPractice.jsx:40-45 | a normalized answer holds no 'ß', starts and ends with a non-space, and separates words by single spaces |
| TextNormalize.NormalizeKeepsText | frontend/src/components/study-modes/WritingPractice.jsx:40-45 | normalization changes only white space: the other characters, in their original case, are those of the input after the 'ß' expansion, in order |
| TextNormalize.NormalizeIdempotent | frontend/src/components/study-modes/FillTheGaps.jsx:7-12 | normalizing twice gives the same text as normalizing once |
| TextNormalize.NormalizedFixpoint | frontend/src/components/study-modes/FillTheGaps.jsx:7-12 | a text already in normal shape is left unchanged |
| TextNormalize.TrimBlank | frontend/src/components/study-modes/WritingPractice.jsx:152 | `trim()` gives the empty string exactly for a blank answer, and otherwise starts and ends with a non-space |
| TextNormalize.TrimFacts | frontend/src/components/study-modes/FillTheGaps.jsx:10 | trimming keeps every non-space character in order, introduces no 'ß', and leaves no white space at either end |
| TextNormalize.TrimSlice | frontend/src/components/study-modes/FillTheGaps.jsx:10 | trimming leaves a contiguous slice of the input: what lies between the leading and the trailing white space |
| TextNormalize.CollapseSingleSpaced | frontend/src/components/study-modes/FillTheGaps.jsx:11 | on a text that does not end in white space, replacing each white-space run by ' ' leaves only single-space separators |
| TextNormalize.CollapseNonSpace | frontend/src/components/study-modes/FillTheGaps.jsx:11 | collapsing white-space runs keeps every other character, in order |
| JsText.IndexOf | backend/app/mock_ai_service.py:119-120 | the result is -1 exactly when the word occurs nowhere; otherwise it is the first position where it occurs |
| JsText.IndexFrom | backend/app/mock_ai_service.py:119-120 | the search from position k returns -1 exactly when the word occurs nowhere from k on, otherwise the first position from k where it occurs |
| JsText.Substring | frontend/src/components/study-modes/FillTheGaps.jsx:123-125 | with in-range, ordered ends it is the slice between them; it is never longer than the string |
| JsText.Clamp | frontend/src/components/study-modes/FillTheGaps.jsx:123-125 | an argument of `substring` is clamped into 0..length, and one already in range is kept |
| JsText.SubstringSymmetric | frontend/src/components/study-modes/FillTheGaps.jsx:125 | swapping the two ends gives the same substring |
| JsText.SubstringOccurs | frontend/src/components/study-modes/FillTheGaps.jsx:122-125 | whatever the arguments, the substring is found again in its string |
| JsText.ReplaceFirst | frontend/src/components/study-modes/FillTheGaps.jsx:162-165 | an absent pattern leaves the string unchanged; otherwise only its first occurrence is replaced |
| LcsDiff.BacktrackIsMatching | frontend/src/components/study-modes/WritingPractice.jsx:22-35 | the backtrack yields a common subsequence, as strictly increasing equal-character positions, whose length is the table value |
| LcsDiff.LcsIsOptimal | frontend/src/components/study-modes/WritingPractice.jsx:12-20 | no common subsequence is longer than the table value `dp[i][j]` |
| LcsDiff.FillRow | frontend/src/components/study-modes/WritingPractice.jsx:13-19 | one pass of the inner loop fills row i with the LCS length of every prefix pair |
| LcsDiff.LcsTable | frontend/src/components/study-modes/WritingPractice.jsx:8-20 | the filled table holds at every cell the LCS length of the two prefixes |
| LcsDiff.Walk | frontend/src/components/study-modes/WritingPractice.jsx:22-35 | the backtrack loop over the table computes the recursive backtrack |
| LcsDiff.ComputeLcs | frontend/src/components/study-modes/WritingPractice.jsx:7-38 | the result is a common subsequence of both strings, and is at least as long as every other one |
| LcsDiff.CorrectCharsSpellLcs | frontend/src/components/study-modes/WritingPractice.jsx:59-75 | reading the 'correct' marks of either diff spells the common subsequence |
| LcsDiff.Marks | frontend/src/components/study-modes/WritingPractice.jsx:59-75 | one mark per character of the side, 'correct' exactly at the positions of the common subsequence, the side's miss status elsewhere |
| LcsDiff.Compare | frontend/src/components/study-modes/WritingPractice.jsx:47-78 | the answer is right exactly when both normalized texts are equal, and a diff is given exactly when it is wrong; each diff marks the characters of its side, 'correct' on the LCS and 'incorrect' or 'missing' elsewhere |
| LcsDiff.CompareAnswers | frontend/src/components/study-modes/WritingPractice.jsx:47-78 | the loop-and-table comparison gives the same verdict and diffs as the definition |
| LcsDiff.SkipResult | frontend/src/components/study-modes/WritingPractice.jsx:228-235 | a skip shows no user marks and every character of the normalized expected answer as 'missing' |
| PositionalDiff.DiagonalIsMatching | frontend/src/components/study-modes/FillTheGaps.jsx:27-33 | the positions where both answers agree form a common subsequence read at equal indices |
| PositionalDiff.PositionalMarks | frontend/src/components/study-modes/FillTheGaps.jsx:23-42 | the loop over max(length) positions marks each user character 'correct' or 'incorrect', and each expected one 'correct' or 'missing', by agreement at its position |
| PositionalDiff.MarksAtPositions | frontend/src/components/study-modes/FillTheGaps.jsx:31-41 | a position is marked correct exactly when both answers hold the same character there |
| PositionalDiff.PositionalWithinLcs | frontend/src/components/study-modes/FillTheGaps.jsx:6 | both diffs mark the same characters correct, and never more than the LCS answer comparison of writing practice would |
| PositionalDiff.Compare | frontend/src/components/study-modes/FillTheGaps.jsx:14-45 | right exactly when the normalized texts are equal; only a wrong answer carries a diff, and it is built by position |
| PositionalDiff.CompareAnswers | frontend/src/components/study-modes/FillTheGaps.jsx:14-45 | the loop computes the definition |
| DrillDeck.Retire | frontend/src/components/study-modes/WritingPractice.jsx:184-198 | the session finishes exactly when the deck held one card; otherwise the card is removed and the index stays, or moves back onto the last card |
| DrillDeck.Requeue | frontend/src/components/study-modes/WritingPractice.jsx:200-211 | the deck gains exactly one copy of the current card, the cards up to it are unchanged, and the index moves to the next card or wraps to 0 |
| DrillDeck.RequeueShowsAgain | frontend/src/components/study-modes/WritingPractice.jsx:201-203 | the requeued copy lies at or after the new index, 2 to 4 places ahead, or at the end of the deck |
| DrillDeck.RequeueMembers | frontend/src/components/study-modes/WritingPractice.jsx:201-203 | a requeue neither loses a card nor adds a new one |
| DrillDeck.RetireMembers | frontend/src/components/study-modes/WritingPractice.jsx:184 | retiring keeps every other card and adds none |
| DrillDeck.InitStatus | frontend/src/components/study-modes/WritingPractice.jsx:113-118 | every loaded card id has a status, fresh (unknown, 0 attempts), and no other id has one |
| WritingPractice.Start | frontend/src/components/study-modes/WritingPractice.jsx:104-123 | an empty pre-loaded list completes at once and reports an empty status; otherwise the cards are studied in the given order with fresh statuses and zero counters |
| WritingPractice.Fetch | frontend/src/components/study-modes/WritingPractice.jsx:125-145 | the fetched cards are studied in the shuffled order, with a fresh status for each card; an empty fetch does not complete |
| WritingPractice.FetchIsStart | frontend/src/components/study-modes/WritingPractice.jsx:104-145 | a non-empty fetch equals the pre-loaded start on the shuffled cards; an empty one is an open session with nothing to study; both keep the session invariants |
| WritingPractice.Check | frontend/src/components/study-modes/WritingPractice.jsx:151-174 | a blank answer, or no current card, changes nothing; otherwise the verdict is the LCS comparison's, a right answer marks the card known and posts mastery + 10 capped at 100, and a wrong one adds an attempt and a miss |
| WritingPractice.Grade | frontend/src/components/study-modes/WritingPractice.jsx:154-173 | the effect of grading a typed answer on the current card, and on nothing else |
| WritingPractice.Skip | frontend/src/components/study-modes/WritingPractice.jsx:220-237 | a skip adds an attempt to the card and a miss to the counter, and shows the expected answer as all 'missing'; the deck is unchanged |
| WritingPractice.Continue | frontend/src/components/study-modes/WritingPractice.jsx:176-218 | after a right answer, or any answer in test mode, the card is retired and a last card completes the session and reports the statuses; otherwise the card is requeued; statuses and counters are untouched |
| WritingPractice.Restart | frontend/src/components/study-modes/WritingPractice.jsx:239-256 | as intended: every card the session was loaded with, fresh, in the new shuffle, with counters at 0 |
| WritingPractice.RestartIsFreshStart | frontend/src/components/study-modes/WritingPractice.jsx:239-256 | the intended restart satisfies the invariants and has the statuses of a new start on the shuffled cards |
| WritingPractice.GetStats | frontend/src/components/study-modes/WritingPractice.jsx:283-289 | words are the status entries, first-try words are exactly the entries known with no attempt (never more than the words), attempts are right plus wrong answers, and accuracy is the right share in 0..100 |
| WritingPractice.StartTally | frontend/src/components/study-modes/WritingPractice.jsx:113-118 | at the start the recorded misses add up to the incorrect counter (both 0) |
| WritingPractice.CheckTally | frontend/src/components/study-modes/WritingPractice.jsx:168-173 | grading keeps the per-card misses adding up to the incorrect counter |
| WritingPractice.SkipTally | frontend/src/components/study-modes/WritingPractice.jsx:222-226 | a skip keeps the per-card misses adding up to the incorrect counter |
| WritingPractice.ContinueTally | frontend/src/components/study-modes/WritingPractice.jsx:176-218 | moving on keeps the per-card misses adding up to the incorrect counter |
| WritingPractice.RestartTally | frontend/src/components/study-modes/WritingPractice.jsx:239-246 | after a restart the per-card misses add up to the incorrect counter again |
| WritingPractice.StartValid | frontend/src/components/study-modes/WritingPractice.jsx:104-123 | the start satisfies the session invariants: the index is on a card, every deck card is loaded and has a status, and only known cards are off the deck |
| WritingPractice.CheckKeeps | frontend/src/components/study-modes/WritingPractice.jsx:151-174 | grading keeps the session invariants |
| WritingPractice.SkipKeeps | frontend/src/components/study-modes/WritingPractice.jsx:220-237 | a skip keeps the session invariants |
| WritingPractice.ContinueKeeps | frontend/src/components/study-modes/WritingPractice.jsx:176-218 | outside test mode, moving on keeps the session invariants |
| WritingPractice.RetireKeeps | frontend/src/components/study-modes/WritingPractice.jsx:182-198 | retiring a correctly answered card keeps the invariants |
| WritingPractice.RequeueKeeps | frontend/src/components/study-modes/WritingPractice.jsx:199-211 | requeueing a missed card keeps the invariants |
| WritingPractice.FlawlessExactlyWithoutMisses | frontend/src/components/study-modes/WritingPractice.jsx:284-287 | a session finished outside test mode shows every word as right at the first try exactly when no answer was wrong or skipped |
| WritingPractice.CompletionMeansAllKnown | frontend/src/components/study-modes/WritingPractice.jsx:182-192 | outside test mode the session completes only when every word has been answered correctly, and it reports exactly the statuses |
| WritingPractice.RestartAsWritten | frontend/src/components/study-modes/WritingPractice.jsx:239-256 | as written: statuses and shuffle are rebuilt from the deck on screen |
| WritingPractice.RestartAfterCompletionShrinks | frontend/src/components/study-modes/WritingPractice.jsx:185-192 | after a completion, the restart as written practises exactly one card, the last one answered |
| FillTheGaps.ExtractWord | frontend/src/components/study-modes/FillTheGaps.jsx:116-127 | no highlight gives no word; a word highlight gives that word whether or not it occurs; a span gives the substring between its ends |
| FillTheGaps.ItemFor | frontend/src/components/study-modes/FillTheGaps.jsx:112-140 | a card gets an item exactly when it has sentences and the picked sentence yields a non-empty word; the item carries that sentence, the word, and the front as hint |
| FillTheGaps.GapItems | frontend/src/components/study-modes/FillTheGaps.jsx:111-141 | the items are exactly the cards' items, in card order, at most one per card |
| FillTheGaps.ItemFacts | frontend/src/components/study-modes/FillTheGaps.jsx:129-139 | every prepared item has a non-empty word, belongs to a loaded card, and hints with that card's front |
| FillTheGaps.DisplayBlank | frontend/src/components/study-modes/FillTheGaps.jsx:162-165 | the blank replaces the first occurrence of the word, and a sentence without the word is shown unchanged |
| FillTheGaps.Start | frontend/src/components/study-modes/FillTheGaps.jsx:91-159 | every card gets a fresh status, with or without a gap; the items are a shuffle of the prepared ones; without items, test mode reports an empty result at once |
| FillTheGaps.StartInvariants | frontend/src/components/study-modes/FillTheGaps.jsx:91-159 | the prepared session satisfies the deck, mastery and tally invariants |
| FillTheGaps.FindCard | frontend/src/components/study-modes/FillTheGaps.jsx:180 | the lookup finds a loaded card with the id exactly when there is one |
| FillTheGaps.Posted | frontend/src/components/study-modes/FillTheGaps.jsx:180-184 | a mastery post happens exactly for a card found in the loaded list, with that card's mastery + 10 capped at 100 |
| FillTheGaps.Check | frontend/src/components/study-modes/FillTheGaps.jsx:167-193 | a blank answer or no current item changes nothing; otherwise the verdict is the positional comparison's on the item's word, and it is recorded on the item's card |
| FillTheGaps.Record | frontend/src/components/study-modes/FillTheGaps.jsx:172-192 | the verdict is shown; a right one marks the card known and keeps its attempts, a wrong one adds an attempt; no other card changes |
| FillTheGaps.Continue | frontend/src/components/study-modes/FillTheGaps.jsx:195-244 | the deck rules of writing practice applied to the gap items; statuses and counters are untouched |
| FillTheGaps.Miss | frontend/src/components/study-modes/FillTheGaps.jsx:246-251 | a skip adds one attempt to the item's card and one miss to the counter |
| FillTheGaps.Skip | frontend/src/components/study-modes/FillTheGaps.jsx:246-254 | a miss, then moving on as after a wrong answer, so outside test mode the item comes back later |
| FillTheGaps.Restart | frontend/src/components/study-modes/FillTheGaps.jsx:256-273 | as intended: every prepared item again, in the new shuffle, with fresh statuses and counters at 0 |
| FillTheGaps.GetStats | frontend/src/components/study-modes/FillTheGaps.jsx:302-308 | as intended: the sentence total is the prepared items, first-try words are those known without a miss, and accuracy lies in 0..100 |
| FillTheGaps.CheckKeeps | frontend/src/components/study-modes/FillTheGaps.jsx:167-193 | grading keeps the invariants |
| FillTheGaps.ContinueKeeps | frontend/src/components/study-modes/FillTheGaps.jsx:195-244 | outside test mode, moving on keeps the invariants |
| FillTheGaps.RetireKeeps | frontend/src/components/study-modes/FillTheGaps.jsx:201-223 | retiring a correctly typed item keeps the invariants |
| FillTheGaps.RetireRestKeeps | frontend/src/components/study-modes/FillTheGaps.jsx:216-223 | retiring one of several items keeps the invariants |
| FillTheGaps.RequeueKeeps | frontend/src/components/study-modes/FillTheGaps.jsx:224-236 | requeueing a missed item keeps the invariants |
| FillTheGaps.SkipKeeps | frontend/src/components/study-modes/FillTheGaps.jsx:246-254 | a skip keeps the invariants |
| FillTheGaps.CompletionMeansAllKnown | frontend/src/components/study-modes/FillTheGaps.jsx:201-215 | outside test mode the session ends only when every word that had a gap has been typed correctly |
| FillTheGaps.RestartAsWritten | frontend/src/components/study-modes/FillTheGaps.jsx:256-273 | as written: the items reshuffled are those left on the deck |
| FillTheGaps.RestartAfterCompletionShrinks | frontend/src/components/study-modes/FillTheGaps.jsx:203-215 | after a completion the restart as written holds exactly one item |
| FillTheGaps.StatsAsWritten | frontend/src/components/study-modes/FillTheGaps.jsx:302-308 | as written: the sentence total is the deck length, and first-try words are those with exactly one recorded miss |
| FillTheGaps.CompletedShowsOneSentence | frontend/src/components/study-modes/FillTheGaps.jsx:304 | on the completion screen as written the sentence total is always 1 |
| FillTheGaps.FlawlessWordsNotCounted | frontend/src/components/study-modes/FillTheGaps.jsx:305 | with every word right at the first try, the as-written first-try count is 0, while the intended one counts them all |
| LearnMode.Start | frontend/src/components/study-modes/LearnMode.jsx:34-74 | a fresh status for every card, the deck a shuffle of the cards, the counters at 0 |
| LearnMode.Mark | frontend/src/components/study-modes/LearnMode.jsx:146-153 | the card is known exactly when swiped right and gains one attempt; the counter of the swipe direction goes up by one |
| LearnMode.Swipe | frontend/src/components/study-modes/LearnMode.jsx:140-196 | no current card changes nothing; otherwise a right swipe and a left swipe have the effects below |
| LearnMode.SwipeRight | frontend/src/components/study-modes/LearnMode.jsx:155-178 | the card is marked known, mastery + 10 capped at 100 is posted, and the card leaves the deck; a last card completes the session |
| LearnMode.SwipeLeft | frontend/src/components/study-modes/LearnMode.jsx:179-192 | the card is marked not known, mastery is not posted, and a copy is spliced in 3 to 5 places ahead |
| LearnMode.Previous | frontend/src/components/study-modes/LearnMode.jsx:214-219 | one card back, never before the first |
| LearnMode.Next | frontend/src/components/study-modes/LearnMode.jsx:221-226 | one card on, never past the last |
| LearnMode.Shuffle | frontend/src/components/study-modes/LearnMode.jsx:207-212 | the deck is a permutation of itself, from its first card; statuses are kept |
| LearnMode.KnownIds | frontend/src/components/study-modes/LearnMode.jsx:77-78 | the known ids are exactly the status entries marked known |
| LearnMode.Settle | frontend/src/components/study-modes/LearnMode.jsx:246-250 | as intended: the session completes once every card of the session is known |
| LearnMode.Progress | frontend/src/components/study-modes/LearnMode.jsx:79 | as intended: progress lies in 0..100, and is 100 exactly when every card is known |
| LearnMode.ProgressFacts | frontend/src/components/study-modes/LearnMode.jsx:77-79 | the known cards never outnumber the cards, and equal them exactly when all are known |
| LearnMode.Restart | frontend/src/components/study-modes/LearnMode.jsx:228-243 | as intended: the restart is a new start on every fetched card |
| LearnMode.StartInvariants | frontend/src/components/study-modes/LearnMode.jsx:34-74 | the start satisfies the deck, tally, mastery and length invariants |
| LearnMode.SwipeKeeps | frontend/src/components/study-modes/LearnMode.jsx:140-196 | every swipe keeps the deck, tally and mastery invariants |
| LearnMode.SwipeTally | frontend/src/components/study-modes/LearnMode.jsx:146-153 | every swipe is one attempt, so the attempts keep adding up to the two counters |
| LearnMode.RightKeeps | frontend/src/components/study-modes/LearnMode.jsx:155-178 | a right swipe keeps the deck and mastery invariants |
| LearnMode.LeftKeeps | frontend/src/components/study-modes/LearnMode.jsx:179-192 | a left swipe keeps the deck and mastery invariants |
| LearnMode.SwipeLength | frontend/src/components/study-modes/LearnMode.jsx:166-185 | the deck is the card count plus the left swipes minus the right swipes, and the session ends only after as many right swipes as copies |
| LearnMode.CompletionMeansAllKnown | frontend/src/components/study-modes/LearnMode.jsx:166-171 | the swipe that ends the session leaves every card known |
| LearnMode.LeftSwipeForgets | frontend/src/components/study-modes/LearnMode.jsx:146-153 | a left swipe marks the card not known, even after an earlier right swipe of it |
| LearnMode.SettleAsWritten | frontend/src/components/study-modes/LearnMode.jsx:246-250 | as written: the session completes once the known cards are as many as the cards left on the deck |
| LearnMode.PrematureCompletion | frontend/src/components/study-modes/LearnMode.jsx:76-79 | two cards and one right swipe: the as-written check completes the session and shows progress 100, though one card was never swiped |
| LearnMode.RestartAsWritten | frontend/src/components/study-modes/LearnMode.jsx:228-243 | as written: statuses and deck are rebuilt from the deck on screen |
| LearnMode.RestartAfterCompletionShrinks | frontend/src/components/study-modes/LearnMode.jsx:166-171 | after a completion the restart as written holds exactly one card |
| StudyMode.Load | frontend/src/pages/StudyMode.jsx:20-36 | only the learn mode shuffles the deck; it always holds the fetched cards, with the counters at 0 |
| StudyMode.MasteryStep | frontend/src/pages/StudyMode.jsx:47-49 | a right swipe gives min(100, mastery + 10) and a left swipe max(0, mastery − 5), 100 or 0 exactly where the cap or the floor applies; a mastery in 0..100 stays in 0..100 |
| StudyMode.Swipe | frontend/src/pages/StudyMode.jsx:42-81 | a right swipe removes the card and completes on the last one; a left swipe advances cyclically without touching the deck |
| StudyMode.LeftSwipes | frontend/src/pages/StudyMode.jsx:72-79 | repeated left swipes keep the deck and the index on a card |
| StudyMode.LeftSwipesCycle | frontend/src/pages/StudyMode.jsx:72-79 | after k left swipes the index is the start index plus k, modulo the deck length |
| StudyMode.SwipeLength | frontend/src/pages/StudyMode.jsx:58-79 | the deck plus the right swipes stays the starting size while the session runs |
| StudyMode.Swap | frontend/src/pages/StudyMode.jsx:89-98 | front and back are exchanged on the current card only |
| StudyMode.SwapTwice | frontend/src/pages/StudyMode.jsx:89-98 | swapping twice gives the deck back |
| StudyMode.Shuffle | frontend/src/pages/StudyMode.jsx:83-87 | the deck is a permutation of itself, from the first card; the counters are kept |
| MatchingGame.IdSet | frontend/src/components/study-modes/MatchingGame.jsx:50-57 | exactly the ids of the cards, no more of them than cards |
| MatchingGame.InitProgress | frontend/src/components/study-modes/MatchingGame.jsx:50-57 | every card id starts untried, and no other id has progress |
| MatchingGame.Pool | frontend/src/components/study-modes/MatchingGame.jsx:72-80 | the first round and test mode use every card; later rounds only cards still to be retried or never paired at the first try |
| MatchingGame.Selected | frontend/src/components/study-modes/MatchingGame.jsx:82 | the first min(5, pool) cards of the pool |
| MatchingGame.LeftItems | frontend/src/components/study-modes/MatchingGame.jsx:93-104 | one left tile per selected card, showing its front, unpaired and unselected |
| MatchingGame.RightItems | frontend/src/components/study-modes/MatchingGame.jsx:105-118 | one right tile per selected card, showing its back, unpaired and unselected |
| MatchingGame.StartRound | frontend/src/components/study-modes/MatchingGame.jsx:69-128 | nothing to select completes the game; otherwise the round holds the selected cards as shuffled tiles, with no pair matched and no selection |
| MatchingGame.RoundItemsFacts | frontend/src/components/study-modes/MatchingGame.jsx:93-122 | the shuffled tiles are fresh, one per side for each selected card |
| MatchingGame.Load | frontend/src/components/study-modes/MatchingGame.jsx:35-67 | fewer than two cards give no game; otherwise the shuffled cards with untried progress start round 0 |
| MatchingGame.SetSelected | frontend/src/components/study-modes/MatchingGame.jsx:263-267 | exactly the named tile changes its selected flag |
| MatchingGame.SetMatched | frontend/src/components/study-modes/MatchingGame.jsx:193-205 | exactly the card's two tiles become paired, unselected and tinted |
| MatchingGame.CheckMatch | frontend/src/components/study-modes/MatchingGame.jsx:171-261 | a pair is right exactly when both tiles belong to one card: it is paired green if never missed, yellow otherwise, and is mastered only without a miss; a wrong pair flags both cards as missed this round |
| MatchingGame.Click | frontend/src/components/study-modes/MatchingGame.jsx:130-169 | a paired tile is ignored; a tile completing a pair with the other side's selection checks that pair, and at most one more pair is matched |
| MatchingGame.Pick | frontend/src/components/study-modes/MatchingGame.jsx:131-160 | the clicked tile becomes its side's selection, the other side's selection is kept, and no progress changes |
| MatchingGame.ResetMisses | frontend/src/components/study-modes/MatchingGame.jsx:280-288 | the miss flag is cleared on every card not yet mastered; mastered cards keep their progress |
| MatchingGame.RoundComplete | frontend/src/components/study-modes/MatchingGame.jsx:269-289 | the game ends when every card is mastered, or after the one round of test mode; otherwise the next round holds only cards still to be retried or never paired at the first try |
| MatchingGame.Reset | frontend/src/components/study-modes/MatchingGame.jsx:291-300 | both selections dropped and every tile unselected; paired tiles and progress unchanged |
| MatchingGame.ClickAfterReset | frontend/src/components/study-modes/MatchingGame.jsx:291-300 | the first click after a reset only selects: no progress changes and nothing more is paired |
| MatchingGame.Restart | frontend/src/components/study-modes/MatchingGame.jsx:302-317 | every card untried, round 0, no outcomes, and the first five cards in play |
| MatchingGame.ClickKeepsMastery | frontend/src/components/study-modes/MatchingGame.jsx:130-169 | a card mastered at the first try stays mastered through any click |
| MatchingGame.CheckMatchKeepsMastery | frontend/src/components/study-modes/MatchingGame.jsx:183-191 | checking a pair never takes back a first-try mastery |
| MatchingGame.RoundKeepsMastery | frontend/src/components/study-modes/MatchingGame.jsx:280-288 | a round change never takes back a first-try mastery |
| MatchingGame.MasteredIds | frontend/src/components/study-modes/MatchingGame.jsx:344-345 | the mastered ids are among the progress entries |
| MatchingGame.GetStats | frontend/src/components/study-modes/MatchingGame.jsx:343-347 | green pairs are the mastered cards, green plus yellow is the card count, and the first-try rate is green × 100 / total |
| MatchingGame.PickKeyed | frontend/src/components/study-modes/MatchingGame.jsx:131-160 | selecting keeps progress keyed by the cards, and every tile and selection owned by one of them |
| MatchingGame.CheckMatchKeyed | frontend/src/components/study-modes/MatchingGame.jsx:171-261 | checking a pair keeps the same ownership invariant |
| MatchingGame.ClickKeyed | frontend/src/components/study-modes/MatchingGame.jsx:130-169 | every click keeps the ownership invariant |
| MatchingGame.StatsInRange | frontend/src/components/study-modes/MatchingGame.jsx:343-347 | under the invariant the yellow count is never negative, the rate lies in 0..100, and yellow is 0 exactly when every card is mastered |
| MultipleChoiceQuiz.Remaining | frontend/src/components/study-modes/MultipleChoiceQuiz.jsx:63 | exactly the cards not yet right at the first try, never more than the cards |
| MultipleChoiceQuiz.RemainingShrinks | frontend/src/components/study-modes/MultipleChoiceQuiz.jsx:86-91 | marking a pending card done strictly shortens the remaining list, so the skip recursion ends |
| MultipleChoiceQuiz.RemainingNoLonger | frontend/src/components/study-modes/MultipleChoiceQuiz.jsx:63-68 | when the pending cards only shrink, the remaining list never grows |
| MultipleChoiceQuiz.EligibleQuestions | frontend/src/components/study-modes/MultipleChoiceQuiz.jsx:79-84 | exactly the questions whose type is switched on |
| MultipleChoiceQuiz.Find | frontend/src/components/study-modes/MultipleChoiceQuiz.jsx:100 | `indexOf`: -1 exactly when absent, otherwise the first position holding the value |
| MultipleChoiceQuiz.Shuffled | frontend/src/components/study-modes/MultipleChoiceQuiz.jsx:97-100 | after the shuffle, the located index holds the right option; a question whose index pointed at no option gets -1 |
| MultipleChoiceQuiz.LoadNext | frontend/src/components/study-modes/MultipleChoiceQuiz.jsx:61-108 | nothing remaining completes the quiz; a question asked is an eligible question of a pending card with shuffled options and the right one located; in order mode the first remaining card with eligible questions is asked |
| MultipleChoiceQuiz.AskFor | frontend/src/components/study-modes/MultipleChoiceQuiz.jsx:94-105 | one of the card's eligible questions, its options a permutation of the question's |
| MultipleChoiceQuiz.Show | frontend/src/components/study-modes/MultipleChoiceQuiz.jsx:65-67 | a finished load completes the quiz; a question is shown unanswered; progress is untouched |
| MultipleChoiceQuiz.Start | frontend/src/components/study-modes/MultipleChoiceQuiz.jsx:42-59 | an empty quiz loads nothing; otherwise the first question, with empty progress and counters at 0 |
| MultipleChoiceQuiz.Submit | frontend/src/components/study-modes/MultipleChoiceQuiz.jsx:133-162 | right exactly when the chosen position is the located one; a right answer masters a card never missed, a wrong one flags it missed; one counter goes up, and test mode records the outcome |
| MultipleChoiceQuiz.Select | frontend/src/components/study-modes/MultipleChoiceQuiz.jsx:125-131 | a choice is accepted only before the answer is submitted |
| MultipleChoiceQuiz.Continue | frontend/src/components/study-modes/MultipleChoiceQuiz.jsx:110-112 | the next load keeps progress and counters, completes when nothing remains, and shows only a pending card |
| MultipleChoiceQuiz.Restart | frontend/src/components/study-modes/MultipleChoiceQuiz.jsx:114-121 | progress, counters and outcomes cleared, then the first load on empty progress |
| MultipleChoiceQuiz.MissedCardStaysRemaining | frontend/src/components/study-modes/MultipleChoiceQuiz.jsx:146-154 | a missed card keeps its miss flag through every submission and load, and so stays in the remaining list until a restart |
| MultipleChoiceQuiz.GetStats | frontend/src/components/study-modes/MultipleChoiceQuiz.jsx:202-206 | questions are right plus wrong answers, accuracy is the right share in 0..100 (0 with no answers), first-try cards are exactly the progress entries answered right at the first try, never more than the entries |
| MultipleChoiceQuiz.FirstTryAndRemaining | frontend/src/components/study-modes/MultipleChoiceQuiz.jsx:63-206 | with distinct card ids and progress kept only for the quiz's cards, the first-try count plus the remaining cards is the number of cards |
| TestFlow.TypeOf | frontend/src/components/study-modes/TestFlow.jsx:14 | the long test exactly for the `long_test` mode |
| TestFlow.ConfigFor | frontend/src/components/study-modes/TestFlow.jsx:21-38 | the phase quotas add up to the total: 13 for the short test, 39 for the long one |
| TestFlow.LongTriplesShort | frontend/src/components/study-modes/TestFlow.jsx:21-38 | every quota of the long test is three times the short one's |
| TestFlow.Quotas | frontend/src/components/study-modes/TestFlow.jsx:99-147 | one quota per phase, four in all |
| TestFlow.Cut | frontend/src/components/study-modes/TestFlow.jsx:99-147 | a phase boundary never lies past the end of the pool |
| TestFlow.Phases | frontend/src/components/study-modes/TestFlow.jsx:99-147 | the reference selection: each phase is the pool slice between its quota cut and the next |
| TestFlow.SelectPhase | frontend/src/components/study-modes/TestFlow.jsx:99-110 | one selection loop takes the next unused cards up to its quota, and the used indices stay a prefix of the pool |
| TestFlow.Partition | frontend/src/components/study-modes/TestFlow.jsx:99-147 | the four loops with one shared set of used indices compute the reference selection |
| TestFlow.PhaseSizes | frontend/src/components/study-modes/TestFlow.jsx:99-147 | a phase gets at most its quota, and exactly its quota when the pool holds the total |
| TestFlow.PhasesCover | frontend/src/components/study-modes/TestFlow.jsx:99-147 | taken together, the phases are the first `total` cards of the pool, or all of it, in pool order |
| TestFlow.PhasesDisjoint | frontend/src/components/study-modes/TestFlow.jsx:99-147 | no card of a duplicate-free pool is in two phases |
| TestFlow.Start | frontend/src/components/study-modes/TestFlow.jsx:85-155 | the pool is a shuffle of the plan's cards, split into the reference phases, at phase 0 with no results |
| TestFlow.ViewOf | frontend/src/components/study-modes/TestFlow.jsx:258-279 | a pool short of the total shows "not enough" with both numbers; otherwise the current phase, or the summary after the fourth |
| TestFlow.PhaseComplete | frontend/src/components/study-modes/TestFlow.jsx:157-172 | the phase's results are stored, and nothing else; the test moves to the next phase, and after the fourth the results of all four are saved |
| TestFlow.FourPhasesReachSummary | frontend/src/components/study-modes/TestFlow.jsx:157-172 | four phase completions from the start reach the summary with the results saved |
| TestFlow.ScoreOf | frontend/src/components/study-modes/TestFlow.jsx:288-296 | a phase row counts its right results and all results; its percentage lies in 0..100, is 0 without results, and is 100 exactly when every result is right |
| TestFlow.Scores | frontend/src/components/study-modes/TestFlow.jsx:287-297 | one row per phase, in phase order |
| TestFlow.Percentages | frontend/src/components/study-modes/TestFlow.jsx:316-318 | the percentages compared, one per phase row and equal to it |
| TestFlow.OverallAgrees | frontend/src/components/study-modes/TestFlow.jsx:299-301 | the summary's overall score, summed from the rows, equals the share of right results over all phases, which is the score saved |
| TestFlow.GradeOf | frontend/src/components/study-modes/TestFlow.jsx:303-309 | each letter exactly on its band: A from 90, B from 80, C from 70, D from 60, F below |
| TestFlow.GradeMonotone | frontend/src/components/study-modes/TestFlow.jsx:303-309 | a higher score never earns a lower grade |
| TestFlow.Strongest | frontend/src/components/study-modes/TestFlow.jsx:316-317 | the strongest area has the highest percentage, and is the first such area |
| TestFlow.Weakest | frontend/src/components/study-modes/TestFlow.jsx:316-318 | the weakest area has the lowest percentage, and is the last such area |
| TestFlow.TiedAreas | frontend/src/components/study-modes/TestFlow.jsx:316-318 | with all percentages equal, the strongest is the first phase and the weakest the last |
| TestFlow.Tally | frontend/src/components/study-modes/TestFlow.jsx:195-211 | every result bumps its card's total, and its correct count when it was right |
| TestFlow.VocabDetails | frontend/src/components/study-modes/TestFlow.jsx:195-216 | one record per card with a result, holding how many results it had, how many were right, and their share as mastery |
| TestFlow.DistinctIds | frontend/src/components/study-modes/TestFlow.jsx:213 | each card with a result appears once |
| TestFlow.DetailsSumToTotal | frontend/src/components/study-modes/TestFlow.jsx:184-216 | every result lands in exactly one card's record: the per-card totals add up to the number of questions |
| TestFlow.Save | frontend/src/components/study-modes/TestFlow.jsx:174-242 | the payload holds the test type, the raw answers, the question count, the right answers (never more than the questions), the overall score in 0..100 and the per-card records |
| Onboarding.Initial | frontend/src/pages/Onboarding.jsx:13-22 | step 0, moderate pace, no modes, no subjects, an empty subject box |
| Onboarding.RemoveAll | frontend/src/pages/Onboarding.jsx:31-33 | every copy of the value goes, and every other element keeps its multiplicity |
| Onboarding.RemoveAllAppend | frontend/src/pages/Onboarding.jsx:49-51 | removing distributes over concatenation, so the others keep their order |
| Onboarding.RemoveAllAbsent | frontend/src/pages/Onboarding.jsx:31-33 | removing a value not in the list leaves it unchanged |
| Onboarding.RemoveAllNoDuplicates | frontend/src/pages/Onboarding.jsx:31-33 | removing keeps a list free of repeats |
| Onboarding.ToggleMode | frontend/src/pages/Onboarding.jsx:30-38 | a selected mode is dropped and any other appended at the end; no other mode or field changes |
| Onboarding.ToggleTwice | frontend/src/pages/Onboarding.jsx:30-38 | toggling a mode on and off restores the list; toggling it off and on moves it to the end |
| Onboarding.ToggleNoDuplicates | frontend/src/pages/Onboarding.jsx:30-38 | toggling never creates a repeated mode |
| Onboarding.SubjectKey | frontend/src/pages/Onboarding.jsx:40-47 | Enter on a non-blank box adds the trimmed subject if new and clears the box; any other key, or a blank box, changes nothing |
| Onboarding.SubjectKeyKeeps | frontend/src/pages/Onboarding.jsx:40-47 | adding keeps the subject list free of blanks, untrimmed entries and repeats |
| Onboarding.RemoveSubject | frontend/src/pages/Onboarding.jsx:49-51 | every copy of the subject is removed; nothing else changes |
| Onboarding.RemoveSubjectKeeps | frontend/src/pages/Onboarding.jsx:49-51 | removing keeps the subject list clean |
| Onboarding.TrimIdempotent | frontend/src/pages/Onboarding.jsx:42-44 | trimming a subject twice changes nothing more |
| Onboarding.TrimmedIsFixed | frontend/src/pages/Onboarding.jsx:42-44 | an already trimmed subject is unchanged by trimming |
| Onboarding.AppendClean | frontend/src/pages/Onboarding.jsx:42-45 | appending a trimmed, non-blank subject not yet listed keeps the list clean |
| Onboarding.SetInput | frontend/src/pages/Onboarding.jsx:40-47 | typing changes only the subject box |
| Onboarding.Next | frontend/src/pages/Onboarding.jsx:151-155 | the step advances by one exactly on steps 0 to 3, except on the modes step while no mode is chosen |
| Onboarding.Back | frontend/src/pages/Onboarding.jsx:73-74 | the step goes back by one exactly on steps 2 to 4 |
| Onboarding.StepsStayInRange | frontend/src/pages/Onboarding.jsx:73-74 | the steps never leave the five pages, and the subjects page is reached from the modes page only with a mode chosen |
| EditPlan.Load | frontend/src/pages/EditPlan.jsx:35-52 | the fetched cards, none new, deleted or modified, nothing unsaved; the editor invariant holds |
| EditPlan.Change | frontend/src/pages/EditPlan.jsx:54-63 | only the edited field of the edited card changes, and the card counts as modified unless it is new |
| EditPlan.Add | frontend/src/pages/EditPlan.jsx:65-75 | one blank new card with a temporary id is appended; nothing else is touched |
| EditPlan.Remove | frontend/src/pages/EditPlan.jsx:77-88 | a new card is dropped from the list at once; an existing one stays, marked for deletion |
| EditPlan.Visible | frontend/src/pages/EditPlan.jsx:177 | exactly the cards not marked for deletion |
| EditPlan.OpFor | frontend/src/pages/EditPlan.jsx:96-125 | a card gives a request exactly when one of the three save tests passes, and the kind of request is the test's |
| EditPlan.AtMostOneOp | frontend/src/pages/EditPlan.jsx:96-125 | no card passes two of the save tests |
| EditPlan.Operations | frontend/src/pages/EditPlan.jsx:90-125 | the save sends one request per card that passes a test, each the request of one of the cards, with every update before every creation and every creation before every deletion |
| EditPlan.Puts | frontend/src/pages/EditPlan.jsx:96-105 | one update per card passing the update test, in list order, each carrying that card's id and text |
| EditPlan.Posts | frontend/src/pages/EditPlan.jsx:108-119 | one creation per card passing the creation test, in list order, each carrying that card's text |
| EditPlan.Deletes | frontend/src/pages/EditPlan.jsx:121-125 | one deletion per card passing the deletion test, in list order, each naming that card's id |
| EditPlan.OpCounts | frontend/src/pages/EditPlan.jsx:96-125 | the numbers of updates, creations and deletions add up to the cards with a request |
| EditPlan.ChangeKeeps | frontend/src/pages/EditPlan.jsx:54-63 | editing keeps the invariant: exactly the new cards have a temporary id, and no new card is marked deleted or modified |
| EditPlan.AddKeeps | frontend/src/pages/EditPlan.jsx:65-75 | adding keeps the invariant |
| EditPlan.RemoveKeeps | frontend/src/pages/EditPlan.jsx:77-88 | deleting keeps the invariant |
| EditPlan.OpsUnderValid | frontend/src/pages/EditPlan.jsx:96-125 | under the invariant an edited live card is updated, a marked card deleted, and a new card created only with both texts; a temporary id is never sent |
| EditPlan.RemoveThenSave | frontend/src/pages/EditPlan.jsx:77-125 | deleting an existing card queues exactly its deletion; deleting a new card leaves nothing to send and shortens the list |
| EditPlan.AddedCardWaits | frontend/src/pages/EditPlan.jsx:65-119 | a card just added is not sent until both of its texts are filled in |
| EditPlan.RemoveHides | frontend/src/pages/EditPlan.jsx:77-88 | marking a visible existing card deleted hides it and only it |
| StudyPlanDetail.DayKey | frontend/src/pages/StudyPlanDetail.jsx:83 | a missing day and day 0 both land on day 0; any other day is kept |
| StudyPlanDetail.TasksOn | frontend/src/pages/StudyPlanDetail.jsx:82-87 | exactly the tasks of one day, in schedule order |
| StudyPlanDetail.GroupByDay | frontend/src/pages/StudyPlanDetail.jsx:82-87 | one group per day of the schedule, holding that day's tasks in schedule order |
| StudyPlanDetail.ExactlyOneGroup | frontend/src/pages/StudyPlanDetail.jsx:82-87 | every task sits in the group of its own day and in no other |
| StudyPlanDetail.GroupsComeFromTasks | frontend/src/pages/StudyPlanDetail.jsx:82-87 | every task of a group belongs to the schedule and to that group's day |
| StudyPlanDetail.InsertDay | frontend/src/pages/StudyPlanDetail.jsx:185-186 | inserting a day into an increasing list keeps it increasing and adds exactly that day |
| StudyPlanDetail.DayOrder | frontend/src/pages/StudyPlanDetail.jsx:185-186 | the day headings are every day of the schedule once, in increasing order |
| StudyPlanDetail.DayOrderMatchesGroups | frontend/src/pages/StudyPlanDetail.jsx:181-187 | the page lists each group exactly once, in ascending day order |
| StudyPlanDetail.ModeAvailable | frontend/src/pages/StudyPlanDetail.jsx:157 | fill-the-gaps is available exactly on a vocabulary plan; every other mode always is |
| StudyPlanDetail.AvailableButtons | frontend/src/pages/StudyPlanDetail.jsx:154-157 | on a vocabulary plan every button is enabled; on any other plan exactly the fill-the-gaps button is disabled |
| AdaptiveLearning.BaseSpeed | backend/app/services/adaptive_learning.py:24-28 | 30 items per hour exactly for a fast pace, 12 exactly for a slow one, otherwise 20 |
| AdaptiveLearning.StrengthModifier | backend/app/services/adaptive_learning.py:35-39 | 1.25 exactly above 0.7, 0.8 exactly below 0.3, otherwise 1 |
| AdaptiveLearning.SubjectModifier | backend/app/services/adaptive_learning.py:31-39 | the modifier of the recorded strength, a missing profile, column or category reading as neutral 0.5 |
| AdaptiveLearning.AssessmentModifier | backend/app/services/adaptive_learning.py:44-48 | 1.5 exactly above 80, 1.2 exactly above 50 up to 80, otherwise 1 |
| AdaptiveLearning.PersonalizedSpeed | backend/app/services/adaptive_learning.py:14-51 | the speed lies in 9.6..56.25, with each bound reached exactly by the slowest and the fastest combination |
| AdaptiveLearning.NoProfileSpeed | backend/app/services/adaptive_learning.py:22-48 | without a profile the speed is 20 times the assessment modifier |
| AdaptiveLearning.SpeedMonotoneInScore | backend/app/services/adaptive_learning.py:44-51 | a better pre-assessment score never lowers the speed |
| AdaptiveLearning.SpeedMonotoneInStrength | backend/app/services/adaptive_learning.py:31-51 | a stronger subject never lowers the speed |
| AdaptiveLearning.DaysAvailable | backend/app/services/adaptive_learning.py:76-81 | 7 days without an exam date, otherwise the days left, and never less than 1 |
| AdaptiveLearning.PhaseSplit | backend/app/services/adaptive_learning.py:106-110 | as intended: the three phases take exactly the available days, recognition at least one and never more than recall except on a one-day budget |
| AdaptiveLearning.PhaseSplitAgrees | backend/app/services/adaptive_learning.py:106-110 | the intended split equals the split as written exactly on budgets of two days or more |
| AdaptiveLearning.PhaseTasks | backend/app/services/adaptive_learning.py:112-155 | the three loops give one open task per phase day: quizzes of 20 minutes, then learn sessions of 30, then writing sessions of 40, on consecutive days from day 1 |
| AdaptiveLearning.GenerateAdaptiveSchedule | backend/app/services/adaptive_learning.py:53-160 | no plan, no user or no card below 70 mastery changes nothing and returns nothing; otherwise the completed tasks are kept, the open ones replaced by the phase tasks of the split as written (one per available day, two on a one-day budget), and that count is returned |
| AdaptiveLearning.ScheduleKeepsCompletedWork | backend/app/services/adaptive_learning.py:98-101 | regenerating keeps the plan's count of completed tasks |
| AdaptiveLearning.SplitAsWritten | backend/app/services/adaptive_learning.py:106-110 | as written: 30% and 40% of the days rounded down but at least 1 each, the rest to production, which is -1 on a one-day budget |
| AdaptiveLearning.SplitAsWrittenOverruns | backend/app/services/adaptive_learning.py:106-155 | the loops as written create one task per day, except two on a one-day budget |
| PreAssessment.SampleSize | backend/app/services/pre_assessment.py:35-38 | a quarter of the cards, at least 5 and at most 20, never more than there are |
| PreAssessment.QuestionOf | backend/app/services/pre_assessment.py:44-64 | a card's first stored multiple-choice question when it has one, otherwise its front as a flashcard question; either way it carries the card id and back |
| PreAssessment.GeneratePreAssessment | backend/app/services/pre_assessment.py:15-77 | an existing assessment is returned unchanged, a plan without cards gets none, and otherwise a pending assessment holds one question per sampled card |
| PreAssessment.SampledCardsDistinct | backend/app/services/pre_assessment.py:40-64 | cards with distinct ids give questions about distinct cards |
| PreAssessment.Apply | backend/app/services/pre_assessment.py:107-118 | a right answer sets mastery 80 and difficulty easy, a wrong one mastery 0; either way studied once |
| PreAssessment.ApplyAll | backend/app/services/pre_assessment.py:90-118 | the answers update cards but never add or remove one |
| PreAssessment.ApplyAllEffect | backend/app/services/pre_assessment.py:90-118 | each card's mastery follows the last answer about it, a card ever answered right is easy, and an unanswered card is unchanged |
| PreAssessment.Score | backend/app/services/pre_assessment.py:121 | right answers per stored question as a percentage, 0 without questions, in 0..100 when no more right answers than questions |
| PreAssessment.ScoreUncapped | backend/app/services/pre_assessment.py:121 | the score is not capped: two right answers on a one-question assessment score 200 |
| PreAssessment.SubmitAssessment | backend/app/services/pre_assessment.py:79-127 | an unknown assessment changes nothing; otherwise the answers update their cards and the assessment is completed with its score |
| PreAssessment.SubmittedScoreInRange | backend/app/services/pre_assessment.py:121-123 | a submission answering no more than the questions scores in 0..100 |
| StudySessions.RecordSession | backend/app/routers/study_sessions.py:27-45 | a new session takes today's scheduled task count; the posted count replaces the old one; the day is complete once tasks were scheduled and as many done, and a complete day stays complete |
| StudySessions.RecordOverwrites | backend/app/routers/study_sessions.py:41-45 | posting twice keeps the second count, not the sum, and never uncompletes the day |
| StudySessions.StreakFrom | backend/app/routers/study_sessions.py:70-78 | as written: each counted day is the expected day or the one before, and the first day that is neither ends the streak |
| StudySessions.StreakAsWritten | backend/app/routers/study_sessions.py:63-80 | as written: no complete days give 0; a streak starts today or yesterday |
| StudySessions.StreakLoop | backend/app/routers/study_sessions.py:63-80 | the loop with its early exit computes the as-written streak |
| StudySessions.StaleStreakIsZero | backend/app/routers/study_sessions.py:73-78 | a latest complete day older than yesterday gives streak 0 |
| StudySessions.StreakAsWrittenSkipsGap | backend/app/routers/study_sessions.py:73-76 | complete days today and two days ago count as a streak of 2 |
| StudySessions.Streak | backend/app/routers/study_sessions.py:53-80 | as intended: starting today or yesterday, each counted day is exactly the day before the previous one, and the first gap ends the streak |
| StudySessions.Run | backend/app/routers/study_sessions.py:70-78 | as intended: the counted days are the expected day and the days directly before it, and the first day out of that sequence ends the count |
| StudySessions.StreakAgreesWithoutGaps | backend/app/routers/study_sessions.py:70-78 | the intended streak never exceeds the as-written one, and the two agree when the complete days have no gaps |
| Users.NewStrengths | backend/app/routers/users.py:56-62 | a new profile gives each favourite subject 0.7 and nothing else |
| Users.Boost | backend/app/routers/users.py:70-73 | each favourite ends at the higher of its old strength and 0.7; other subjects are untouched |
| Users.Current | backend/app/routers/users.py:70 | a missing or empty strengths column reads as no strengths |
| Users.CompleteOnboarding | backend/app/routers/users.py:30-73 | the user takes every posted answer, is marked onboarded at the given time, and the profile's pace is the posted one; a new profile gets the favourites' strengths, an existing one keeps its speeds and has its strengths boosted |
| Users.OnboardingNeverWeakens | backend/app/routers/users.py:66-73 | every favourite comes out at least 0.7, and no recorded subject loses strength |
| Users.BoostIdempotent | backend/app/routers/users.py:71-72 | boosting the same favourites again changes nothing |
| Users.OnboardingIdempotent | backend/app/routers/users.py:53-73 | posting the same answers twice leaves the strengths where the first post put them |
| MockAi.AnalyzeMaterial | backend/app/mock_ai_service.py:10-23 | a vocabulary analysis with three topics, two cards and 15 minutes |
| MockAi.AnalysisIgnoresText | backend/app/mock_ai_service.py:10-23 | the analysis is the same whatever the text |
| MockAi.VocabularyFlashcards | backend/app/mock_ai_service.py:25-50 | the first max(n, 15) of the twenty fixed pairs, so between 15 and 20 |
| MockAi.McqQuestions | backend/app/mock_ai_service.py:52-79 | a standard, a reverse and a creative question of four options each, whose right option is the back, the front and the back |
| MockAi.VocabularySentences | backend/app/mock_ai_service.py:81-127 | one sentence of a German template around the back, with one highlight that covers exactly the back, at its first occurrence |
| MockAi.MockSentenceGivesGap | backend/app/mock_ai_service.py:119-127 | the word fill-the-gaps extracts from a mock sentence is the card's back |
| AiService.VocabularyFlashcards | backend/app/ai_service.py:212-227 | a non-empty list reply is returned unchanged; anything else falls back to 20 mock cards, so the result is never empty |
| AiService.VocabularyMcqs | backend/app/ai_service.py:288-298 | a reply of exactly three questions is kept; anything else falls back to the mock questions, so there are always three |
| AiService.FallbackSchedule | backend/app/ai_service.py:428-508 | the eight fixed tasks; with test results, the same list without the pre-assessment |
| AiService.FallbackShape | backend/app/ai_service.py:428-508 | without results, eight tasks opening with the pre-assessment on day 1; with results, the other seven in order, none a pre-assessment |
| AiService.WeakWords | backend/app/ai_service.py:519-530 | with test results, the first twenty cards whose recorded mastery (100 when not given) is below 70; otherwise none |
| AiService.DecimalString | backend/app/ai_service.py:523 | Python's `str` of an integer: never empty, all digits for a non-negative number, a leading minus for a negative one |
| AiService.WeakWordsSound | backend/app/ai_service.py:519-530 | every listed word is weak and among the cards, and with twenty or fewer weak cards every one is listed |
| AiService.StudySchedule | backend/app/ai_service.py:578-594 | the reply's task list when the call succeeds, otherwise the fallback schedule of at least seven tasks |

## Left out

- Characters are modelled as Unicode code points, not as the UTF-16 code units JavaScript strings count. For text outside the Basic Multilingual Plane (an emoji, say), `length`, indexing, `substring` and `indexOf` count two units per character in the browser and one in the model. The character marks of `LcsDiff` and `PositionalDiff` and the highlight and blank positions of `FillTheGaps` and `JsText` differ on such text accordingly.
- HTTP requests, the database and React rendering are not modelled. A fetched list, a looked-up record or a reply is an argument; a request sent is a returned value.
- Loading spinners, timers, time spent, error flashes, navigation and `console` output are not modelled.
- The touch and mouse gesture arithmetic of the swipe modes is left out; a swipe is a direction.
- Floating point is replaced by exact reals and integers.
  - Python's `round(x, 1)` on the speed and JavaScript's `toFixed` on displayed averages are not modelled.
  - `int(d * 0.3)` and `int(d * 0.4)` are ⌊3d/10⌋ and ⌊2d/5⌋.
  - `int(n * 0.25)` is ⌊n/4⌋.
- AdaptiveLearning.PersonalizedSpeed: the rounding to one decimal is not modelled, so the bounds hold for the unrounded product.
- AdaptiveLearning.GenerateAdaptiveSchedule: the daily capacity is left out. It is computed from the speed and the weekly hours, but nothing uses it. The speed therefore does not affect the schedule.
- The task titles, rationales, descriptions and scheduled dates are left out; the mode, minutes, day and completion flag are modelled.
- The `window.testFlowCallback` route by which a study mode tells the test flow that a phase is over is left out. Phase completion is an explicit argument of TestFlow.PhaseComplete.
- The `'match'` versus `'matching'` result-key mismatch of that route is left out for the same reason.
- Stale React closures are not modelled; each handler is modelled as the sequential transition it evidently intends. This covers three cases:
  - MatchingGame's `startRound` reads the `currentRound` value of the render that scheduled it. Round 2 therefore replays the first five cards.
  - TestFlow's callback is registered on the first render, so it always sees phase 0.
  - `saveTestResults` reads the phase results before the last phase's results are stored.
- The in-place mutation of shared status objects (`status.known = true` on an object still held by the previous state) is modelled as a fresh map entry.
- MockAi.VocabularySentences: the first `random.choice` of a template, whose result is discarded, is left out. The German template the second choice picks is the `pick` argument.
- The English templates are left out: the mock always answers in German.
- `extract_text_from_image`, `analyze_material`, `process_pdf_content`, `generate_vocabulary_sentences` and `generate_mcq_questions` of the AI service are left out: they call the remote model, and their fallbacks are the mock functions already modelled.
- `AIService.generate_flashcards` is left out. Its fallback calls a mock function that does not exist, so only `generate_vocabulary_flashcards` is modelled.
- The `USE_MOCK_AI` switch is left out. AiService.StudySchedule takes the reply as an option, and the mock path is the fallback path.
- StudySessions.RecordSession: the count of tasks scheduled today is an argument. The query that would compute it names `StudyPlan`, which `study_sessions.py` does not import.
- The property assignments in `backend/app/routers/tasks.py` are left out; `backend/app/routers/tasks.py` is not part of this model.
- The Onboarding form's plain field setters (pace, hours, language, time preference) are left out, as is `handleSubmit`, which posts the form.
- EditPlan's unsaved-changes dialogue is left out.
- MultipleChoiceQuiz's keyboard shortcuts are left out; they call the same select handler.
- White space means the ECMAScript WhiteSpace and LineTerminator code points listed in `TextNormalize`; no other Unicode property is modelled.
- LearnMode.ProgressAsWritten carries no contract of its own. LearnMode.PrematureCompletion states its effect on one input.

## Findings

| source | as written | input that shows it | evidently intended | confidence | as-written member | corrected member |
|---|---|---|---|---|---|---|
| frontend/src/components/study-modes/WritingPractice.jsx:185-192, 239-256 | the last correct answer completes the session and returns before the deck is updated; the restart then reshuffles that one-card deck | a session of three cards answered correctly in turn, then Restart | the restart practises every card the session was loaded with | not executed | WritingPractice.RestartAfterCompletionShrinks | WritingPractice.Restart |
| frontend/src/components/study-modes/FillTheGaps.jsx:203-215, 256-273 | the same early return leaves one item on the deck, and the restart reshuffles only that item | three gap items typed correctly, then Restart | the restart offers every prepared item again | not executed | FillTheGaps.RestartAfterCompletionShrinks | FillTheGaps.Restart |
| frontend/src/components/study-modes/LearnMode.jsx:166-171, 228-243 | the last right swipe completes the session without removing the card, and the restart rebuilds from that one card | two cards swiped right, then Restart | the restart is a new start on every fetched card | not executed | LearnMode.RestartAfterCompletionShrinks | LearnMode.Restart |
| frontend/src/components/study-modes/FillTheGaps.jsx:305 | first-try words are those with `attempts === 1`, but a right answer never adds an attempt | every word typed right at the first try: the screen shows 0 first-try words | words known with no recorded miss (`attempts === 0`, as in writing practice) | not executed | FillTheGaps.FlawlessWordsNotCounted | FillTheGaps.GetStats |
| frontend/src/components/study-modes/FillTheGaps.jsx:304 | the sentence total is the length of the deck on the completion screen | any completed session: the total shows 1 | the number of prepared sentences | not executed | FillTheGaps.CompletedShowsOneSentence | FillTheGaps.GetStats |
| frontend/src/components/study-modes/LearnMode.jsx:77-79, 246-250 | completion and progress compare the known cards with the cards left on the deck | two cards, the first swiped right: one known, one left, so the session completes and shows 100% | complete, and 100%, once every card of the session is known | not executed | LearnMode.PrematureCompletion | LearnMode.Settle |
| backend/app/services/adaptive_learning.py:106-110 | both the recognition and the recall phase get at least one day, and production takes the rest | an exam tomorrow (one day available): two tasks, on days 1 and 2 | one task per available day | not executed | AdaptiveLearning.SplitAsWrittenOverruns | AdaptiveLearning.PhaseSplit |
| backend/app/routers/study_sessions.py:73-76 | a session counts when it falls on the expected day or the day before, so a one-day gap is absorbed | complete days today and two days ago: streak 2 | only consecutive days count: streak 1 | not executed | StudySessions.StreakAsWrittenSkipsGap | StudySessions.Streak |
