# bulglo core, modelled in Dafny

bulglo is a browser app for learning Bulgarian Cyrillic. Each lesson is a
sequence of exercises. The exercise container evaluates the learner's answer,
allows three attempts, and then asks for a spaced-repetition rating. The lesson
page turns the exercise results into a score, XP and badges. A persisted
progress store keeps XP, level, streak, completed lessons, the spaced-repetition
buckets, badges and settings. The content store works out which lessons are
unlocked. The home and practice pages summarise the progress.

The project models that core as pure functions over immutable datatypes:

| file | module | models |
|---|---|---|
| `common.dfy` | `Common` | `Option`, `Outcome` (value or error message) |
| `text.dfy` | `Text` | the JavaScript string operations the core relies on: `toLowerCase`, `trim`, `split`, `join` |
| `types.dfy` | `Types` | exercises, lessons, units, results, spaced-repetition items, settings, the progress state |
| `evaluator.dfy` | `Evaluator` | the answer check inside `checkAnswer` |
| `session.dfy` | `ExerciseSession` | the exercise container's state machine: reset, check, retry, rating, skip |
| `progress.dfy` | `Progress` | every action of the progress store, including export and import |
| `content.dfy` | `Content` | the id lookups and the unlocked-lessons query of the content store |
| `lesson.dfy` | `LessonFlow` | the lesson page: spaced-repetition updates, score, XP, badges, advance and skip |
| `building.dfy` | `AnswerBuilding` | what the answer widgets hand back, list removal by index, and the append/remove/clear handlers that the word-ordering and letter-selection widgets share |
| `select_letters.dfy`, `order_words.dfy`, `match_pairs.dfy`, `type_answer.dfy`, `flashcard.dfy` | `SelectLettersView`, `OrderWordsView`, `MatchPairsView`, `TypeAnswerView`, `FlashcardView` | the handlers of the answer widgets |
| `home.dfy`, `practice.dfy` | `Home`, `Practice` | unit progress, the next-lesson link and the review queue |

Modelling conventions:
- Time is an integer number of milliseconds. A calendar day is `t / 86400000`.
- A due date is `now` plus the bucket's interval in whole days.
- Delayed callbacks (`setTimeout`) are not modelled as timers. A check returns the effect it schedules, and `Settle` applies that effect before the next action is handled. A handler that calls back returns an `Emit` value, not a side effect.
- `Math.round(100 * c / n)` is computed exactly, as `(200c + n) / (2n)`.

Quirks of the code that the model keeps as written, each with a lemma:
- The case-mismatch flag is never set: both branches that would set it are unreachable (`Evaluator.Evaluate` ensures `!caseError`). So the capitalization hint at src/components/Exercise/ExerciseContainer.tsx:251 can never appear.
- A finished lesson adds its XP twice, once in `completeLesson` and again in `addXp` (`LessonFlow.FinishLesson`).
- Skipping only sets `wasSkipped` and marks the exercise incorrect (src/components/Exercise/ExerciseContainer.tsx:152-160). It does not lock the input. For every exercise kind with fewer than three attempts, input stays open for the two seconds before the skip lands (`ExerciseSession.SkipLeavesInputOpen`).
- Importing a file keeps a stale `level` when the file's level disagrees with its XP (`Progress.ImportKeepsStaleLevel`).
- With 200 or more results a lesson can score 100 despite one miss (`LessonFlow.ScoreExtremes`).
- The home page links to the first uncompleted lesson of a unit without looking at prerequisites (`Home.LinkIgnoresPrerequisites`).

## Model

| member | source | states |
|---|---|---|
| `Text.Lower` | src/components/Exercise/ExerciseContainer.tsx:62 | lower-casing keeps the length and maps each character on its own |
| `Text.LowerIdempotent` | src/components/Exercise/ExerciseContainer.tsx:82-83 | lower-casing twice is lower-casing once |
| `Text.LowerAppend` | src/components/Exercise/ExerciseContainer.tsx:82-83 | lower-casing distributes over concatenation |
| `Text.Trim` | src/components/Exercise/ExerciseContainer.tsx:82-83 | the result is no longer than the input and neither starts nor ends with white space, and a text that already has no white space at either end is returned unchanged |
| `Text.TrimIdempotent` | src/components/Exercise/ExerciseContainer.tsx:82-83 | trimming twice is trimming once |
| `Text.TrimPadded` | src/components/Exercise/ExerciseContainer.tsx:82-84 | white space added around a string never changes its trimmed form |
| `Text.TrimRecoversCore` | src/components/Exercise/ExerciseContainer.tsx:82-84 | trimming a text with no white space at either end, padded with white space on both sides, gives exactly that text back |
| `Text.Split` | src/components/Exercise/MatchPairs.tsx:75 | splitting yields at least one part, and no part contains the separator |
| `Text.SplitJoin` | src/components/Exercise/MatchPairs.tsx:66-75 | splitting a join of separator-free parts gives the parts back |
| `Evaluator.Evaluate` | src/components/Exercise/ExerciseContainer.tsx:51-93 | the case-error flag is never raised; a flashcard answer is correct exactly when its string form is one of hard, good, easy |
| `Evaluator.ListAgainstList` | src/components/Exercise/ExerciseContainer.tsx:57-75 | a list answer against a list key is correct exactly when both lists lower-case to the same list (same length, same order) |
| `Evaluator.OneAgainstList` | src/components/Exercise/ExerciseContainer.tsx:76-80 | a single answer against a list key is correct exactly when its lower-cased form is among the key's lower-cased entries |
| `Evaluator.OneAgainstOne` | src/components/Exercise/ExerciseContainer.tsx:81-91 | against a single key, an answer is correct exactly when the lower-cased, trimmed strings agree |
| `Evaluator.PaddedRecasingAccepted` | src/components/Exercise/ExerciseContainer.tsx:82-84 | a typed answer that differs from the key only in letter case and surrounding white space is accepted, with no case error |
| `Evaluator.ExpectedAccepted` | src/components/Exercise/ExerciseContainer.tsx:57-91 | submitting the answer key itself is always accepted |
| `Evaluator.OrderMatters` | src/components/Exercise/ExerciseContainer.tsx:60-63 | the right letters in the wrong order are rejected, while different letter case is accepted |
| `Evaluator.TypedCaseAndSpace` | src/components/Exercise/ExerciseContainer.tsx:82-84 | "Котка " is accepted for "котка" |
| `ExerciseSession.Enter` | src/components/Exercise/ExerciseContainer.tsx:33-42 | a new exercise id resets the attempts, answer, verdict and all flags but keeps the start time; the same id changes nothing |
| `ExerciseSession.BlockedCharacterization` | src/components/Exercise/ExerciseContainer.tsx:124-131 | input is blocked for auto-submitted kinds exactly when finished, and otherwise exactly when correct or after three attempts |
| `ExerciseSession.Check` | src/components/Exercise/ExerciseContainer.tsx:44-120 | with no truthy answer nothing happens; otherwise the attempt count grows by one, the answer and verdict are recorded, and the scheduled effect is completion iff correct, the rating screen iff wrong on the third attempt (not for flashcards), and a clear for retry otherwise |
| `ExerciseSession.Settle` | src/components/Exercise/ExerciseContainer.tsx:100-120 | a due effect changes nothing but answer, verdict and the rating screen; only the completion reports anything, and it reports the scheduled result; only the reveal raises the rating screen; only the retry clear empties answer and verdict |
| `ExerciseSession.SettleReopensOnlyOnClear` | src/components/Exercise/ExerciseContainer.tsx:100-120 | a blocked exercise stays blocked once any effect other than the retry clear lands |
| `ExerciseSession.ChangeAnswer` | src/components/Exercise/ExerciseContainer.tsx:127-139 | a blocked change is ignored; otherwise the answer is stored, and it is submitted exactly for auto-submitted kinds with a truthy answer |
| `ExerciseSession.RateConfidence` | src/components/Exercise/ExerciseContainer.tsx:141-150 | a rating completes the exercise as incorrect, carrying the rating, the attempt count and the elapsed time |
| `ExerciseSession.SkipWithAnswer` | src/components/Exercise/ExerciseContainer.tsx:152-160 | a skip marks the exercise skipped and incorrect and changes no other field of the session |
| `ExerciseSession.SkipLeavesInputOpen` | src/components/Exercise/ExerciseContainer.tsx:152-164 | after a skip with fewer than three attempts, input is still not blocked |
| `ExerciseSession.FinishedAfterCheck` | src/components/Exercise/ExerciseContainer.tsx:100-125 | a check that does not schedule a retry leaves the exercise blocked with the check button disabled, also after its effect lands |
| `ExerciseSession.RetryReopens` | src/components/Exercise/ExerciseContainer.tsx:114-120 | a wrong first or second attempt is cleared and input reopens |
| `ExerciseSession.Handle` | src/components/Exercise/ExerciseContainer.tsx:192-300 | while the rating screen is up it replaces the exercise: the state stays and only a rating in 0..4 reports; without it a rating does nothing; only a skip reports a skip and it applies the skip handler; the tip toggle flips only the tip flag, and only when the exercise has tips; a Check press when Check is not enabled does nothing |
| `ExerciseSession.SettledCheckQuiet` | src/components/Exercise/ExerciseContainer.tsx:44-120 | a check from a quiet state, once its effect lands, stays within three attempts and reports only a well-formed completion |
| `ExerciseSession.HandleQuiet` | src/components/Exercise/ExerciseContainer.tsx:44-160 | one action keeps a non-flashcard exercise within three attempts, and any completion it reports is well formed |
| `ExerciseSession.RunBounded` | src/components/Exercise/ExerciseContainer.tsx:44-160 | over any sequence of actions, a non-flashcard exercise ends correct after one to three attempts, or incorrect after exactly three with a rating in 0..4 |
| `ExerciseSession.EnterIsQuiet` | src/components/Exercise/ExerciseContainer.tsx:33-42 | entering a new exercise starts in a state the bound above applies to |
| `ExerciseSession.FlashcardRun` | src/components/Exercise/ExerciseContainer.tsx:55-56 | a flashcard never reaches the rating screen and only completes as correct |
| `Progress.Level` | src/stores/useProgressStore.ts:37 | the level is the one whose 100-XP band contains the XP |
| `Progress.LevelMonotone` | src/stores/useProgressStore.ts:37 | more XP never means a lower level |
| `Progress.NextBucket` | src/stores/useProgressStore.ts:39-45 | a recall moves one bucket up and a lapse one bucket down, staying within 0..4 |
| `Progress.OffsetDays` | src/stores/useProgressStore.ts:47-52 | intervals are 0 to 7 days, and zero only for bucket 0 |
| `Progress.OffsetStrictlyIncreasing` | src/stores/useProgressStore.ts:48 | a higher bucket is always reviewed later |
| `Progress.DueDate` | src/stores/useProgressStore.ts:47-52 | an item is due no earlier than now, and due now only in bucket 0 |
| `Progress.RecallsClimb` | src/stores/useProgressStore.ts:39-45 | n recalls in a row reach bucket min(4, b + n) |
| `Progress.LapsesDrop` | src/stores/useProgressStore.ts:39-45 | n lapses in a row reach bucket max(0, b - n) |
| `Progress.ReplayMovesSlowly` | src/stores/useProgressStore.ts:39-45 | n reviews move a bucket by at most n |
| `Progress.AddXp` | src/stores/useProgressStore.ts:68-78 | XP grows by the amount and the level follows the new XP; nothing else changes |
| `Progress.AddXpNeverLowersLevel` | src/stores/useProgressStore.ts:68-78 | a non-negative XP gain never lowers a consistent level |
| `Progress.CompleteLesson` | src/stores/useProgressStore.ts:80-101 | the lesson's completion record is inserted or replaced, other records kept, XP and level updated, last-active set to now; nothing else changes |
| `Progress.CompleteLessonGrowsByAtMostOne` | src/stores/useProgressStore.ts:80-101 | completing a lesson adds at most one record, and none when repeating a lesson |
| `Progress.UpdateStreak` | src/stores/useProgressStore.ts:103-129 | same day keeps the streak, the next day extends it by one, any other gap restarts it at 1; last-active becomes now |
| `Progress.StreakSameDayTwice` | src/stores/useProgressStore.ts:103-129 | two streak updates on the same day count once |
| `Progress.UpdateSrsItem` | src/stores/useProgressStore.ts:131-148 | the item is created in bucket 0 if missing, moved one step, and given the due date of its new bucket; every other item is unchanged |
| `Progress.UnlockBadge` | src/stores/useProgressStore.ts:150-160 | the badge is appended if absent and the state is unchanged if present |
| `Progress.UnlockBadgeIdempotent` | src/stores/useProgressStore.ts:150-160 | unlocking a badge twice equals unlocking it once |
| `Progress.UnlockBadgeKeepsUnique` | src/stores/useProgressStore.ts:150-160 | the badge list never gains a duplicate |
| `Progress.UpdateTheme` | src/stores/useProgressStore.ts:162-170 | only the theme setting changes |
| `Progress.ToggleSound` | src/stores/useProgressStore.ts:172-180 | only the sound setting changes, and it flips |
| `Progress.ToggleHaptics` | src/stores/useProgressStore.ts:182-190 | only the haptics setting changes, and it flips |
| `Progress.TogglesAreInvolutions` | src/stores/useProgressStore.ts:172-190 | toggling twice restores the state |
| `Progress.ResetProgress` | src/stores/useProgressStore.ts:192-194 | reset restores the initial values, including the last-active time read at load |
| `Progress.ImportData` | src/stores/useProgressStore.ts:205-222 | an import succeeds exactly when the file has a truthy version and a defined XP; a failure carries the fixed message; a success merges the file's fields over the current state with the version forced to 1.0.0 |
| `Progress.AfterImport` | src/stores/useProgressStore.ts:205-222 | a rejected import leaves the state as it was |
| `Progress.ExportImportRoundTrip` | src/stores/useProgressStore.ts:196-222 | importing an export restores the exported state, except that the version becomes 1.0.0 |
| `Progress.ImportKeepsStaleLevel` | src/stores/useProgressStore.ts:205-222 | an imported level that disagrees with the imported XP is kept as is |
| `Content.IndexById` | src/stores/useContentStore.ts:67-75 | every loaded id is a key of the lookup, and every key comes from some loaded item |
| `Content.IndexByIdLastWins` | src/stores/useContentStore.ts:67-75 | when ids repeat, the item loaded last wins |
| `Content.Lookup` | src/stores/useContentStore.ts:106-112 | a lookup finds the item exactly when its id is loaded, and returns no item otherwise |
| `Content.LookupFindsLastDeclared` | src/stores/useContentStore.ts:72-75 | looking up a lesson id finds the last lesson declared with it |
| `Content.Insert` | src/stores/useContentStore.ts:127 | inserting into an order-sorted list keeps it sorted and adds exactly that unit |
| `Content.SortByOrder` | src/stores/useContentStore.ts:127 | the units come out sorted by order, as a permutation of the input |
| `Content.UnitUnlocked` | src/stores/useContentStore.ts:130-143 | within a unit, the unlocked lessons are the longest prefix of its loaded lessons whose prerequisites are all completed |
| `Content.UnlockedLessons` | src/stores/useContentStore.ts:122-148 | every unlocked lesson is loaded and has all prerequisites completed |
| `Content.EveryUnitContributes` | src/stores/useContentStore.ts:129-145 | a lesson unlocked within any unit is in the overall result |
| `Content.PrerequisitesMonotone` | src/stores/useContentStore.ts:135-136 | met prerequisites stay met when more lessons are completed |
| `Content.UnitUnlockedMonotone` | src/stores/useContentStore.ts:130-143 | completing more lessons only extends a unit's unlocked prefix |
| `Content.UnlockedLessonsMonotone` | src/stores/useContentStore.ts:122-148 | completing more lessons never locks an unlocked lesson |
| `Content.BlockedLessonHidesRestOfUnit` | src/stores/useContentStore.ts:138-143 | a lesson with unmet prerequisites hides the rest of its unit, even lessons without prerequisites |
| `LessonFlow.SrsCall` | src/pages/LessonPage.tsx:38-50 | the spaced-repetition item is updated exactly for a correct flashcard or a result with a rating, under the id lessonId-exerciseId |
| `LessonFlow.RecallMapping` | src/pages/LessonPage.tsx:38-50 | a correct flashcard counts as recalled; otherwise a rating of 2 or more counts as recalled |
| `LessonFlow.FlashcardNeverDemotes` | src/pages/LessonPage.tsx:39-43 | a completed flashcard never lowers its item's bucket |
| `LessonFlow.Score` | src/pages/LessonPage.tsx:54-55 | the score is 0..100 and within half a point of the exact percentage of correct results |
| `LessonFlow.ScoreExtremes` | src/pages/LessonPage.tsx:54-55 | the score is 100 exactly when misses are at most half a percent of results, so below 200 results only a flawless lesson scores 100; no correct results scores 0 |
| `LessonFlow.XpEarned` | src/pages/LessonPage.tsx:58-61 | the award is 10, 15 or 20 XP: 15 or more from a score of 80, 20 only for 100 |
| `LessonFlow.DisplayAgreesWithAward` | src/pages/LessonPage.tsx:143 | the XP shown on the results screen equals the XP awarded |
| `LessonFlow.FinishLesson` | src/pages/LessonPage.tsx:52-85 | finishing adds twice the award to XP, records the completion with the rounded score, and unlocks perfect_lesson iff the score is 100 and first_lesson iff there was a single, correct result |
| `LessonFlow.CompleteExercise` | src/pages/LessonPage.tsx:34-92 | the result is appended, the spaced-repetition update applied, and then either the lesson finishes on the last exercise or the index advances |
| `LessonFlow.SkipExercise` | src/pages/LessonPage.tsx:94-100 | skipping the last exercise leaves the lesson; otherwise the index advances and no result is recorded |
| `LessonFlow.SkippedExercisesLeaveTheScore` | src/pages/LessonPage.tsx:34-100 | skipping one of two exercises and answering the other scores 100, awards 40 XP and both badges |
| `AnswerBuilding.NullIfEmpty` | src/components/Exercise/OrderWords.tsx:34 | an empty list is handed back as no answer, anything else as that list |
| `AnswerBuilding.RemoveAt` | src/components/Exercise/OrderWords.tsx:33 | removal by index never lengthens the list |
| `AnswerBuilding.RemoveAtDeletesOne` | src/components/Exercise/OrderWords.tsx:33 | an index in range removes exactly that element |
| `AnswerBuilding.RemoveAtOutOfRange` | src/components/Exercise/OrderWords.tsx:33 | an index out of range removes nothing |
| `AnswerBuilding.RemoveAtKeepsDistinct` | src/components/Exercise/OrderWords.tsx:33 | removal keeps a list free of repeats |
| `AnswerBuilding.AppendItem` | src/components/Exercise/OrderWords.tsx:23-28 | an enabled click appends the item after the current list, which it keeps; a disabled one does nothing (the letter click of src/components/Exercise/SelectLetters.tsx is the same handler) |
| `AnswerBuilding.RemoveItem` | src/components/Exercise/OrderWords.tsx:30-35 | an enabled removal drops exactly that position, and an emptied list becomes no answer (the same in SelectLetters.tsx) |
| `AnswerBuilding.ClearItems` | src/components/Exercise/OrderWords.tsx:37-40 | a clear hands back no answer exactly when enabled (the same in SelectLetters.tsx) |
| `SelectLettersView.RepeatsAllowed` | src/components/Exercise/SelectLetters.tsx:29-34 | the same letter can be selected twice, since letter buttons stay enabled once used |
| `SelectLettersView.MatchFrom` | src/components/Exercise/SelectLetters.tsx:25 | the pattern finds nothing exactly when no parenthesis opens a match, and a match holds no ')' and no line break |
| `SelectLettersView.MatchFromLeftmost` | src/components/Exercise/SelectLetters.tsx:25 | a match found is the group of the leftmost position from which one can open |
| `SelectLettersView.EnglishTranslation` | src/components/Exercise/SelectLetters.tsx:24-27 | without a parenthesised gloss the target word is shown; with one, the group of the leftmost parenthesis that the pattern can close |
| `SelectLettersView.GlossExtracted` | src/components/Exercise/SelectLetters.tsx:24-27 | a prompt with a single-line gloss in parentheses shows exactly that gloss |
| `OrderWordsView.ClicksKeepWordsDistinct` | src/components/Exercise/OrderWords.tsx:42-44 | as long as only enabled word buttons are clicked, no word appears twice |
| `TypeAnswerView.NullIfBlank` | src/components/Exercise/TypeAnswer.tsx:32 | an empty input is handed back as no answer |
| `TypeAnswerView.InputChange` | src/components/Exercise/TypeAnswer.tsx:29-33 | an enabled edit hands back the typed text, which is shown back as typed |
| `TypeAnswerView.KeyboardClick` | src/components/Exercise/TypeAnswer.tsx:35-39 | a key appends its letter to the shown input |
| `TypeAnswerView.Backspace` | src/components/Exercise/TypeAnswer.tsx:41-45 | backspace drops the last character, and emptying the input gives no answer |
| `TypeAnswerView.KeyThenBackspace` | src/components/Exercise/TypeAnswer.tsx:35-45 | a key followed by backspace restores the shown input |
| `MatchPairsView.SplitEncode` | src/components/Exercise/MatchPairs.tsx:65-77 | a stored match splits back into its two items when neither contains ':' |
| `MatchPairsView.CreateMatch` | src/components/Exercise/MatchPairs.tsx:65-71 | a new match is appended and both selections are cleared |
| `MatchPairsView.LeftClick` | src/components/Exercise/MatchPairs.tsx:39-50 | a disabled click does nothing; clicking the selected item deselects it; a match is created exactly when another item is clicked while a right item is selected; otherwise the item is selected |
| `MatchPairsView.RightClick` | src/components/Exercise/MatchPairs.tsx:52-63 | the mirror image of the left click |
| `MatchPairsView.ClearMatches` | src/components/Exercise/MatchPairs.tsx:25-29 | clearing empties the matches and both selections |
| `MatchPairsView.LeftClickKeepsWellFormed` | src/components/Exercise/MatchPairs.tsx:39-78 | clicking enabled left items keeps every item in at most one match |
| `MatchPairsView.RightClickKeepsWellFormed` | src/components/Exercise/MatchPairs.tsx:52-78 | clicking enabled right items keeps every item in at most one match |
| `MatchPairsView.ColonItemNeverMatched` | src/components/Exercise/MatchPairs.tsx:73-78 | for any list of matches and either side, an item containing ':' never shows as matched |
| `MatchPairsView.MatchMarkIsExact` | src/components/Exercise/MatchPairs.tsx:31-37 | `isMatchCorrect` (`IsMatchCorrect`): a match is marked correct exactly when it is an entry of a list key, and never against a single-string key |
| `MatchPairsView.RecasedMatchNotMarked` | src/components/Exercise/MatchPairs.tsx:31-37 | the mark is case-sensitive: a re-cased pair is accepted by the answer check yet not marked correct |
| `FlashcardView.CardClick` | src/components/Exercise/Flashcard.tsx:23-27 | a click reveals the back, and a revealed card stays as it is |
| `FlashcardView.RevealIsLatched` | src/components/Exercise/Flashcard.tsx:21-27 | after any number of clicks the back is shown exactly when it already was or there was a click |
| `FlashcardView.Label` | src/components/Exercise/Flashcard.tsx:78-118 | each rating button passes one of the ratings the evaluator accepts |
| `FlashcardView.LabelsAreTheConfidences` | src/components/Exercise/Flashcard.tsx:78-118 | the three buttons cover exactly the accepted ratings |
| `FlashcardView.ConfidenceClick` | src/components/Exercise/Flashcard.tsx:29-32 | a rating is handed back exactly when the card is enabled |
| `FlashcardView.EmittedRatingIsCorrect` | src/components/Exercise/Flashcard.tsx:29-32 | every rating a flashcard hands back is evaluated as correct |
| `FlashcardView.RatingReachable` | src/components/Exercise/Flashcard.tsx:71 | one click on an enabled card shows the rating buttons |
| `Home.CompletedCount` | src/pages/HomePage.tsx:17-19 | the count is at most the unit's size, equals it exactly when every lesson is completed, and is positive exactly when one is |
| `Home.UnitProgress` | src/pages/HomePage.tsx:13-22 | progress is 0..100; it is 100 exactly for a known, non-empty unit with all lessons completed, and positive exactly when some lesson is completed |
| `Home.FirstIncompleteLesson` | src/pages/HomePage.tsx:24-29 | the link target is a non-empty, uncompleted lesson id of the unit, preceded only by completed lessons; there is none exactly when the unit is unknown, fully completed, or its first open id is empty |
| `Home.StatusOf` | src/pages/HomePage.tsx:74-75 | the status is Completed exactly at 100 and Not started exactly at 0 |
| `Home.Cards` | src/pages/HomePage.tsx:11 | one card per unit, in ascending `order`: the cards follow an order-sorted permutation of the units, and each shows its unit's progress, status and action |
| `Home.ActionOf` | src/pages/HomePage.tsx:112-127 | a card links to the next lesson when there is one, labelled by whether the unit has started; otherwise it shows the completion mark exactly at 100 |
| `Home.CompleteMarkIffAllDone` | src/pages/HomePage.tsx:115-127 | a non-empty unit shows the completion mark exactly when all its lessons are completed |
| `Home.EmptyIdHidesAction` | src/pages/HomePage.tsx:28 | an unfinished unit whose next lesson id is empty shows neither link nor mark |
| `Home.LinkIgnoresPrerequisites` | src/pages/HomePage.tsx:24-29 | the link can target a lesson the unlocked-lessons query does not return |
| `Practice.DueItems` | src/pages/PracticePage.tsx:8-11 | the queue holds exactly the items due at or before now, unchanged |
| `Practice.Render` | src/pages/PracticePage.tsx:13-89 | the due count is the number of due items and the completed count the number of completed lessons; the review card shows exactly when some item is due, and the extra practice cards exactly when some lesson is completed |
| `Practice.DueStaysDue` | src/pages/PracticePage.tsx:8-11 | an item in the queue stays in it as time passes |
| `Practice.JustReviewedIsDueIffBucketZero` | src/pages/PracticePage.tsx:8-11 | right after a review, the item is queued exactly when it sits in bucket 0 |
| `Practice.RecalledLeavesQueue` | src/pages/PracticePage.tsx:8-11 | a recalled item stays out of the queue for at least a day |

## Left out

- Rendering, styling, icons and navigation are left out. Only the state and the values a render depends on are modelled.
- Multiple-choice, true/false, the rating screen and the progress ring components are left out. The multiple-choice and true/false widgets only pass an option string back. The rating screen's five buttons are modelled as a rating constrained to 0..4.
- Timers are collapsed: each delayed effect lands before the next action. Races between a pending timer and a later action are not modelled: a second rating click within the page's advance delay, or a skip that lands after a new exercise starts.
- Persistence and rehydration of the progress store are left out. So are fetching and parsing the content files (`loadContent`), the vocabulary and letter stores, and the letters, profile and app-shell pages.
- JSON text is left out: an import is modelled on an already-parsed file, a field the file lacks is absent, and invalid JSON is a separate error.
- An imported `xp: null` is treated as a defined XP, as in the source; its later arithmetic is not modelled. The `exportedAt` key that an import merges into the store is not carried.
- Imported spaced-repetition buckets outside 0..4 cannot be expressed, because buckets are the type 0..4.
- Dates are integers of milliseconds. Time zones, daylight saving and ISO-string comparison are left out; ISO strings of the same format compare like their instants.
- `Object.values` ordering is taken as given: the list that `Content.UnlockedLessons` and `Home.Cards` sort is whatever order the runtime yields.
- `Text.Lower`: lower-cases ASCII and basic Cyrillic (U+0400..U+042F) only, not the rest of Unicode. Strings are sequences of characters, not UTF-16 code units.
- `LessonFlow.Score`: computed exactly, without floating-point error in `100 * c / n`.
- `Home.UnitProgress`: computed as an exact real, without floating-point rounding.
- `Content.SortByOrder`: stability of the sort is not stated.
- `Content.UnlockedLessons`: states soundness (every returned lesson is unlocked); completeness is stated per unit by `Content.UnitUnlocked` and `Content.EveryUnitContributes`.
