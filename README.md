# D&D character quiz engine — a Dafny model

The application asks the player a batch of questions; every answer names a
group of attributes, and every attribute that belongs to a race, a class or a
background adds one point to that outcome's tally. After the last question of
the batch, a tie for first place in any of the three tallies pulls in one more
question that has not been asked yet, for as long as unused questions remain.
The result screen then shows, per category, the outcome with the highest
tally and its localized name.

This project models that engine:

- `records.dfy` (`Records`): the JavaScript string-keyed number record used
  for each tally, as an ordered list of entries with distinct keys. Insertion
  order is kept because the winner's tie-break depends on enumeration order.
  `Get` is the `record[k] || 0` read, `Put` the `record[k] = v` write and
  `FromEntries` is `Object.fromEntries`.
- `catalog.dfy` (`Catalog`): the catalog of races, classes, backgrounds and
  questions (the shapes in `src/types/index.ts`) and the array `find` lookups.
- `scoring.dfy` (`Scoring`): the zeroed initial tallies, the vote of one
  answer, and the tie test.
- `selection.dfy` (`Selection`): the Fisher–Yates shuffle, in place on an
  array, and the choice of the first 25 question ids.
- `store.dfy` (`Store`): the quiz state and the store class with
  `StartQuiz`, `SubmitAnswer` and `ResetQuiz`. The state after an answer is
  described by the predicate `Transition`, which has three cases:
  - advance to the next question;
  - extend the quiz by one unused question;
  - finish.
  The lemmas about `Transition` prove that the state stays consistent and
  that every answer brings the quiz closer to its end.
- `result_screen.dfy` (`ResultScreen`): the winner of a tally (the `reduce`
  that keeps the later entry on equal values) and the localized-name
  fallback chain.
- `scenarios.dfy` (`Scenarios`): a one-question quiz driven through the
  store. It ends finished with one vote for the chosen race.

Randomness enters as parameters:
- The shuffle takes the sequence of swap partners `picks`, where `picks[i] <= i`
  is the partner drawn at step `i`.
- The extra question is any unused question, chosen nondeterministically.

Where the code differs from what one might expect, the model follows the code:
- There is no check that at least 25 questions were answered before the tie
  test; the test runs after the last question of whatever batch was selected.
- Finishing does not advance `currentIndex`.
- Nothing in the store refuses an answer after the quiz has finished. The
  model makes that a precondition; see "Left out".
- An answer index outside the question's answers is not a no-op. The code
  reads `undefined` and throws, so the model makes the index a precondition.

## Model

| member | source | states |
|---|---|---|
| Records.Get | src/store/dndStore.ts:103 | a key that is absent reads as 0 |
| Records.GetAt | src/store/dndStore.ts:103 | in a record with distinct keys, reading an entry's key gives that entry's value |
| Records.Put | src/store/dndStore.ts:103 | assigning a key adds exactly that key to the key set, and a record with distinct keys keeps them distinct |
| Records.PutShape | src/store/dndStore.ts:103 | assigning an existing key keeps the length and every other entry in place; a new key is appended at the end |
| Records.GetAfterPut | src/store/dndStore.ts:103 | after assigning `k := v`, reading `k` gives `v` and every other key reads as before |
| Records.FromEntries | src/store/dndStore.ts:19-21 | building a record from pairs gives distinct keys, and those keys are exactly the keys of the pairs |
| Records.FromEntriesGet | src/store/dndStore.ts:19-21 | reading a key of the built record gives the value of the last pair with that key, and 0 when no pair has it |
| Records.FromEntriesDistinct | src/store/dndStore.ts:19-21 | pairs with distinct keys become a record with the same entries in the same order |
| Records.FromEntriesValues | src/store/dndStore.ts:19-21 | if every pair carries the same value, every entry of the record does too |
| Records.Values | src/store/dndStore.ts:126 | `Object.values` lists every entry's value, in entry order |
| Records.TotalIncrement | src/store/dndStore.ts:103 | adding one to a key's count raises the sum of all counts by exactly one |
| Catalog.FindFirst | src/store/dndStore.ts:101 | returns the first index whose element satisfies the test, or None when no element does |
| Catalog.FindOwner | src/store/dndStore.ts:101-109 | finds the first outcome of a family whose attribute list contains the attribute, or None when no outcome has it |
| Catalog.FindOutcome | src/components/dnd/DndResultScreen.tsx:27-29 | finds the first outcome with a given id; None exactly when the id is not in the family |
| Catalog.FindQuestion | src/store/dndStore.ts:88-90 | finds the first question with a given id; None exactly when no question has that id |
| Scoring.InitialTally | src/store/dndStore.ts:19-21 | every outcome id of the family has a tally, there are no other keys, and every tally is 0; with distinct ids, entries follow catalog order |
| Scoring.InitialScores | src/store/dndStore.ts:18-22 | all three tallies fit their families, and every key reads 0 |
| Scoring.VoteFor | src/store/dndStore.ts:101-112 | one attribute's vote in one family: with no owner the tally is unchanged; otherwise the owner's id is a key afterwards, no other key appears, and distinct keys stay distinct |
| Scoring.Tally | src/store/dndStore.ts:99-113 | voting every attribute of the group, in order, keeps a tally's keys distinct |
| Scoring.Scored | src/store/dndStore.ts:93-113 | the three tallies after one answer still fit their families when the old ones did |
| Scoring.TallyCounts | src/store/dndStore.ts:99-113 | after an answer, each outcome's count equals its old count plus the number of the answer's attributes it was the first owner of |
| Scoring.TallyGrows | src/store/dndStore.ts:99-113 | an answer keeps the key set and never lowers a count |
| Scoring.VoteTotal | src/store/dndStore.ts:101-104 | one attribute raises a family's total by one when some outcome owns it, and by zero otherwise |
| Scoring.TallyTotal | src/store/dndStore.ts:99-113 | an answer raises a family's total by the number of owned attributes, so by at most the size of the attribute group |
| Scoring.ScoredGrows | src/store/dndStore.ts:93-113 | scoring an answer keeps all three tallies fitted to the catalog and never lowers a count |
| Scoring.AwardVotes | src/store/dndStore.ts:92-113 | the loop over the answer's attributes produces the scored tallies of the answer |
| Scoring.MaxOf | src/store/dndStore.ts:127 | the maximum is one of the values and no value exceeds it |
| Scoring.CountOf | src/store/dndStore.ts:128 | the number of values equal to `v` is at most the number of values |
| Scoring.CountOfPositive | src/store/dndStore.ts:128 | a value counts at least once exactly when it occurs |
| Scoring.CountOfTwo | src/store/dndStore.ts:128 | a value counts more than once exactly when it occurs at two different positions |
| Scoring.HasTie | src/store/dndStore.ts:125-129 | a record with at most one entry has no tie |
| Scoring.AnyTie | src/store/dndStore.ts:131 | a tie needs some family with at least two outcomes |
| Scoring.HasTieIff | src/store/dndStore.ts:125-129 | a tally has a tie exactly when two different entries both hold the maximum value |
| Selection.Swap | src/store/dndStore.ts:68 | exchanges positions `i` and `j` and leaves every other position alone |
| Selection.SwapPermutes | src/store/dndStore.ts:68 | a swap keeps the multiset of elements |
| Selection.ShuffleDown | src/store/dndStore.ts:66-69 | the swap steps from position `i` down to 1 keep the list's length |
| Selection.Shuffled | src/store/dndStore.ts:65-69 | the whole shuffle keeps the list's length |
| Selection.ShuffleDownPermutes | src/store/dndStore.ts:66-69 | the remaining swap steps, from any step on, keep the multiset of elements |
| Selection.ShuffledPermutes | src/store/dndStore.ts:65-69 | the shuffle is a permutation of the question list |
| Selection.ShuffledKeepsDistinctIds | src/store/dndStore.ts:65-69 | shuffling questions with distinct ids keeps the ids distinct |
| Selection.ShuffleInPlace | src/store/dndStore.ts:65-69 | the downward loop of swaps on the array leaves the shuffle of the old contents in the array |
| Selection.SelectIds | src/store/dndStore.ts:71 | keeps the ids of the first 25 questions, or of all of them when there are fewer |
| Selection.InitialSelection | src/store/dndStore.ts:64-71 | the selected ids number `min(25, n)`, all come from the catalog, and are distinct when the catalog ids are |
| Store.Unused | src/store/dndStore.ts:133-134 | the unused questions are never more than the whole question list |
| Store.UnusedMembers | src/store/dndStore.ts:133-134 | a question is unused exactly when it is in the list and its id has not been asked |
| Store.UnusedShrinks | src/store/dndStore.ts:133-136 | asking an unused question strictly reduces the number of unused questions |
| Store.ExtendConsistent | src/store/dndStore.ts:137-145 | appending an unused question's id to a consistent state gives a consistent state |
| Store.Transition | src/store/dndStore.ts:121-164 | after any answer the state holds the new tallies, and the question ids are kept as a prefix and grow by at most one |
| Store.TransitionKeepsDistinct | src/store/dndStore.ts:133-145 | no answer repeats a question id: the appended id is never already in the list, whatever the catalog holds |
| Store.TransitionConsistent | src/store/dndStore.ts:121-164 | each of the three outcomes of an answer (advance, extend, finish) keeps the state consistent with the catalog |
| Store.TransitionAtLast | src/store/dndStore.ts:123-156 | at the last question, the quiz either grows by exactly one question and stays open, or finishes with the same questions and position; it finishes exactly when no tally is tied or no unused question is left |
| Store.TransitionProgress | src/store/dndStore.ts:121-164 | every answer strictly lowers a non-negative measure (unused questions plus questions still to answer), so the quiz cannot go on for ever |
| Store.NextState | src/store/dndStore.ts:121-164 | produces an advanced, extended or finished state as the transition allows, picking any unused question for an extension |
| Store.DndStore.constructor | src/store/dndStore.ts:24-29 | a new store has the given catalog and no game |
| Store.DndStore.CurrentQuestion | src/store/dndStore.ts:85-90 | returns the first catalog question whose id is at the current position; None when there is no game or catalog, when the position is out of range, or exactly when no question has that id |
| Store.DndStore.ValidHasQuestion | src/store/dndStore.ts:88-90 | in a consistent game the current question is always found |
| Store.DndStore.StartQuiz | src/store/dndStore.ts:60-82 | with no catalog or an empty question list nothing changes; otherwise the new game holds the first 25 ids of the shuffled questions, position 0, zeroed tallies, not finished and no extra questions |
| Store.DndStore.SubmitAnswer | src/store/dndStore.ts:84-166 | with no game or no current question nothing changes; otherwise the answer's votes are added to the tallies, which never decrease, and the state moves by the transition, which lowers the progress measure and keeps the game consistent |
| Store.DndStore.ResetQuiz | src/store/dndStore.ts:168-170 | the game is cleared |
| ResultScreen.Pick | src/components/dnd/DndResultScreen.tsx:20 | the reducer keeps one of its two entries, the one with the larger value, and on equal values the later one |
| ResultScreen.Reduce | src/components/dnd/DndResultScreen.tsx:20 | the entry kept holds the maximum value, and no later entry has as much |
| ResultScreen.GetWinner | src/components/dnd/DndResultScreen.tsx:19-21 | the winner is a key of the tally, and its count is the maximum |
| ResultScreen.WinnerIsLastMaximum | src/components/dnd/DndResultScreen.tsx:19-21 | an entry is the winner exactly when it holds the maximum and every later entry is strictly lower, so ties go to the entry enumerated last |
| ResultScreen.DisplayName | src/components/dnd/DndResultScreen.tsx:27-29 | shows the outcome's name in the requested language, else its English name, else the raw id; an unknown id shows as itself, and a non-empty id never shows as empty |
| ResultScreen.ResultNames | src/components/dnd/DndResultScreen.tsx:23-29 | each category shows the localized name of its own winner; a winner id missing from the catalog shows as itself, and a non-empty winner id never shows as empty |
| Scenarios.SingleAnswerVotes | src/store/dndStore.ts:99-113 | answering with attribute A gives race A one point and race B none |

## Left out

- Loading the catalog (`loadData`, network fetches, loading and error flags) is I/O. The catalog is passed to the store's constructor instead.
- The debug `console.log` output of the sorted non-zero tallies has no effect on state.
- The state-container plumbing (subscriptions, re-rendering) is not modelled; `set` becomes an assignment of the whole game state.
- `Math.random` is not modelled. The shuffle's partners are a parameter, and the extra question is any unused question.
- Selection.ShuffleInPlace: does not state that every permutation is equally likely, because the model has no probabilities.
- Store.NextState: any unused question may be chosen, not a uniformly random one, because the model has no probabilities.
- Store.DndStore.SubmitAnswer: requires the game not to be finished. In the code, an answer to a finished game adds its votes to the tallies again. If some family is then tied and an unused question is left, an id is appended and `currentIndex` moves past the old end while `isFinished` stays true. Otherwise the game is marked finished again.
- Store.DndStore.SubmitAnswer: requires the answer index to be within the question's answer groups, because the code throws on any other index.
- ResultScreen.GetWinner: requires a non-empty tally, because `reduce` without a seed throws on an empty one.
- Object enumeration order is taken to be insertion order. JavaScript lists integer-like keys first, in numeric order, and the model does not reproduce that.
- Counts are unbounded integers; JavaScript's floating-point numbers are exact at the sizes a quiz reaches.
- The `name` and `attributes` translation objects are unordered maps, since only lookups are made on them.
- Out of scope: the progress bar, question and answer translation lookup, the adventure quiz, routing, and the rest of the user interface.
