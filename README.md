# Fretnote trainer: a verified model of the quiz core

The fretnote trainer is a small web page for learning the guitar fretboard. A
position (a string and a fret) is shown, and the player answers with the natural
note it sounds. A filter panel chooses which notes take part in the quiz. This
project models the core of the page in Dafny:

- `fretboard.dfy` (module `Fretboard`): the table of every position, on strings
  1 to 6 in standard tuning and frets 0 to 12, that sounds a natural note. The
  table is built when the module loads, by a double loop. The model includes
  JavaScript's own `findIndex`, `%` and out-of-range array reads.
- `trainer.dfy` (module `Trainer`): the table filtered by the selected notes,
  `getRandomInt` with the random factor left nondeterministic, and the quiz
  state as a class. Its operations are a change of the note selection, an answer,
  and the firing of the one-second feedback timer.
- `note_filter.dfy` (module `NoteFilter`): the filter panel. This covers the
  toggle rule with its floor of two notes, the saved copy in the browser's
  key-value store, the restore when the panel mounts, and the log of selections
  reported to the trainer through `onSelect`.
- `notes.dfy`, `sequences.dfy`, `wrappers.dfy`: the seven natural note names
  (both components declare the same list), generic facts about subsequences and
  duplicates, and `Option`.

The key-value store is a `map` from key to the parsed list. Writing with
`JSON.stringify` and reading back with `JSON.parse` is taken as the identity
on lists of strings. The timer is the field `Quiz.pendingPool`, which holds the
filtered table that the timer's callback captured. `Math.random` is a
nondeterministic choice.

Where the code and the documented design differ, the model follows the code:

- A timer that is still pending when the selection changes draws from the table
  filtered by the old selection. The position shown then need not match the
  selection in force. `Trainer.StaleTimerDraw` builds that run.
- `handleNotesChange` clears the feedback but keeps the lock. Between a filter
  change and a pending timer firing, input is locked and no feedback is shown.
- The rule that a click never leaves fewer than two notes holds only for a
  selection without repeats. Restore adopts any saved list of two or more
  entries unchanged. `NoteFilter.ToggleFloorNeedsDistinct` shows that a saved
  list of the form `[a, a, b]`, such as `["Do","Do","Re"]`, drops to one note on one
  click.

## Model

| member | source | states |
|---|---|---|
| Fretboard.FindIndex | src/components/fretnote-trainer/FretnoteTrainer.tsx:35 | The first index holding the value, or -1 exactly when the value is absent. |
| Fretboard.JsRem | src/components/fretnote-trainer/FretnoteTrainer.tsx:36 | The remainder lies strictly between -n and n, is non-negative for a non-negative dividend and non-positive for a negative one, and equals the mathematical remainder when the dividend is non-negative (the only case the builder reaches). |
| Fretboard.ElementAt | src/components/fretnote-trainer/FretnoteTrainer.tsx:37 | An array read gives a value exactly for indices in range, and that value is the element; outside the range it is undefined. |
| Fretboard.OpenIndexIsFirst | src/components/fretnote-trainer/FretnoteTrainer.tsx:20-35 | The chromatic index used for each string holds that string's open note, and no earlier index does. |
| Fretboard.OpenIndexFound | src/components/fretnote-trainer/FretnoteTrainer.tsx:35 | Any result with the contract of findIndex for a string's open note is that string's chromatic index. |
| Fretboard.LookUpOpenIndex | src/components/fretnote-trainer/FretnoteTrainer.tsx:20-35 | Looking up the open note and then searching the chromatic alphabet yields the string's chromatic index. |
| Fretboard.NoteFrom | src/components/fretnote-trainer/FretnoteTrainer.tsx:36-37 | For a non-negative open index plus fret, the note is the alphabet entry at their sum mod 12. |
| Fretboard.NoteAt | src/components/fretnote-trainer/FretnoteTrainer.tsx:20-37 | For a fret from 0 up, the note at a string is the alphabet entry (open index + fret) mod 12, and at frets 0, 12, ... it is the string's open note. |
| Fretboard.NaturalIsSharpFree | src/components/fretnote-trainer/FretnoteTrainer.tsx:21-38 | The membership test of the loop, applied to an alphabet entry, holds exactly for the names without a sharp. |
| Fretboard.ComputeNote | src/components/fretnote-trainer/FretnoteTrainer.tsx:36-37 | For a non-negative index sum the note is the alphabet entry at the sum mod 12. For a negative sum, JavaScript's remainder is negative except at multiples of 12, so the note is defined exactly at those. |
| Fretboard.VisitFret | src/components/fretnote-trainer/FretnoteTrainer.tsx:19-40 | One pass of the inner loop body appends the position when its computed note is natural, and nothing otherwise. |
| Fretboard.AppendStringPositions | src/components/fretnote-trainer/FretnoteTrainer.tsx:18-41 | The inner loop appends, for frets 0 to 12 of one string, exactly the positions that sound a natural note, in fret order. |
| Fretboard.BuildNaturalPositions | src/components/fretnote-trainer/FretnoteTrainer.tsx:11-42 | The double loop produces exactly the specified table. |
| Fretboard.RowMembers | src/components/fretnote-trainer/FretnoteTrainer.tsx:18-41 | `RowUpTo` (what the inner loop appends for the first k frets) holds a position exactly when it lies on that string, its fret is below k, and it sounds the natural note it names. |
| Fretboard.TableMembers | src/components/fretnote-trainer/FretnoteTrainer.tsx:17-42 | `TableUpTo(n)` (what the outer loop has built after strings 1 to n) holds exactly the admissible positions on those strings. |
| Fretboard.NaturalPositionsMembers | src/components/fretnote-trainer/FretnoteTrainer.tsx:11-42 | `NaturalPositions`, the finished table, holds a position iff its string is 1–6, its fret is 0–12, and the note it names is the natural note sounded there. |
| Fretboard.NaturalPositionsExactly | src/components/fretnote-trainer/FretnoteTrainer.tsx:11-42 | The same iff, with the note given by the string-and-fret formula and required to be one of the seven natural notes. |
| Fretboard.RowOrdered | src/components/fretnote-trainer/FretnoteTrainer.tsx:18 | A row is in increasing fret order. |
| Fretboard.TableOrdered | src/components/fretnote-trainer/FretnoteTrainer.tsx:17-18 | The partial table is ordered by string and then by fret. |
| Fretboard.NaturalPositionsOrdered | src/components/fretnote-trainer/FretnoteTrainer.tsx:17-42 | The whole table is sorted by string, then by fret. |
| Fretboard.SixthStringThirdFretIsSol | src/components/fretnote-trainer/FretnoteTrainer.tsx:7 | String 6 (low Mi) at fret 3 sounds Sol and is in the table. |
| Fretboard.EveryNaturalOccurs | src/components/fretnote-trainer/FretnoteTrainer.tsx:17-42 | Every natural note sounds at some position of the table. |
| Trainer.FilterByNotes | src/components/fretnote-trainer/FretnoteTrainer.tsx:52-54 | The filtered table holds exactly the positions whose note is selected, and it is no longer than the table. |
| Trainer.FilterIsSubsequence | src/components/fretnote-trainer/FretnoteTrainer.tsx:52-54 | Filtering keeps the surviving positions in their original order. |
| Trainer.SubsequenceOrdered | src/components/fretnote-trainer/FretnoteTrainer.tsx:52-54 | An order-preserving selection of the sorted table is still sorted. |
| Trainer.FilteredTable | src/components/fretnote-trainer/FretnoteTrainer.tsx:52-54 | The positions in play are an order-preserving, sorted selection of the table, all with selected notes. |
| Trainer.FilterNonEmpty | src/components/fretnote-trainer/FretnoteTrainer.tsx:52-54 | A selection holding a natural note leaves at least one position in play. |
| Trainer.RandomInt | src/components/fretnote-trainer/FretnoteTrainer.tsx:44-46 | For a non-empty range the result is within both bounds. For the empty range of an empty pool the result is the lower bound. |
| Trainer.DrawPosition | src/components/fretnote-trainer/FretnoteTrainer.tsx:63-66 | A draw from a non-empty pool gives one of its positions; a draw from an empty pool gives nothing. |
| Trainer.Quiz.FilteredPositions | src/components/fretnote-trainer/FretnoteTrainer.tsx:52-54 | The positions in play in the current render are exactly the table entries whose note is selected. |
| Trainer.Quiz.constructor | src/components/fretnote-trainer/FretnoteTrainer.tsx:49-69 | Initially Sol and La are selected, nothing is shown, there is no feedback, and input is unlocked. |
| Trainer.Quiz.HandleNotesChange | src/components/fretnote-trainer/FretnoteTrainer.tsx:71-80 | The new selection is adopted and feedback cleared. The position shown is drawn from the table filtered by the new selection, or is nothing if that is empty. The lock and any pending timer are kept, and the controller invariant holds. |
| Trainer.Quiz.HandleSelect | src/components/fretnote-trainer/FretnoteTrainer.tsx:82-93 | While locked or with nothing shown, nothing changes. Otherwise the feedback records whether the answer equals the note shown, input is locked, and a timer is scheduled over the current filtered table; the shown position and selection stay. |
| Trainer.Quiz.TimerFires | src/components/fretnote-trainer/FretnoteTrainer.tsx:88-92 | The timer draws from the table it captured, clears the feedback and unlocks input, and the selection stays. |
| Trainer.StaleTimerDraw | src/components/fretnote-trainer/FretnoteTrainer.tsx:71-93 | Answer, then switch to a disjoint selection before the timer fires: the position then shown has a note of the old selection, absent from the new one. |
| NoteFilter.Without | src/components/fretnote-trainer/NoteFilter.tsx:39 | Filtering out a note keeps exactly the other values and strictly shortens the list whenever the note was present. |
| NoteFilter.WithoutCounts | src/components/fretnote-trainer/NoteFilter.tsx:39 | Filtering out a note removes every copy of it and keeps every other entry with its number of copies. |
| NoteFilter.WithoutIsSubsequence | src/components/fretnote-trainer/NoteFilter.tsx:39 | The entries that survive the filter keep their original order. |
| NoteFilter.WithoutAbsent | src/components/fretnote-trainer/NoteFilter.tsx:39 | Filtering out a note that is absent changes nothing. |
| NoteFilter.WithoutAt | src/components/fretnote-trainer/NoteFilter.tsx:39 | In a list without repeats, filtering out a note removes exactly its index. |
| NoteFilter.Toggle | src/components/fretnote-trainer/NoteFilter.tsx:36-41 | After a click, every other note is selected exactly as before. The clicked note is selected afterwards iff it was not selected, or at most two were selected. |
| NoteFilter.IsFloorNoOp | src/components/fretnote-trainer/NoteFilter.tsx:36-42 | The click that re-renders nothing is exactly the click whose toggle leaves the selection equal to what it was. |
| NoteFilter.ToggleRemoves | src/components/fretnote-trainer/NoteFilter.tsx:36-39 | Clicking a selected note while more than two are selected removes exactly that note and keeps the order of the rest. |
| NoteFilter.ToggleFilters | src/components/fretnote-trainer/NoteFilter.tsx:36-39 | For any selection of more than two, repeats included, clicking a selected note gives an order-preserving sublist that lacks every copy of that note and keeps every other entry with its repeats. |
| NoteFilter.ToggleAtFloor | src/components/fretnote-trainer/NoteFilter.tsx:36-40 | Clicking a selected note while at most two are selected leaves the selection as it is. |
| NoteFilter.ToggleAppends | src/components/fretnote-trainer/NoteFilter.tsx:36-41 | Clicking an unselected note appends it at the end. |
| NoteFilter.ToggleKeepsFloor | src/components/fretnote-trainer/NoteFilter.tsx:35-42 | A selection of at least two distinct notes still has at least two after any click. |
| NoteFilter.ToggleFloorNeedsDistinct | src/components/fretnote-trainer/NoteFilter.tsx:38-39 | For any two different notes a and b, clicking a on the list [a, a, b] leaves the single note b. |
| NoteFilter.ToggleKeepsWellFormed | src/components/fretnote-trainer/NoteFilter.tsx:35-42 | A click keeps a selection of distinct natural notes distinct and natural. |
| NoteFilter.Restored | src/components/fretnote-trainer/NoteFilter.tsx:13-16 | The restored selection is the current one, the default, or the saved list. With a saved entry it always has at least two notes, and starting from two or more it keeps at least two. |
| NoteFilter.RestoreCases | src/components/fretnote-trainer/NoteFilter.tsx:12-18 | With no saved entry the selection stays. A saved list of two or more is adopted, and a shorter one gives Sol and La. A selection of at least two stays at least two. |
| NoteFilter.SavedSelectionRestores | src/components/fretnote-trainer/NoteFilter.tsx:12-18 | What a click on a selection of two or more distinct notes writes, the next restore reads back. |
| NoteFilter.Filter.Mount | src/components/fretnote-trainer/NoteFilter.tsx:10-22 | Mounting reports the default selection, then restores from the store and reports the restored selection if there was a saved entry. |
| NoteFilter.Filter.Click | src/components/fretnote-trainer/NoteFilter.tsx:35-47 | A click sets the toggled selection and writes it under the store key. It reports the new selection unless the click was the no-op at the floor. Afterwards the last report is the current selection, and a restore would give it back. |

## Left out

- Rendering (`Guitar.tsx`, the buttons, CSS, the feedback text) is not modelled: it derives the display and holds no rules.
- `NoteSelector.tsx` is not part of this model. Its buttons call `handleSelect`, and `Quiz.HandleSelect` covers the lock they honour.
- Trainer.RandomInt: only the range of `Math.random` is modelled, not its uniform distribution. The empty range (`max = min - 1`) is modelled as giving `min` instead of being excluded.
- Trainer.Quiz.TimerFires: the 1000 ms delay is not modelled, only the firing as a later step. At most one pending timer is modelled. A timer that fires after the component unmounts is left out.
- The trainer and the filter are two separate objects. The wiring `onSelect = handleNotesChange` is not composed into one program: each entry of `Filter.reported` stands for one `Quiz.HandleNotesChange` call.
- NoteFilter.Filter.Mount: `JSON.parse` failures, values that are not lists, and an empty stored string are not modelled; the store holds parsed lists of strings.
- Preact's scheduling (effects, batching, re-render) is reduced to its visible result. A state update with the same array re-renders nothing and so reports nothing.
- Fretboard.BuildNaturalPositions: the loops are split into methods. The inner loop is `AppendStringPositions`, and its body is `VisitFret`, which calls `LookUpOpenIndex` and `ComputeNote`. `TableUpTo` reads the open-string index from the table `OpenIndices`, and `OpenIndexFound` proves it equal to what `findIndex` returns.
- Fretboard.JsRem: for a negative dividend the contract gives only the bounds and the sign, not the exact value. The builder only divides non-negative numbers, where the exact value is stated.
