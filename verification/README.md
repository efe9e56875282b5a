# Calorie tracker state layer, modelled in Dafny

This project models the state layer of a browser calorie-tracking widget. It has two parts.

- **The persistence adapter** (`Storage`). It keeps four records under four keys of a string-keyed store:
  - the calorie limit, which defaults to 1950 when absent;
  - the running total, which defaults to 0 when absent;
  - the meal list;
  - the workout list.

  Each list update reads the whole list, appends to it or splices it, and writes it back. `clearAll` deletes the total and both lists but keeps the limit.
- **The tracker** (`CalorieTracker`). It holds the limit, the total, the meals and the workouts in memory. Adding or removing a meal or workout, resetting, and setting the limit each change these fields and write the change through to the adapter.

Files:

- `items.dfy` (module `Items`) covers the entries and their list operations:
  - the `Entry` datatype for meals and workouts;
  - `findIndex` (`FindIndex`);
  - the `reduce` sums (`SumCalories`);
  - removal by `findIndex` + `splice` (`RemoveFirst`);
  - `ForEachSplice`, the exact outcome of the adapter's `forEach` + `splice` loop;
  - `NoNegativeCalories`, the condition under which sums stay non-negative;
  - the lemmas that relate these.
- `persistence.dfy` (module `Persistence`) holds the adapter. It is a class whose `store` field is a `map<Key, Value>` of typed values, in place of the browser's store.
  - The getters are functions over that field.
  - The writers are methods that modify it.
  - `SpliceMatching` is the removal loop, proved to compute `ForEachSplice`.
- `tracker.dfy` (module `Tracker`) holds the tracker class.
  - The adapter is passed to it as a constant field, instead of being global state.
  - Each public method states its new in-memory state and its new store.
  - Each also states that it keeps two invariants. `Balanced`: total = sum of meal calories − sum of workout calories. `Mirrored`: the store reads back exactly the in-memory fields.
- `sessions.dfy` (module `Sessions`) holds three client sessions, checked by verification through the contracts alone.
  - A 300-calorie meal against the default limit leaves 1650 remaining.
  - A following 400-calorie workout gives a total of −100 and 2050 remaining.
  - A meal added and then removed leaves the total and the stored meals as they were.
  - With a limit of 2000, a 2500-calorie meal gives −500 remaining and sets the over-limit flag.
  - A reset then keeps the limit.

The adapter's removal (`removeMeal`/`removeWorkout`) is modelled exactly as written. The loop visits indices 0 up to the original length and splices out each visited entry with the id. After a splice, the entry that moves into the freed index is never visited. So an entry with the id survives exactly when it directly follows a removed one: `[a, b, a']` loses both `a` and `a'`, while `[a, a']` keeps `a'`. The tracker's own removal, by contrast, takes out only the first match (`findIndex`). Ids are meant to be unique, and then the two agree:

- `Items.ForEachSpliceUnique` proves that the two removals agree whenever ids are unique.
- `Items.DuplicateIdsDiverge` exhibits a list with a duplicate id where they differ, and `Items.DuplicateIdsSurvive` one where the adapter leaves an entry with the id behind.
- The tracker's removals state that the store mirrors memory afterwards when the ids were unique beforehand.
- `Consistent` bundles balance, mirroring and unique ids. `AddMeal` and `AddWorkout` keep it when the new id is fresh. Every other operation keeps it unconditionally.

`removeWorkout` writes the total through `setTotalCalories`, while the other paths use `updateTotalCalories`. Both are modelled, and their contracts are identical.

## Model

| member | source | states |
|---|---|---|
| `Items.FindIndex` | src/Tracker.js:40 | the result is -1 exactly when no entry has the id, and otherwise the index of the first entry that has it |
| `Items.RemoveFirst` | src/Tracker.js:40-45 | removal by `findIndex` + `splice`: a list without the id comes back unchanged; otherwise it is exactly one entry shorter |
| `Items.RemoveFirstMultiset` | src/Tracker.js:40-45 | on a hit, the entries removed are exactly one: the first entry with the id; the multiset of the rest is unchanged |
| `Items.SumCalories` | src/Tracker.js:96-99 | the `reduce` sum (a left fold), the same at 105-108 for workouts; it has no contract of its own, and the sum lemmas below state its behaviour |
| `Items.SumAppend` | src/Tracker.js:21-24 | appending an entry adds its calories to the reduced sum, as `addMeal`'s push and `+=` keep in step |
| `Items.SumNonNegative` | src/Tracker.js:96-99 | when no entry has negative calories, the reduced sum is not negative |
| `Items.SumRemoveAt` | src/Tracker.js:42-45 | splicing out the entry at index k subtracts exactly its calories from the reduced sum |
| `Items.SumRemoveFirst` | src/Tracker.js:39-49 | removing the first entry with an id subtracts that entry's calories from the sum; a miss leaves the sum unchanged |
| `Items.RemoveFirstKeepsUnique` | src/Tracker.js:45 | `findIndex` + `splice` removal keeps ids unique |
| `Items.RemoveFirstExact` | src/Tracker.js:39-49 | with unique ids, removal leaves no entry with the id and keeps every other entry; the list shrinks by one exactly when the id occurred |
| `Items.ForEachSplice` | src/Storage.js:68-73 | what the `forEach` + `splice` sweep leaves; its contract: the result is never longer than the list it was given |
| `Items.ForEachSpliceSubMultiset` | src/Storage.js:66-76 | the adapter's removal only takes entries away: the result is a sub-multiset of the stored list |
| `Items.ForEachSpliceMiss` | src/Storage.js:66-76 | when no entry has the id, the adapter's removal leaves the list as it was |
| `Items.ForEachSpliceUnique` | src/Storage.js:66-87 | with unique ids, the adapter's removal equals removal of the first match: exactly that entry goes, and the others keep their order |
| `Items.DuplicateIdsDiverge` | src/Storage.js:68-73 | some list with a repeated id loses both entries with it under the adapter's loop, but only the first under `findIndex` + `splice` |
| `Items.DuplicateIdsSurvive` | src/Storage.js:68-73 | some list keeps an entry with the id after the adapter's loop: the one right after a removed entry |
| `Persistence.SpliceMatching` | src/Storage.js:68-73 | the `forEach` loop that splices while iterating computes `ForEachSplice` of the list it was given |
| `Persistence.Storage.GetCalorieLimit` | src/Storage.js:2-10 | returns the default argument (1950 unless given) when the key is absent, and otherwise the stored number |
| `Persistence.Storage.SetCalorieLimit` | src/Storage.js:12-14 | overwrites only the limit key; the limit then reads back as the value set, and the total and both lists read back unchanged |
| `Persistence.Storage.GetTotalCalories` | src/Storage.js:16-24 | returns the default argument (0 unless given) when the key is absent, and otherwise the stored number |
| `Persistence.Storage.SetTotalCalories` | src/Storage.js:26-28 | overwrites only the total key; the total then reads back as the value set |
| `Persistence.Storage.UpdateTotalCalories` | src/Storage.js:30-32 | the same effect as `SetTotalCalories`: overwrites only the total key |
| `Persistence.Storage.GetMeals` | src/Storage.js:34-42 | returns the empty list when the key is absent, and otherwise the stored list |
| `Persistence.Storage.SaveMeal` | src/Storage.js:44-48 | the stored meal list becomes the old list with the meal appended; the other keys are unchanged |
| `Persistence.Storage.GetWorkouts` | src/Storage.js:50-58 | returns the empty list when the key is absent, and otherwise the stored list |
| `Persistence.Storage.SaveWorkout` | src/Storage.js:60-64 | the stored workout list becomes the old list with the workout appended; the other keys are unchanged |
| `Persistence.Storage.RemoveMeal` | src/Storage.js:66-76 | the meal key is written with the swept list, even on a miss. The list never grows, is unchanged on a miss, and with unique ids loses exactly the matching meal. Other keys are unchanged |
| `Persistence.Storage.RemoveWorkout` | src/Storage.js:78-87 | the same as `RemoveMeal`, for the workout list |
| `Persistence.Storage.ClearAll` | src/Storage.js:89-93 | deletes exactly the total, meal and workout keys. The getters then give 0 and empty lists, and the limit is unchanged |
| `Tracker.CalorieTracker.Consumed` | src/Tracker.js:94-101 | the calories consumed, summed over the meals; not negative while no meal has negative calories |
| `Tracker.CalorieTracker.Burned` | src/Tracker.js:103-110 | the calories burned, summed over the workouts; not negative while no workout has negative calories |
| `Tracker.CalorieTracker.Remaining` | src/Tracker.js:112-115 | in a balanced state, the remaining calories are the limit less the meals' calories plus the workouts' |
| `Tracker.CalorieTracker.IsOverLimit` | src/Tracker.js:114-124 | in a balanced state, the over-limit highlight is raised exactly when meals less workouts reach the limit |
| `Tracker.CalorieTracker.constructor` | src/Tracker.js:4-8 | each field is loaded from its getter with its default, so memory starts equal to the store |
| `Tracker.CalorieTracker.AddMeal` | src/Tracker.js:21-28 | appends the meal and adds its calories. The store gets the new total and the old stored list plus the meal. Balance and mirroring are kept, and `Consistent` too when the id is fresh. A meal with no negative calories never clears the over-limit flag |
| `Tracker.CalorieTracker.AddWorkout` | src/Tracker.js:30-37 | appends the workout and subtracts its calories. The store gets the new total and the old stored list plus the workout. Balance and mirroring are kept, and `Consistent` too when the id is fresh. A workout with no negative calories never raises the over-limit flag |
| `Tracker.CalorieTracker.RemoveMeal` | src/Tracker.js:39-49 | a miss changes nothing, in memory or in the store. A hit removes the first matching meal, subtracts its calories, and writes the total and the swept list. Balance is kept; mirroring is kept when ids were unique. With no negative meal calories it never raises the over-limit flag |
| `Tracker.CalorieTracker.RemoveWorkout` | src/Tracker.js:51-61 | a miss changes nothing. A hit removes the first matching workout, adds its calories back, and writes the total (through `SetTotalCalories`) and the swept list. Balance is kept; mirroring is kept when ids were unique. With no negative workout calories it never clears the over-limit flag |
| `Tracker.CalorieTracker.Reset` | src/Tracker.js:63-69 | total 0 and both lists empty, in memory and in the store; the limit survives; the result is always balanced, and over the limit only when the limit is not positive |
| `Tracker.CalorieTracker.SetLimit` | src/Tracker.js:71-76 | changes only the limit, in memory and in the store; balance and mirroring are kept |

## Left out

- The display code is not modelled: the `_display*` methods, `_render`, the HTML templates and the `limit` input element set in the constructor. It only presents values and changes no state.
- `loadItems` (src/Tracker.js:78-81) is not modelled. It only replays display calls.
- The progress percentage (src/Tracker.js:132-141) is not modelled. It is floating-point division, and it divides by zero when the limit is 0. Its bar width also uses the uncapped value.
- `JSON.parse`, `JSON.stringify` and the unary `+` coercion are not modelled. The store holds typed values, so what is written reads back unchanged. A corrupt stored collection, which makes the source throw a parse error, cannot arise. The store keeps numbers under the two scalar keys and lists under the two collection keys (`Persistence.Storage.Valid`), and every operation requires and keeps that.
- `console.log` in `removeMeal` is not modelled. Neither is the browser store itself: it is replaced by the `store` map field, and keys other than the four are not represented.
- JavaScript number semantics are not modelled. Calories, the total and the limit are unbounded integers, so floating-point rounding of very large sums is not captured.
- How meal and workout ids are generated is not part of this model. Ids are opaque strings, and their uniqueness is never established by the model, only assumed where a result needs it: the tracker's mirroring after a removal, `Consistent`, the last clause of the adapter's `RemoveMeal` and `RemoveWorkout`, and the lemmas `ForEachSpliceUnique`, `RemoveFirstExact` and `RemoveFirstKeepsUnique`.
