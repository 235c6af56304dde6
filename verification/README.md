# Workout tracker core, modelled in Dafny

This project models three pieces of a mobile fitness-tracking app. Users log workouts made of exercises, sets, reps and weights.

- **The workout session store** (`store/workout-store.ts`). It holds the in-progress workout: an ordered list of chosen exercises, each with its sets, and a global weight-unit preference (`lbs` or `kg`). Four actions change it:
  - `addExerciseToWorkout`
  - `setWorkoutExercises`, which takes either a new list or an updater function of the current list
  - `setWeightUnit`
  - `resetWorkout`

  A persistence projection (`partialize`) keeps only the weight unit across restarts. In `store.dfy` (module `WorkoutStore`) the store is a class `Store` with those two fields and one method per action. Each method's postcondition ties the new state to a pure transition function on `StoreState`. The lemmas are stated about those functions and about runs of actions.
- **`formatDuration`** (`lib/utils.ts`). It renders a count of seconds in one of six shapes. In `duration.dfy` (module `Duration`) it is a function over naturals, reproduced branch for branch, with lemmas for the decomposition and for each shape. A corrected variant is proved injective by reading its output back (see Findings).
- **The `workout` document type** (`sanity/schemaTypes/workout.ts`). In `schema.dfy` (module `WorkoutSchema`) the field validation rules become a `Valid` predicate. The three `preview.prepare` builders (set, exercise entry, workout) become string functions. Each one is paired with a reader that recovers the counts and numbers it printed.

`text.dfy` (module `Text`) provides decimal rendering of integers (what a template literal prints for a whole number below 10^21), reading a number back, and ASCII upper-casing.

Two points about the code that the model keeps:
- `formatDuration(90)` is `"1m 30s"`: leftover seconds are shown alongside minutes.
- Edits to individual sets are not store actions. Screen code builds them as updater functions passed to `setWorkoutExercises`. Removing an exercise passes a new list instead. Both forms are covered: updaters by `WithUpdater`, lists by `WithList`.

## Model

| member | source | states |
|---|---|---|
| `WorkoutStore.InitialState` | store/workout-store.ts:35-36 | the initial state has no exercises and the unit `lbs` |
| `WorkoutStore.Store.constructor` | store/workout-store.ts:35-36 | a new store starts with an empty exercise list and `weightUnit == Lbs` |
| `WorkoutStore.AddExercise` | store/workout-store.ts:37-46 | the list grows by exactly one; the old list is its prefix; the new last entry has the given id, name and catalogue id and no sets; the unit is unchanged |
| `WorkoutStore.Store.AddExerciseToWorkout` | store/workout-store.ts:37-47 | the field becomes the old list plus the new entry, the unit field is untouched, and the state equals `AddExercise` of the old state |
| `WorkoutStore.SetExercises` | store/workout-store.ts:48-53 | a list argument becomes the list; an updater argument yields the updater applied to the current list; the unit is unchanged either way |
| `WorkoutStore.Store.SetWorkoutExercises` | store/workout-store.ts:48-53 | the field becomes the resolved list computed from the list held at the call; the unit field is untouched |
| `WorkoutStore.UpdatersCompose` | store/workout-store.ts:48-53 | two updater calls `f` then `g` leave `g(f(old list))`, the same as one updater `xs => g(f(xs))` |
| `WorkoutStore.Store.UpdateTwice` | store/workout-store.ts:48-53 | two back-to-back updater calls on the object leave `g(f(old list))`: no update is lost |
| `WorkoutStore.SetUnit` | store/workout-store.ts:54-56 | the unit becomes the argument; the exercise list is unchanged |
| `WorkoutStore.Store.SetWeightUnit` | store/workout-store.ts:54-56 | the unit field becomes the argument and the list field keeps its old value |
| `WorkoutStore.SetUnitProperties` | store/workout-store.ts:54-56 | setting the unit leaves every existing set's unit as it was; setting it twice equals setting it once; the last setting wins |
| `WorkoutStore.Reset` | store/workout-store.ts:57-59 | the list becomes empty and the unit is kept |
| `WorkoutStore.Store.ResetWorkout` | store/workout-store.ts:57-59 | the list field becomes empty and the unit field keeps its old value |
| `WorkoutStore.ResetIdempotent` | store/workout-store.ts:57-59 | resetting twice equals resetting once |
| `WorkoutStore.Partialize` | store/workout-store.ts:64 | the persisted part carries the store's unit |
| `WorkoutStore.Rehydrate` | store/workout-store.ts:32-36 | a restart yields the initial empty list with the persisted unit |
| `WorkoutStore.Store.Rehydrated` | store/workout-store.ts:62-64 | a store rebuilt from storage has no exercises and the persisted unit |
| `WorkoutStore.PersistRoundTrip` | store/workout-store.ts:62-64 | persist-then-restart equals a reset (unit kept, exercises dropped); restart-then-persist returns what was stored; the exercise list never affects what is persisted |
| `WorkoutStore.RunWeightUnit` | store/workout-store.ts:37-59 | after any sequence of actions the unit is the one named by the last `setWeightUnit`, or the starting unit when there is none |
| `WorkoutStore.ReloadAfterRun` | store/workout-store.ts:62-64 | a restart after any session restores the last chosen unit (`lbs` if none was chosen) and an empty exercise list |
| `Duration.DecomposeDuration` | lib/utils.ts:10-12 | `hours*3600 + minutes*60 + rem == seconds`, with `minutes < 60` and `rem < 60` |
| `Duration.DecompositionUnique` | lib/utils.ts:10-12 | any split of a duration into hours, minutes below 60 and seconds below 60 is the one the formatter computes |
| `Duration.FormatDuration` | lib/utils.ts:7-29 | the formatter as written: for each of the six branch conditions, stated on the split of the duration, the result is that branch's rendering, with the hours labelled `s` when seconds are left over and bare numbers for whole hours and whole minutes |
| `Duration.FormatUnderMinute` | lib/utils.ts:8 | below 60 the result is `"<seconds> s"` |
| `Duration.FormatHoursMinutesSeconds` | lib/utils.ts:15-16 | with hours and leftover seconds the result is `"<h>s <m>m <r>s"`, hours labelled `s` as written |
| `Duration.FormatHoursMinutes` | lib/utils.ts:17-18 | with hours, minutes and no leftover seconds the result is `"<h>h <m>m"` |
| `Duration.FormatWholeHours` | lib/utils.ts:19-20 | whole hours render as the bare number `"<h>"` |
| `Duration.FormatMinutesSeconds` | lib/utils.ts:23-24 | under an hour with leftover seconds the result is `"<m>m <r>s"` |
| `Duration.FormatWholeMinutes` | lib/utils.ts:25-26 | whole minutes under an hour render as the bare number `"<m>"` |
| `Duration.FormatDurationShapes` | lib/utils.ts:8-28 | one of the six branch conditions holds for every duration, and no two hold together, so each duration takes exactly one shape |
| `Duration.FormatDurationExamples` | lib/utils.ts:7-29 | 45 gives `"45 s"`, 90 gives `"1m 30s"`, 3661 gives `"1s 1m 1s"` |
| `Duration.FormatDurationAmbiguous` | lib/utils.ts:14-28 | 60 and 3600 both render as `"1"` |
| `Duration.ParseFormatDurationLabelled` | lib/utils.ts:7-29 | with every shape labelled, reading the rendering back yields the original number of seconds |
| `Duration.FormatDurationLabelledInjective` | lib/utils.ts:7-29 | with every shape labelled, distinct durations render differently |
| `Text.DigitsValueOfNatToString` | lib/utils.ts:8 | the decimal rendering of a number reads back as that number |
| `Text.ReadIntOfIntToString` | sanity/schemaTypes/workout.ts:101 | a rendered integer, negative ones included, reads back from the front of a string followed by a non-digit |
| `Text.ToUpper` | sanity/schemaTypes/workout.ts:99 | upper-casing keeps the length; it maps each lower-case ASCII letter to its capital and keeps every other character, so no lower-case ASCII letter remains |
| `Text.ToUpperIdempotent` | sanity/schemaTypes/workout.ts:99 | upper-casing twice equals upper-casing once |
| `WorkoutSchema.ValidSet` | sanity/schemaTypes/workout.ts:62-90 | the rules on a set (reps and weight required and at least 0, unit required); a valid set has the unit `lbs` or `kg` |
| `WorkoutSchema.ValidExercise` | sanity/schemaTypes/workout.ts:42-107 | the rules on an exercise entry (reference required, at least one set, every set valid); a valid entry counts at least one set |
| `WorkoutSchema.Valid` | sanity/schemaTypes/workout.ts:9-107 | the rules on a workout (user id and date required, duration required and at least 0, every entry valid); a valid workout has a non-empty user id, which the preview prints as it is |
| `WorkoutSchema.NewSet` | sanity/schemaTypes/workout.ts:76-90 | a new set starts with unit `lbs`, which passes the unit rule; it is invalid until reps and weight are entered, and valid for any non-negative reps and weight |
| `WorkoutSchema.DisplayUnit` | sanity/schemaTypes/workout.ts:99 | the shown unit is the upper-cased unit, or `LBS` when the unit is missing or empty; it is never empty |
| `WorkoutSchema.DisplayUnitOfListedUnits` | sanity/schemaTypes/workout.ts:81-99 | the two listed units display as `LBS` and `KG` |
| `WorkoutSchema.SetPreview` | sanity/schemaTypes/workout.ts:98-102 | the set title `"<reps> reps × <weight> <UNIT>"` reads back as reps and weight (`-` for a missing one) and the displayed unit |
| `WorkoutSchema.CountNoun` | sanity/schemaTypes/workout.ts:120 | the noun is singular for exactly 1 and has an `s` added otherwise |
| `WorkoutSchema.CountLabelReadsBack` | sanity/schemaTypes/workout.ts:120 | the count at the front of `"<n> set(s)"` reads back as n, followed by the correctly pluralised noun |
| `WorkoutSchema.ExercisePreview` | sanity/schemaTypes/workout.ts:116-123 | the title is the exercise name when it is present and non-empty, and `Unnamed Exercise` otherwise, so it is never empty; the subtitle reads back as the set count (0 when sets are missing) followed by the pluralised noun |
| `WorkoutSchema.WorkoutPreview` | sanity/schemaTypes/workout.ts:136-143 | the title reads `Workout (No date)` without a date, otherwise the rendered date in parentheses; the subtitle reads back as the exercise count, then the pluralised noun, then `" • User: <userId>"` |
| `WorkoutSchema.ValidWorkoutPreview` | sanity/schemaTypes/workout.ts:130-143 | for a valid workout the title takes the date branch, `Workout (<rendered date>)`, never the `No date` fallback; and the subtitle ends with the workout's own user id |
| `WorkoutSchema.ValidSetPreview` | sanity/schemaTypes/workout.ts:62-102 | a set that passes its rules previews with both numbers present (no `-`), and they read back; its unit shows as `LBS` or `KG` |
| `WorkoutSchema.ValidWorkoutSetPreview` | sanity/schemaTypes/workout.ts:9-107 | every set of every entry of a valid workout previews with both numbers present, and they read back; its unit shows as `LBS` or `KG` |
| `WorkoutSchema.ValidExercisePreviewCount` | sanity/schemaTypes/workout.ts:107-120 | a valid exercise entry previews with a set count of at least 1 |

## Left out

- `formatDate` in lib/utils.ts depends on the clock, the local time zone and locale formatting. It is not modelled. For the same reason, the locale rendering of a present date in the workout preview is a function parameter.
- AsyncStorage, JSON serialisation and zustand's subscription and notification machinery are library I/O. Only `partialize` and the merge of the persisted part over the initial state (`Rehydrate`) are modelled.
- The random ids of new exercises (`Math.random()`) are a parameter of `AddExercise`. The source does not check that they are unique, and neither does the model.
- `WorkoutStore.AddExercise`: id uniqueness across entries is not stated, because the source does not ensure it.
- `Duration.FormatDuration`: durations are whole, non-negative seconds. Fractional and negative JavaScript numbers are not modelled.
- Numbers in the document schema and in the store (reps, weight, duration) are unbounded integers. Several JavaScript number behaviours are not modelled:
  - fractional weights and how fractions are rendered;
  - the loss of precision above 2^53 in the arithmetic of lib/utils.ts:10-12;
  - the exponent form used when whole numbers from 10^21 up are rendered (`1e+21`).
- `WorkoutStore.WorkoutSet`: `reps` and `weight` have the store's declared number type (store/workout-store.ts:7-8). Screen code that is not part of this model actually stores the text typed by the user there, starting from `''`, and converts it only when saving. The store passes these values through without reading them, so no store property depends on their type.
- `Text.ToUpper`: only ASCII letters are upper-cased. `toUpperCase` on other scripts is not modelled.
- `Rule.required()` is modelled as "present" for numbers, references and arrays, and as "present and non-empty" for strings. The radio list of weight units is treated as a constraint on the value. These are readings of the document store's library semantics, which are not part of this model.
- The exercise preview's thumbnail (`media`, the catalogue image) is not modelled: it carries no logic.
- The exercise catalogue document (`sanity/schemaTypes/exercise.ts`), the network client, the app layout and the studio configuration carry no logic to model.
- Set-level edits (add, update, toggle and remove a set), exercise removal and the save/aggregation flow live in screen code that is not part of this model. Set edits reach the store as updater functions (`WithUpdater`). Exercise removal passes a new list (`WithList`). The save flow is not modelled beyond `ResetWorkout`.

## Findings

| source | as written | input that shows it | evidently intended | confidence | as-written member | corrected member |
|---|---|---|---|---|---|---|
| lib/utils.ts:14-28 | the hours-plus-seconds shape labels hours `s` (line 16); the whole-hour and whole-minute shapes print a bare number (lines 20, 26) | 60 and 3600 both render `"1"`; 3661 renders `"1s 1m 1s"` | hours labelled `h`, and a unit on every shape, so that distinct durations render differently | not executed | `Duration.FormatDurationAmbiguous` | `Duration.FormatDurationLabelledInjective` |
