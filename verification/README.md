# gymtrack workout hierarchy in Dafny

The gymtrack app tracks gym workouts, grouped by body-part segment: "Спина" (back), "Грудь" (chest) and "Ноги" (legs). This project models its core: the three-level hierarchy Workout → Exercise → ExerciseSet and the synchronous mutations the main screen applies to it. The model proves the properties those mutations are meant to keep.

- `Models` (`models.dfy`): the three `@Model` entities as immutable datatypes, their initialisers with the source's default values, and the ids of a subtree. Ownership is nesting: a workout holds its exercises and an exercise holds its sets. The back-references `ExerciseSet.exercise` and `Exercise.workout` are dropped, because nothing in the modelled code reads them. The code assigns them only in `addSet` and `addNewExercise`. The first set that `Exercise.init` builds never gets one.
- `GymView` (`gym_view.dfy`): the private methods of `GymView` as pure functions: `addSet`, `removeSet`, `toggleExerciseExpanded`, `addNewExercise`, `deleteExercise`, `toggleWorkoutExpanded`, `addNewWorkout` and `deleteWorkout`. It also holds `workoutsForSegment` and the three predicates that enable the destructive buttons: delete workout, delete exercise and the minus (remove set) button.
- `Session` (`session.dfy`): the event routing of `GymView.body`. Each button closure captures a workout and sometimes an exercise. Here the captured objects are named by their ids, and every event is an `Action`. The lemmas prove that any run of events keeps the store well formed, provided each new id is fresh. Well formed means: no id occurs twice, and every exercise holds at least one set, numbered 1..n.
- `Decimal` (`decimal.dfy`): Swift's `"\(n)"` for a non-negative `Int`, used in the default names "Тренировка N" and "Упражнение N". Reading a rendered number back gives the number.
- `Seqs` (`seqs.dfy`): `Option`, Swift's `firstIndex(where:)`, and flattening a tree level into the multiset of its ids.

Each UUID the app generates becomes a caller-supplied `Uuid`. Freshness is a precondition: the new id is not yet in the store and differs from the other ids handed to the same event.

The model follows the code where the screen suggests more than the code does:

- The disabled delete entries suggest that the deletes refuse themselves, but the delete operations have no guard of their own. The "cannot delete the last item" rule exists only as predicates that disable the buttons (`GymView.CanDeleteWorkout`, `GymView.CanDeleteExercise`, `GymView.CanRemoveSet`). Only `removeSet` refuses in its body, when one set or none remains.
- `addNewWorkout(toSegment:)` numbers the new workout by the workout count of the *selected* segment, not of the target segment. `GymView.AddNewWorkoutNumbersBySelectedSegment` shows a case where the two differ.
- `deleteExercise` deletes the exercise's sets explicitly. `deleteWorkout` only deletes the workout object, and the code declares no cascade rule. In the model the workout's subtree leaves the tree with it.

## Model

| member | source | states |
|---|---|---|
| Models.NewExerciseSet | gymtrack/Item.swift:19-24 | a new set carries the given id, which is its only id, and on its own it is correctly numbered exactly when its number is 1 |
| Models.ExerciseSetDefaults | gymtrack/Item.swift:19-24 | a set built with every default is set number 1, "10" repetitions, weight "75 кг" |
| Models.NewExercise | gymtrack/Item.swift:35-40 | a new exercise keeps the given name and expanded flag and has exactly one set; that set is number 1 with the default values, so numbering is contiguous from creation; its subtree ids are exactly the exercise id and the set id |
| Models.NewWorkout | gymtrack/Item.swift:51-57 | a new workout has the given id, title, segment and flag and no exercises; its only id is its own |
| Models.InitialiserDefaults | gymtrack/Item.swift:35-57 | the default exercise is an expanded "Упражнение"; the default workout is an expanded "Тренировка" in segment "Спина" |
| Models.NewExerciseIdsUnique | gymtrack/Item.swift:19-40 | the new exercise and its first set have unique ids exactly when the two generated ids differ |
| Seqs.FirstIndex | gymtrack/GymView.swift:116 | returns the index of the first element matching the predicate (no earlier element matches), or None exactly when no element matches |
| Decimal.FromNat | gymtrack/GymView.swift:92 | a rendered count is a non-empty digit string, has no leading zero for a positive count, and is one digit exactly for counts below 10 |
| Decimal.ToNatFromNat | gymtrack/GymView.swift:92 | reading a rendered count back gives the count |
| GymView.NumberedName | gymtrack/GymView.swift:92 | a default name is the prefix followed by a non-empty run of decimal digits, with no leading zero for a positive count |
| GymView.NumberedNameRecoverable | gymtrack/GymView.swift:92 | the digits after the prefix of a default name read back as the count |
| GymView.NumberedNameInjective | gymtrack/GymView.swift:109 | two default names with the same prefix are equal exactly when their counts are equal |
| GymView.WorkoutsForSegment | gymtrack/GymView.swift:19-21 | a workout is listed exactly when it is stored and its segment is `segments[selectedSegment]` |
| GymView.OfSegment | gymtrack/GymView.swift:20 | the filter keeps exactly the workouts of the given segment and is never longer than its input |
| GymView.OfSegmentAppend | gymtrack/GymView.swift:19-21 | filtering by segment distributes over concatenation, so the list keeps the stored order |
| GymView.AddNewWorkout | gymtrack/GymView.swift:90-96 | one workout is appended and the stored ones are unchanged; it is titled "Тренировка N" with N = the selected segment's count + 1, has segment `segments[segment]`, no exercises, and is expanded |
| GymView.AddNewWorkoutListed | gymtrack/GymView.swift:19-21 | after adding, in the model's insertion order, the displayed list is the old one followed by the new workout when the target segment is the selected one, and the old one unchanged otherwise |
| GymView.AddNewWorkoutNumbersBySelectedSegment | gymtrack/GymView.swift:90-93 | with one "Спина" workout selected, the first "Грудь" workout is titled "Тренировка 2" |
| GymView.DeleteWorkout | gymtrack/GymView.swift:98-100 | a workout remains exactly when it was stored and does not have the deleted id; the selected segment is unchanged |
| GymView.WithoutWorkout | gymtrack/GymView.swift:98-100 | keeps exactly the workouts with another id; if no workout has the id, the list is unchanged |
| GymView.DeleteOneOfSegment | gymtrack/GymView.swift:98-100 | if ids are distinct, deleting a workout of a segment lowers that segment's count by exactly one |
| GymView.DeleteDisplayedWorkout | gymtrack/GymView.swift:61-63 | if ids are distinct, deleting a displayed workout lowers the displayed count by exactly one |
| GymView.CanDeleteWorkout | gymtrack/GymView.swift:64 | if ids are distinct, for every displayed workout, deleting it leaves a workout in the selected segment exactly when the delete entry is enabled |
| GymView.ToggleWorkoutExpanded | gymtrack/GymView.swift:102-104 | flips `isExpanded` and changes nothing else |
| GymView.ToggleWorkoutTwice | gymtrack/GymView.swift:102-104 | toggling twice restores the workout |
| GymView.AddNewExercise | gymtrack/GymView.swift:107-113 | appends one expanded exercise named "Упражнение N" with N = old count + 1; it has the new id and exactly one numbered set; earlier exercises and the workout's other fields are unchanged |
| GymView.AddNewExerciseIds | gymtrack/GymView.swift:107-113 | the workout's ids grow by exactly the new exercise id and its set id |
| GymView.DeleteExercise | gymtrack/GymView.swift:115-123 | with no id match nothing changes; otherwise exactly the first matching exercise is removed, the others stay in order, and the count drops by one |
| GymView.DeleteExerciseIds | gymtrack/GymView.swift:115-123 | deleting removes exactly the ids of that exercise and of all its sets |
| GymView.DeleteExerciseUndoesAdd | gymtrack/GymView.swift:107-123 | deleting a just-added exercise by its fresh id restores the workout |
| GymView.CanDeleteExercise | gymtrack/GymView.swift:68-70 | for every listed exercise, deleting it leaves at least one exercise exactly when the delete entry is enabled |
| GymView.AddSet | gymtrack/GymView.swift:125-134 | appends exactly one set, number old count + 1, "10" repetitions, weight "75 кг"; earlier sets and other fields are unchanged |
| GymView.AddSetNumbering | gymtrack/GymView.swift:125-134 | after adding a set, sets are numbered 1..n+1 exactly when they were numbered 1..n before |
| GymView.AddSetIds | gymtrack/GymView.swift:125-134 | the exercise's ids grow by exactly the new set's id |
| GymView.Renumber | gymtrack/GymView.swift:143-145 | the result is numbered 1..n, keeps every set's other fields, and leaves an already-numbered list unchanged |
| GymView.RemoveSet | gymtrack/GymView.swift:136-146 | with one set or none the exercise is unchanged, with no renumbering; otherwise the last set goes, the count drops by one, the rest are numbered 1..n-1 and keep id, repetitions and weight |
| GymView.RemoveSetIds | gymtrack/GymView.swift:136-146 | removing a set adds no id |
| GymView.RemoveSetUndoesAddSet | gymtrack/GymView.swift:125-146 | on a numbered exercise with at least one set, removing a set undoes adding one |
| GymView.CanRemoveSet | gymtrack/GymView.swift:266 | the minus button is enabled exactly when pressing it changes the exercise |
| GymView.AddThreeSetsRemoveOne | gymtrack/GymView.swift:125-146 | three sets added to a new exercise give sets 1..4; one removal leaves sets 1..3 |
| GymView.TwoNewExercisesCannotLoseTheirSet | gymtrack/GymView.swift:107-146 | two exercises added to a new workout each hold one set, and their minus buttons are disabled no-ops |
| GymView.ToggleExerciseExpanded | gymtrack/GymView.swift:148-150 | flips `isExpanded` and changes nothing else |
| GymView.ToggleExerciseTwice | gymtrack/GymView.swift:148-150 | toggling twice restores the exercise |
| Session.Step | gymtrack/GymView.swift:25-76 | only the picker changes the selected segment, and it changes nothing else; an event aimed at one workout keeps every workout's id and segment, the list's length and order, and every workout with another id |
| Session.OnWorkoutIn | gymtrack/GymView.swift:43-70 | an event routed to a workout id keeps the selection, the length of the list, every workout's id and segment, and every workout with another id |
| Session.OnWorkout | gymtrack/GymView.swift:46-67 | no event renames a workout, moves it to another segment or changes its id; the picker and the workout add and delete events leave it unchanged |
| Session.OnExerciseIn | gymtrack/GymView.swift:52-60 | an event routed to an exercise id keeps the workout's other fields, the number of exercises, every exercise's id, and every exercise with another id |
| Session.OnExercise | gymtrack/GymView.swift:52-60 | no event renames an exercise or changes its id; events other than add set, remove set and toggle leave it unchanged |
| Session.StepWellFormed | gymtrack/GymView.swift:43-76 | every event routed from the screen keeps ids unique and every exercise non-empty and numbered 1..n, provided its new ids are fresh |
| Session.RunWellFormed | gymtrack/GymView.swift:43-76 | the same holds after any sequence of events, each with fresh ids |
| Session.EmptyStoreWellFormed | gymtrack/GymView.swift:14-16 | the empty store is well formed; the store is persistent, so this is the state only at the first launch |
| Session.DeleteExerciseLeavesNoOrphans | gymtrack/GymView.swift:115-123 | after deleting an exercise, neither its id nor any of its sets' ids is left anywhere in the store |
| Session.DeleteWorkoutGuarded | gymtrack/GymView.swift:61-64 | in a well-formed store, the delete entry of a displayed workout is enabled exactly when the selected segment keeps a workout after the delete |

## Left out

- The SwiftUI views (`WorkoutSection`, `ExcCard`, `RepeatRow`, `EmptyCard`, `EmptyWorkout`, `SegmentedControl` and the layout of `GymView.body`) are presentation only. The model keeps only the guard predicates they compute and the routing of their button closures.
- `gymtrackApp.swift` and `ContentView.swift` (container construction, `fatalError`) are persistence setup with no logic.
- `@Query(sort: \Workout.title)`: the title ordering depends on locale collation in SwiftData. The model keeps workouts in insertion order, and `WorkoutsForSegment` filters in that order. Counts, and so the default numbers and the guards, do not depend on the order.
- SwiftData's `insert`/`delete` and delete rules: a deleted workout's subtree leaves the tree. Whether the persistence layer keeps unreachable exercise or set records is not modelled.
- UUID generation: ids are parameters, and their freshness is a precondition (`Session.Fresh`).
- The text-field bindings that rename a workout or exercise, or edit a set's repetitions or weight, are plain field assignments.
- Swift `Int` overflow of `count + 1` is not modelled; an array cannot hold that many elements.
- `Session` finds a captured workout or exercise by the first matching id; the delete-workout event instead removes every workout carrying the id (`GymView.WithoutWorkout`: deleting `w.id` from `[w, w]` leaves `[]`). Swift uses the object itself. The two agree whenever ids are unique, which `Session.WellFormed` guarantees.
- The numbering invariant `setNumber == index + 1` assumes that SwiftData keeps the order of `Exercise.repeats` across saves and reloads. Persistence is outside the modelled code, so the model takes this as an assumption.
- Observer notification and view refresh.
