/** The three persistent entities of the app (gymtrack/Item.swift): a Workout
    owns an ordered list of Exercises, an Exercise owns an ordered list of
    ExerciseSets. Ownership is the nesting of the values. The back-references
    `ExerciseSet.exercise` and `Exercise.workout` are dropped: nothing in the
    modelled code reads them. */
module Models {
  import opened Seqs

  /** Stands for Foundation's `UUID`; fresh values are supplied by the caller. */
  newtype Uuid = x: int | 0 <= x

  const DefaultRepetitions: string := "10"
  const DefaultWeight: string := "75 кг"
  const DefaultExerciseName: string := "Упражнение"
  const DefaultWorkoutTitle: string := "Тренировка"
  const DefaultSegment: string := "Спина"

  datatype ExerciseSet = ExerciseSet(id: Uuid, setNumber: int, repetitions: string, weight: string)

  datatype Exercise = Exercise(id: Uuid, name: string, isExpanded: bool, repeats: seq<ExerciseSet>)

  datatype Workout = Workout(id: Uuid, title: string, isExpanded: bool, exercises: seq<Exercise>, segment: string)

  /** Sets are numbered contiguously from 1 in list order. */
  predicate Numbered(sets: seq<ExerciseSet>) {
    forall i :: 0 <= i < |sets| ==> sets[i].setNumber == i + 1
  }

  /* ---- ids of a subtree, in pre-order ---- */

  function SetIds(s: ExerciseSet): seq<Uuid> {
    [s.id]
  }

  function ExerciseIds(e: Exercise): seq<Uuid> {
    [e.id] + Flatten(e.repeats, SetIds)
  }

  function WorkoutIds(w: Workout): seq<Uuid> {
    [w.id] + Flatten(w.exercises, ExerciseIds)
  }

  /** Every id of the bag occurs exactly once. */
  predicate Unique(ids: multiset<Uuid>) {
    forall x | x in ids :: ids[x] == 1
  }

  /** Part of a bag of unique ids is unique. */
  lemma UniqueSub(a: multiset<Uuid>, b: multiset<Uuid>)
    requires a <= b && Unique(b)
    ensures Unique(a)
  {
  }

  /** A bag of unique ids stays unique when a fresh id joins it. */
  lemma UniqueAdd(ids: multiset<Uuid>, id: Uuid)
    requires Unique(ids) && id !in ids
    ensures Unique(ids + multiset{id})
  {
  }

  /* ---- initialisers ---- */

  /** `ExerciseSet.init(setNumber:repetitions:weight:)`. */
  function NewExerciseSet(id: Uuid, setNumber: int := 1, repetitions: string := DefaultRepetitions,
                          weight: string := DefaultWeight): (s: ExerciseSet)
    ensures s.id == id && SetIds(s) == [id]
    ensures Numbered([s]) <==> setNumber == 1
  {
    var s := ExerciseSet(id, setNumber, repetitions, weight);
    assert [s][0] == s;
    s
  }

  /** A set built with every default is set 1 of 10 repetitions at "75 кг". */
  lemma ExerciseSetDefaults(id: Uuid)
    ensures NewExerciseSet(id) == ExerciseSet(id, 1, "10", "75 кг")
  {
  }

  /** `Exercise.init(name:isExpanded:)`: the exercise starts with one
      default set, so its numbering is contiguous from creation. */
  function NewExercise(id: Uuid, setId: Uuid, name: string := DefaultExerciseName,
                       isExpanded: bool := true): (e: Exercise)
    ensures e.id == id && e.name == name && e.isExpanded == isExpanded
    ensures |e.repeats| == 1 && e.repeats[0] == ExerciseSet(setId, 1, "10", "75 кг")
    ensures Numbered(e.repeats)
    ensures ExerciseIds(e) == [id, setId]
  {
    var e := Exercise(id, name, isExpanded, [NewExerciseSet(setId)]);
    FlattenSingleton(e.repeats[0], SetIds);
    e
  }

  /** `Workout.init(title:segment:isExpanded:)`: no exercises yet. */
  function NewWorkout(id: Uuid, title: string := DefaultWorkoutTitle, segment: string := DefaultSegment,
                      isExpanded: bool := true): (w: Workout)
    ensures w.id == id && w.title == title && w.segment == segment && w.isExpanded == isExpanded
    ensures w.exercises == []
    ensures WorkoutIds(w) == [id]
  {
    Workout(id, title, isExpanded, [], segment)
  }

  /** The defaults of the initialisers: an expanded "Упражнение" and an
      expanded "Тренировка" of segment "Спина". */
  lemma InitialiserDefaults(id: Uuid, setId: Uuid)
    ensures NewExercise(id, setId).name == "Упражнение" && NewExercise(id, setId).isExpanded
    ensures NewWorkout(id).title == "Тренировка" && NewWorkout(id).segment == "Спина"
    ensures NewWorkout(id).isExpanded
  {
  }

  /** Two ids drawn one after another for a new exercise and its first set
      leave the new subtree with unique ids. */
  lemma NewExerciseIdsUnique(id: Uuid, setId: Uuid)
    ensures Unique(multiset(ExerciseIds(NewExercise(id, setId)))) <==> id != setId
  {
    var m := multiset(ExerciseIds(NewExercise(id, setId)));
    assert m == multiset{id, setId};
    if id == setId {
      assert m[id] == 2;
    }
  }
}
