/** The mutations of the main screen (gymtrack/GymView.swift): the private
    methods of `GymView` that add, delete, renumber and toggle entities, the
    predicates that enable the delete and remove buttons, and the filtering
    of the stored workouts by the selected segment.

    Swift mutates the captured objects in place; here every mutation returns
    the updated value. */
module GymView {
  import opened Seqs
  import opened Models
  import Decimal

  /** The segment picker's labels, indexed by the picker's tag. */
  const Segments: seq<string> := ["Спина", "Грудь", "Ноги"]

  /** The picker and the pages only ever produce the tags 0, 1 and 2. */
  type SegmentIndex = i: int | 0 <= i < 3

  const WorkoutTitlePrefix: string := "Тренировка "
  const ExerciseNamePrefix: string := "Упражнение "

  /** "<prefix><n>", as the interpolation "… \(n)" builds a default name:
      the prefix, then the decimal digits of `n` without leading zeros. */
  function NumberedName(prefix: string, n: nat): (r: string)
    ensures |r| > |prefix| && r[..|prefix|] == prefix
    ensures Decimal.IsDigits(r[|prefix|..])
    ensures n > 0 ==> r[|prefix|] != '0'
  {
    var r := prefix + Decimal.FromNat(n);
    assert r[|prefix|..] == Decimal.FromNat(n);
    r
  }

  /** The number of a default name can be read back from it. */
  lemma NumberedNameRecoverable(prefix: string, n: nat)
    ensures Decimal.ToNat(NumberedName(prefix, n)[|prefix|..]) == n
  {
    assert NumberedName(prefix, n)[|prefix|..] == Decimal.FromNat(n);
    Decimal.ToNatFromNat(n);
  }

  /** Different counts give different default names. */
  lemma NumberedNameInjective(prefix: string, m: nat, n: nat)
    ensures NumberedName(prefix, m) == NumberedName(prefix, n) <==> m == n
  {
    NumberedNameRecoverable(prefix, m);
    NumberedNameRecoverable(prefix, n);
  }

  /* ======================= sets of an exercise ======================= */

  /** `addSet(to:)`: appends set number count + 1 with the default values. */
  function AddSet(e: Exercise, setId: Uuid): (r: Exercise)
    ensures |r.repeats| == |e.repeats| + 1
    ensures r.repeats[..|e.repeats|] == e.repeats
    ensures r.repeats[|e.repeats|] == ExerciseSet(setId, |e.repeats| + 1, "10", "75 кг")
    ensures r.(repeats := e.repeats) == e
  {
    e.(repeats := e.repeats + [NewExerciseSet(setId, |e.repeats| + 1, "10", "75 кг")])
  }

  /** Appending keeps the numbering contiguous exactly when it was before:
      sets 1..n become sets 1..n+1. */
  lemma AddSetNumbering(e: Exercise, setId: Uuid)
    ensures Numbered(AddSet(e, setId).repeats) <==> Numbered(e.repeats)
  {
    var r := AddSet(e, setId).repeats;
    if Numbered(r) {
      forall i | 0 <= i < |e.repeats|
        ensures e.repeats[i].setNumber == i + 1
      {
        assert r[i] == e.repeats[i];
      }
    }
  }

  /** The loop of `removeSet(from:)` that writes index + 1 into every set. */
  function Renumber(sets: seq<ExerciseSet>): (r: seq<ExerciseSet>)
    ensures |r| == |sets| && Numbered(r)
    ensures forall i :: 0 <= i < |r| ==> r[i].(setNumber := sets[i].setNumber) == sets[i]
    ensures Numbered(sets) ==> r == sets
  {
    seq(|sets|, i requires 0 <= i < |sets| => sets[i].(setNumber := i + 1))
  }

  /** `removeSet(from:)`: nothing at all happens with one set or none;
      otherwise the last set goes and the rest are numbered 1..n-1, each
      keeping its id, repetitions and weight. */
  function RemoveSet(e: Exercise): (r: Exercise)
    ensures |e.repeats| <= 1 ==> r == e
    ensures |e.repeats| > 1 ==> |r.repeats| == |e.repeats| - 1 && Numbered(r.repeats)
    ensures forall i :: 0 <= i < |r.repeats| ==>
              r.repeats[i].(setNumber := e.repeats[i].setNumber) == e.repeats[i]
    ensures r.(repeats := e.repeats) == e
  {
    if |e.repeats| <= 1 then e
    else e.(repeats := Renumber(e.repeats[..|e.repeats| - 1]))
  }

  /** Removing a set undoes adding one to a numbered exercise. */
  lemma RemoveSetUndoesAddSet(e: Exercise, setId: Uuid)
    requires |e.repeats| >= 1 && Numbered(e.repeats)
    ensures RemoveSet(AddSet(e, setId)) == e
  {
    var a := AddSet(e, setId);
    assert a.repeats[..|a.repeats| - 1] == e.repeats;
  }

  /** Adding a set brings exactly the new set's id. */
  lemma AddSetIds(e: Exercise, setId: Uuid)
    ensures multiset(ExerciseIds(AddSet(e, setId))) == multiset(ExerciseIds(e)) + multiset{setId}
  {
    var s := AddSet(e, setId).repeats[|e.repeats|];
    FlattenAppend(e.repeats, [s], SetIds);
    FlattenSingleton(s, SetIds);
  }

  /** Renumbering keeps every id in place. */
  lemma {:induction false} SameIdsSameSetIds(a: seq<ExerciseSet>, b: seq<ExerciseSet>)
    requires |a| == |b|
    requires forall i :: 0 <= i < |a| ==> a[i].id == b[i].id
    ensures Flatten(a, SetIds) == Flatten(b, SetIds)
    decreases |a|
  {
    if |a| > 0 {
      SameIdsSameSetIds(a[1..], b[1..]);
    }
  }

  /** Removing a set brings no id in: at most the last set's id goes. */
  lemma RemoveSetIds(e: Exercise)
    ensures multiset(ExerciseIds(RemoveSet(e))) <= multiset(ExerciseIds(e))
  {
    var s := e.repeats;
    if |s| > 1 {
      var n := |s|;
      SameIdsSameSetIds(RemoveSet(e).repeats, s[..n - 1]);
      assert s == s[..n - 1] + [s[n - 1]];
      FlattenAppend(s[..n - 1], [s[n - 1]], SetIds);
    }
  }

  /** `toggleExerciseExpanded(_:)`. */
  function ToggleExerciseExpanded(e: Exercise): (r: Exercise)
    ensures r.isExpanded == !e.isExpanded
    ensures r.(isExpanded := e.isExpanded) == e
  {
    e.(isExpanded := !e.isExpanded)
  }

  lemma ToggleExerciseTwice(e: Exercise)
    ensures ToggleExerciseExpanded(ToggleExerciseExpanded(e)) == e
  {
  }

  /* ===================== exercises of a workout ====================== */

  /** `addNewExercise(to:)`: appends "Упражнение N", N = count + 1, with its
      one default set; the earlier exercises stay as they were, in order. */
  function AddNewExercise(w: Workout, exerciseId: Uuid, setId: Uuid): (r: Workout)
    ensures |r.exercises| == |w.exercises| + 1
    ensures r.exercises[..|w.exercises|] == w.exercises
    ensures r.exercises[|w.exercises|].id == exerciseId
    ensures r.exercises[|w.exercises|].name == NumberedName(ExerciseNamePrefix, |w.exercises| + 1)
    ensures r.exercises[|w.exercises|].isExpanded
    ensures |r.exercises[|w.exercises|].repeats| == 1 && Numbered(r.exercises[|w.exercises|].repeats)
    ensures r.(exercises := w.exercises) == w
  {
    w.(exercises := w.exercises + [NewExercise(exerciseId, setId, NumberedName(ExerciseNamePrefix, |w.exercises| + 1))])
  }

  /** The new exercise brings exactly its own id and its set's id. */
  lemma AddNewExerciseIds(w: Workout, exerciseId: Uuid, setId: Uuid)
    ensures multiset(WorkoutIds(AddNewExercise(w, exerciseId, setId)))
         == multiset(WorkoutIds(w)) + multiset{exerciseId, setId}
  {
    var e := AddNewExercise(w, exerciseId, setId).exercises[|w.exercises|];
    FlattenAppend(w.exercises, [e], ExerciseIds);
    FlattenSingleton(e, ExerciseIds);
  }

  /** Position of the first exercise with the given id. */
  function ExerciseIndex(es: seq<Exercise>, id: Uuid): Option<nat> {
    FirstIndex(es, (e: Exercise) => e.id == id)
  }

  /** `deleteExercise(_:from:)`: removes the first exercise with a matching
      id, and its sets with it; without a match nothing changes. */
  function DeleteExercise(w: Workout, exerciseId: Uuid): (r: Workout)
    ensures (forall e | e in w.exercises :: e.id != exerciseId) ==> r == w
    ensures (exists e | e in w.exercises :: e.id == exerciseId) ==>
              |r.exercises| == |w.exercises| - 1 &&
              exists i :: 0 <= i < |w.exercises| && w.exercises[i].id == exerciseId &&
                (forall j :: 0 <= j < i ==> w.exercises[j].id != exerciseId) &&
                r.exercises == w.exercises[..i] + w.exercises[i + 1..]
    ensures r.(exercises := w.exercises) == w
  {
    match ExerciseIndex(w.exercises, exerciseId)
    case None => w
    case Some(i) => w.(exercises := w.exercises[..i] + w.exercises[i + 1..])
  }

  /** Deleting an exercise drops exactly the ids of its subtree: the
      exercise and all of its sets. */
  lemma DeleteExerciseIds(w: Workout, exerciseId: Uuid, i: nat)
    requires i < |w.exercises| && w.exercises[i].id == exerciseId
    requires forall j :: 0 <= j < i ==> w.exercises[j].id != exerciseId
    ensures multiset(WorkoutIds(DeleteExercise(w, exerciseId)))
         == multiset(WorkoutIds(w)) - multiset(ExerciseIds(w.exercises[i]))
  {
    var es := w.exercises;
    assert ExerciseIndex(es, exerciseId) == Some(i);
    var r := w.(exercises := es[..i] + es[i + 1..]);
    assert DeleteExercise(w, exerciseId) == r;
    FlattenRemove(es, i, ExerciseIds);
    FlattenContains(es, i, ExerciseIds);
    BagRemoveTail(multiset([w.id]), multiset(Flatten(es, ExerciseIds)), multiset(ExerciseIds(es[i])));
  }

  /** Deleting a just-added exercise restores the workout. */
  lemma DeleteExerciseUndoesAdd(w: Workout, exerciseId: Uuid, setId: Uuid)
    requires forall e | e in w.exercises :: e.id != exerciseId
    ensures DeleteExercise(AddNewExercise(w, exerciseId, setId), exerciseId) == w
  {
    var a := AddNewExercise(w, exerciseId, setId);
    var n := |w.exercises|;
    forall j | 0 <= j < n
      ensures a.exercises[j].id != exerciseId
    {
      assert a.exercises[j] == w.exercises[j];
    }
    assert ExerciseIndex(a.exercises, exerciseId) == Some(n);
    assert a.exercises[..n] + a.exercises[n + 1..] == w.exercises;
  }

  /** `toggleWorkoutExpanded(_:)`. */
  function ToggleWorkoutExpanded(w: Workout): (r: Workout)
    ensures r.isExpanded == !w.isExpanded
    ensures r.(isExpanded := w.isExpanded) == w
  {
    w.(isExpanded := !w.isExpanded)
  }

  lemma ToggleWorkoutTwice(w: Workout)
    ensures ToggleWorkoutExpanded(ToggleWorkoutExpanded(w)) == w
  {
  }

  /* ============ predicates enabling the destructive buttons ============ */

  /** The minus button: `.disabled(exercise.repeats.count <= 1)`. It is
      enabled exactly when pressing it changes the exercise. */
  function CanRemoveSet(e: Exercise): (b: bool)
    ensures b <==> RemoveSet(e) != e
  {
    !(|e.repeats| <= 1)
  }

  /** The exercise context menu: `workout.exercises.count > 1`. Deleting any
      listed exercise keeps one exactly when the entry is enabled. */
  function CanDeleteExercise(w: Workout): (b: bool)
    ensures forall e | e in w.exercises :: b <==> |DeleteExercise(w, e.id).exercises| >= 1
  {
    |w.exercises| > 1
  }

  /** Three sets added to a new exercise give sets 1..4; the minus button
      then leaves sets 1..3. */
  lemma AddThreeSetsRemoveOne(id: Uuid)
    ensures var e := AddSet(AddSet(AddSet(NewExercise(id, 1), 2), 3), 4);
            |e.repeats| == 4 && Numbered(e.repeats) &&
            |RemoveSet(e).repeats| == 3 && Numbered(RemoveSet(e).repeats)
  {
    var e0 := NewExercise(id, 1);
    var e1 := AddSet(e0, 2);
    var e2 := AddSet(e1, 3);
    AddSetNumbering(e0, 2);
    AddSetNumbering(e1, 3);
    AddSetNumbering(e2, 4);
  }

  /** Two exercises added to a new workout each hold one set, and the minus
      button of either is disabled and would change nothing. */
  lemma TwoNewExercisesCannotLoseTheirSet(id: Uuid)
    ensures var w := AddNewExercise(AddNewExercise(NewWorkout(id), 1, 2), 3, 4);
            |w.exercises| == 2 &&
            forall e | e in w.exercises :: |e.repeats| == 1 && !CanRemoveSet(e) && RemoveSet(e) == e
  {
    var w1 := AddNewExercise(NewWorkout(id), 1, 2);
    var w := AddNewExercise(w1, 3, 4);
    assert w.exercises == [w1.exercises[0], w.exercises[1]];
  }

  /* ========================= the whole store ========================== */

  /** The stored workouts (the `@Query` result) and the selected tab. */
  datatype Gym = Gym(workouts: seq<Workout>, selectedSegment: SegmentIndex)

  /** The workouts of `ws` whose segment is `segment`, in the order of `ws`. */
  function OfSegment(ws: seq<Workout>, segment: string): (r: seq<Workout>)
    ensures |r| <= |ws|
    ensures forall w :: w in r <==> w in ws && w.segment == segment
    decreases |ws|
  {
    if |ws| == 0 then []
    else (if ws[0].segment == segment then [ws[0]] else []) + OfSegment(ws[1..], segment)
  }

  /** Filtering distributes over concatenation, so it keeps the order. */
  lemma {:induction false} OfSegmentAppend(a: seq<Workout>, b: seq<Workout>, segment: string)
    ensures OfSegment(a + b, segment) == OfSegment(a, segment) + OfSegment(b, segment)
    decreases |a|
  {
    if |a| == 0 {
      assert a + b == b;
    } else {
      assert (a + b)[1..] == a[1..] + b;
      OfSegmentAppend(a[1..], b, segment);
    }
  }

  /** `workoutsForSegment`: the stored workouts of the selected segment. */
  function WorkoutsForSegment(g: Gym): (r: seq<Workout>)
    ensures forall w :: w in r <==> w in g.workouts && w.segment == Segments[g.selectedSegment]
  {
    OfSegment(g.workouts, Segments[g.selectedSegment])
  }

  /** The workout context menu: `workoutsForSegment.count > 1`. When ids
      are distinct, deleting any displayed workout leaves the selected
      segment non-empty exactly when the entry is enabled. */
  function CanDeleteWorkout(g: Gym): (b: bool)
    ensures DistinctIds(g.workouts) ==>
              forall w | w in WorkoutsForSegment(g) :: b <==> |WorkoutsForSegment(DeleteWorkout(g, w.id))| >= 1
  {
    DeleteDisplayedWorkouts(g);
    |WorkoutsForSegment(g)| > 1
  }

  /** `addNewWorkout(toSegment:)`: the new workout goes to `segment`, but
      its number is the count of the SELECTED segment plus one. It shows up
      at the end of the displayed list only when the two segments agree. */
  function AddNewWorkout(g: Gym, segment: SegmentIndex, id: Uuid): (r: Gym)
    ensures r.selectedSegment == g.selectedSegment
    ensures |r.workouts| == |g.workouts| + 1 && r.workouts[..|g.workouts|] == g.workouts
    ensures r.workouts[|g.workouts|]
         == Workout(id, NumberedName(WorkoutTitlePrefix, |WorkoutsForSegment(g)| + 1), true, [], Segments[segment])
  {
    g.(workouts := g.workouts + [NewWorkout(id, NumberedName(WorkoutTitlePrefix, |WorkoutsForSegment(g)| + 1), Segments[segment])])
  }

  /** The new workout joins the displayed list, at its end, exactly when
      it went to the selected segment. */
  lemma AddNewWorkoutListed(g: Gym, segment: SegmentIndex, id: Uuid)
    ensures (var r := AddNewWorkout(g, segment, id);
             WorkoutsForSegment(r)
             == WorkoutsForSegment(g) + (if segment == g.selectedSegment then [r.workouts[|g.workouts|]] else []))
  {
    var r := AddNewWorkout(g, segment, id);
    var w := r.workouts[|g.workouts|];
    assert r.workouts == g.workouts + [w];
    OfSegmentAppend(g.workouts, [w], Segments[g.selectedSegment]);
  }

  /** Adding to a segment other than the selected one numbers the new
      workout after the selected segment's workouts: with one "Спина"
      workout selected, the first "Грудь" workout is "Тренировка 2". */
  lemma AddNewWorkoutNumbersBySelectedSegment()
    ensures var g := Gym([NewWorkout(1, "Тренировка 1", "Спина")], 0);
            var r := AddNewWorkout(g, 1, 2);
            |OfSegment(g.workouts, "Грудь")| == 0 &&
            r.workouts[1].segment == "Грудь" && r.workouts[1].title == "Тренировка 2"
  {
    var g := Gym([NewWorkout(1, "Тренировка 1", "Спина")], 0);
    assert WorkoutsForSegment(g) == g.workouts;
    assert Decimal.FromNat(2) == "2";
  }

  /** The workouts of `ws` other than the one with the given id. */
  function WithoutWorkout(ws: seq<Workout>, id: Uuid): (r: seq<Workout>)
    ensures |r| <= |ws|
    ensures forall w :: w in r <==> w in ws && w.id != id
    ensures (forall w | w in ws :: w.id != id) ==> r == ws
    decreases |ws|
  {
    if |ws| == 0 then []
    else (if ws[0].id == id then [] else [ws[0]]) + WithoutWorkout(ws[1..], id)
  }

  /** `deleteWorkout(_:)`: removes the workout from the store; its subtree
      leaves the tree with it. Every stored workout with the id goes. */
  function DeleteWorkout(g: Gym, id: Uuid): (r: Gym)
    ensures r.selectedSegment == g.selectedSegment
    ensures forall w :: w in r.workouts <==> w in g.workouts && w.id != id
  {
    g.(workouts := WithoutWorkout(g.workouts, id))
  }

  /** No two stored workouts share an id. */
  predicate DistinctIds(ws: seq<Workout>) {
    forall i, j | 0 <= i < j < |ws| :: ws[i].id != ws[j].id
  }

  /** The tail of a list of distinct ids has distinct ids. */
  lemma DistinctTail(ws: seq<Workout>)
    requires |ws| > 0 && DistinctIds(ws)
    ensures DistinctIds(ws[1..])
    ensures forall w | w in ws[1..] :: w.id != ws[0].id
  {
    var rest := ws[1..];
    forall i, j | 0 <= i < j < |rest|
      ensures rest[i].id != rest[j].id
    {
      assert rest[i] == ws[i + 1] && rest[j] == ws[j + 1];
    }
    forall w | w in rest
      ensures w.id != ws[0].id
    {
      var k :| 0 <= k < |rest| && rest[k] == w;
      assert ws[k + 1] == w;
    }
  }

  /** Splitting off the head of both lists. */
  lemma OfSegmentWithoutCons(ws: seq<Workout>, id: Uuid, segment: string)
    requires |ws| > 0 && ws[0].id != id
    ensures OfSegment(WithoutWorkout(ws, id), segment)
         == OfSegment([ws[0]], segment) + OfSegment(WithoutWorkout(ws[1..], id), segment)
    ensures OfSegment(ws, segment) == OfSegment([ws[0]], segment) + OfSegment(ws[1..], segment)
  {
    assert WithoutWorkout(ws, id) == [ws[0]] + WithoutWorkout(ws[1..], id);
    OfSegmentAppend([ws[0]], WithoutWorkout(ws[1..], id), segment);
    OfSegmentAppend([ws[0]], ws[1..], segment);
    assert ws == [ws[0]] + ws[1..];
  }

  /** Deleting one workout of a segment lowers that segment's count by one. */
  lemma {:induction false} DeleteOneOfSegment(ws: seq<Workout>, id: Uuid, segment: string)
    requires DistinctIds(ws)
    requires exists w | w in ws :: w.id == id && w.segment == segment
    ensures |OfSegment(WithoutWorkout(ws, id), segment)| == |OfSegment(ws, segment)| - 1
    decreases |ws|
  {
    var rest := ws[1..];
    DistinctTail(ws);
    if ws[0].id == id {
      assert WithoutWorkout(ws, id) == WithoutWorkout(rest, id);
    } else {
      var w :| w in ws && w.id == id && w.segment == segment;
      assert w in rest;
      DeleteOneOfSegment(rest, id, segment);
      OfSegmentWithoutCons(ws, id, segment);
    }
  }

  /** Deleting a displayed workout lowers the displayed count by one. */
  lemma DeleteDisplayedWorkout(g: Gym, id: Uuid)
    requires DistinctIds(g.workouts)
    requires exists w | w in WorkoutsForSegment(g) :: w.id == id
    ensures |WorkoutsForSegment(DeleteWorkout(g, id))| == |WorkoutsForSegment(g)| - 1
  {
    DeleteOneOfSegment(g.workouts, id, Segments[g.selectedSegment]);
  }

  lemma DeleteDisplayedWorkouts(g: Gym)
    ensures DistinctIds(g.workouts) ==>
              forall w | w in WorkoutsForSegment(g) ::
                |WorkoutsForSegment(DeleteWorkout(g, w.id))| == |WorkoutsForSegment(g)| - 1
  {
    if DistinctIds(g.workouts) {
      forall w | w in WorkoutsForSegment(g)
        ensures |WorkoutsForSegment(DeleteWorkout(g, w.id))| == |WorkoutsForSegment(g)| - 1
      {
        DeleteDisplayedWorkout(g, w.id);
      }
    }
  }
}
