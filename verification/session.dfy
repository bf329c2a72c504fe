/** The event routing of `GymView.body` (gymtrack/GymView.swift): every
    button closure captures the workout (and exercise) it belongs to and
    hands it to one of the mutations. Here the captured objects are named by
    their ids, every event is an `Action`, and the store is proved to stay
    well formed — unique ids, and every exercise holding at least one set,
    numbered 1..n — along any run of events whose new ids are fresh. */
module Session {
  import opened Seqs
  import opened Models
  import GymView

  /** Every id in the store: workouts, their exercises and their sets. */
  function IdBag(g: GymView.Gym): multiset<Uuid> {
    multiset(Flatten(g.workouts, WorkoutIds))
  }

  predicate ExerciseOk(e: Exercise) {
    |e.repeats| >= 1 && Numbered(e.repeats)
  }

  predicate WorkoutOk(w: Workout) {
    forall e | e in w.exercises :: ExerciseOk(e)
  }

  predicate WellFormed(g: GymView.Gym) {
    Unique(IdBag(g)) && forall w | w in g.workouts :: WorkoutOk(w)
  }

  /** Position of the first workout with the given id. */
  function WorkoutIndex(ws: seq<Workout>, id: Uuid): Option<nat> {
    FirstIndex(ws, (w: Workout) => w.id == id)
  }

  /** The events of the screen. */
  datatype Action =
    | SelectSegment(index: GymView.SegmentIndex)
    | AddWorkout(segment: GymView.SegmentIndex, workoutId: Uuid)
    | DeleteWorkout(workoutId: Uuid)
    | ToggleWorkout(workoutId: Uuid)
    | AddExercise(workoutId: Uuid, exerciseId: Uuid, setId: Uuid)
    | DeleteExercise(workoutId: Uuid, exerciseId: Uuid)
    | AddSet(workoutId: Uuid, exerciseId: Uuid, setId: Uuid)
    | RemoveSet(workoutId: Uuid, exerciseId: Uuid)
    | ToggleExercise(workoutId: Uuid, exerciseId: Uuid)

  /** Events aimed at one workout: every event but the picker and the
      workout add and delete buttons. */
  predicate OnOneWorkout(a: Action) {
    !(a.SelectSegment? || a.AddWorkout? || a.DeleteWorkout?)
  }

  /** What an event does to the exercise its closure captured; other
      events leave it alone. No event renames an exercise or changes its id. */
  function OnExercise(e: Exercise, a: Action): (r: Exercise)
    ensures r.id == e.id && r.name == e.name
    ensures !(a.AddSet? || a.RemoveSet? || a.ToggleExercise?) ==> r == e
  {
    match a
    case AddSet(_, _, sid) => GymView.AddSet(e, sid)
    case RemoveSet(_, _) => GymView.RemoveSet(e)
    case ToggleExercise(_, _) => GymView.ToggleExerciseExpanded(e)
    case _ => e
  }

  /** Applies the event to the exercise with the given id. */
  function OnExerciseIn(w: Workout, eid: Uuid, a: Action): (r: Workout)
    ensures r.(exercises := w.exercises) == w && |r.exercises| == |w.exercises|
    ensures forall j | 0 <= j < |w.exercises| :: r.exercises[j].id == w.exercises[j].id
    ensures forall j | 0 <= j < |w.exercises| && w.exercises[j].id != eid :: r.exercises[j] == w.exercises[j]
  {
    match GymView.ExerciseIndex(w.exercises, eid)
    case None => w
    case Some(j) => w.(exercises := w.exercises[j := OnExercise(w.exercises[j], a)])
  }

  /** What an event does to the workout its closure captured; other
      events leave it alone. No event renames a workout, moves it to another
      segment or changes its id. */
  function OnWorkout(w: Workout, a: Action): (r: Workout)
    ensures r.id == w.id && r.title == w.title && r.segment == w.segment
    ensures !OnOneWorkout(a) ==> r == w
  {
    match a
    case ToggleWorkout(_) => GymView.ToggleWorkoutExpanded(w)
    case AddExercise(_, eid, sid) => GymView.AddNewExercise(w, eid, sid)
    case DeleteExercise(_, eid) => GymView.DeleteExercise(w, eid)
    case AddSet(_, eid, _) => OnExerciseIn(w, eid, a)
    case RemoveSet(_, eid) => OnExerciseIn(w, eid, a)
    case ToggleExercise(_, eid) => OnExerciseIn(w, eid, a)
    case _ => w
  }

  /** Applies the event to the workout with the given id. */
  function OnWorkoutIn(g: GymView.Gym, wid: Uuid, a: Action): (r: GymView.Gym)
    ensures r.selectedSegment == g.selectedSegment && |r.workouts| == |g.workouts|
    ensures forall i | 0 <= i < |g.workouts| ::
              r.workouts[i].id == g.workouts[i].id && r.workouts[i].segment == g.workouts[i].segment
    ensures forall i | 0 <= i < |g.workouts| && g.workouts[i].id != wid :: r.workouts[i] == g.workouts[i]
  {
    match WorkoutIndex(g.workouts, wid)
    case None => g
    case Some(i) => g.(workouts := g.workouts[i := OnWorkout(g.workouts[i], a)])
  }

  /** One event of the screen. Only the picker changes the selected
      segment, and it changes nothing else; an event aimed at one workout
      never adds, removes, reorders or moves a workout, and leaves every
      workout with another id as it was. */
  function Step(g: GymView.Gym, a: Action): (r: GymView.Gym)
    ensures a.SelectSegment? ==> r == g.(selectedSegment := a.index)
    ensures !a.SelectSegment? ==> r.selectedSegment == g.selectedSegment
    ensures OnOneWorkout(a) ==>
              |r.workouts| == |g.workouts| &&
              (forall i | 0 <= i < |g.workouts| ::
                 r.workouts[i].id == g.workouts[i].id && r.workouts[i].segment == g.workouts[i].segment) &&
              (forall i | 0 <= i < |g.workouts| && g.workouts[i].id != a.workoutId :: r.workouts[i] == g.workouts[i])
  {
    match a
    case SelectSegment(i) => g.(selectedSegment := i)
    case AddWorkout(s, id) => GymView.AddNewWorkout(g, s, id)
    case DeleteWorkout(id) => GymView.DeleteWorkout(g, id)
    case ToggleWorkout(wid) => OnWorkoutIn(g, wid, a)
    case AddExercise(wid, _, _) => OnWorkoutIn(g, wid, a)
    case DeleteExercise(wid, _) => OnWorkoutIn(g, wid, a)
    case AddSet(wid, _, _) => OnWorkoutIn(g, wid, a)
    case RemoveSet(wid, _) => OnWorkoutIn(g, wid, a)
    case ToggleExercise(wid, _) => OnWorkoutIn(g, wid, a)
  }

  /** The ids a UUID generator hands to the event. */
  function NewIds(a: Action): multiset<Uuid> {
    match a
    case AddWorkout(_, id) => multiset{id}
    case AddExercise(_, eid, sid) => multiset{eid, sid}
    case AddSet(_, _, sid) => multiset{sid}
    case _ => multiset{}
  }

  /** The new ids differ from each other and from every stored id. */
  predicate Fresh(g: GymView.Gym, a: Action) {
    forall x | x in NewIds(a) :: x !in IdBag(g) && NewIds(a)[x] == 1
  }

  /** Fresh ids keep the store's ids unique. */
  lemma FreshUnique(g: GymView.Gym, a: Action)
    requires Unique(IdBag(g)) && Fresh(g, a)
    ensures Unique(IdBag(g) + NewIds(a))
  {
  }

  /* --------------- replacing one node of the tree --------------- */

  lemma ReplaceExercise(w: Workout, j: nat, e: Exercise, extra: multiset<Uuid>)
    requires j < |w.exercises|
    requires multiset(ExerciseIds(e)) <= multiset(ExerciseIds(w.exercises[j])) + extra
    ensures multiset(WorkoutIds(w.(exercises := w.exercises[j := e]))) <= multiset(WorkoutIds(w)) + extra
    ensures WorkoutOk(w) && ExerciseOk(e) ==> WorkoutOk(w.(exercises := w.exercises[j := e]))
  {
    ReplaceExerciseIds(w, j, e, extra);
    if WorkoutOk(w) && ExerciseOk(e) {
      ReplaceExerciseShape(w, j, e);
    }
  }

  lemma ReplaceExerciseIds(w: Workout, j: nat, e: Exercise, extra: multiset<Uuid>)
    requires j < |w.exercises|
    requires multiset(ExerciseIds(e)) <= multiset(ExerciseIds(w.exercises[j])) + extra
    ensures multiset(WorkoutIds(w.(exercises := w.exercises[j := e]))) <= multiset(WorkoutIds(w)) + extra
  {
    var es := w.exercises;
    var es2 := es[j := e];
    var b, b2 := multiset(Flatten(es, ExerciseIds)), multiset(Flatten(es2, ExerciseIds));
    FlattenUpdate(es, j, e, ExerciseIds);
    FlattenContains(es, j, ExerciseIds);
    BagSwap(b, multiset(ExerciseIds(es[j])), multiset(ExerciseIds(e)), extra);
    assert b2 <= b + extra;
    assert WorkoutIds(w.(exercises := es2)) == [w.id] + Flatten(es2, ExerciseIds);
    assert WorkoutIds(w) == [w.id] + Flatten(es, ExerciseIds);
  }

  lemma ReplaceExerciseShape(w: Workout, j: nat, e: Exercise)
    requires j < |w.exercises| && WorkoutOk(w) && ExerciseOk(e)
    ensures WorkoutOk(w.(exercises := w.exercises[j := e]))
  {
    forall v | v in w.exercises[j := e]
      ensures ExerciseOk(v)
    {
      if v != e {
        assert v in w.exercises;
      }
    }
  }

  lemma ReplaceWorkout(g: GymView.Gym, i: nat, w: Workout, extra: multiset<Uuid>)
    requires WellFormed(g) && i < |g.workouts|
    requires Unique(IdBag(g) + extra)
    requires WorkoutOk(w)
    requires multiset(WorkoutIds(w)) <= multiset(WorkoutIds(g.workouts[i])) + extra
    ensures IdBag(g.(workouts := g.workouts[i := w])) <= IdBag(g) + extra
    ensures WellFormed(g.(workouts := g.workouts[i := w]))
  {
    var r := g.(workouts := g.workouts[i := w]);
    ReplaceWorkoutIds(g.workouts, i, w, extra);
    UniqueSub(IdBag(r), IdBag(g) + extra);
    forall v | v in r.workouts
      ensures WorkoutOk(v)
    {
      if v != w {
        assert v in g.workouts;
      }
    }
  }

  lemma ReplaceWorkoutIds(ws: seq<Workout>, i: nat, w: Workout, extra: multiset<Uuid>)
    requires i < |ws|
    requires multiset(WorkoutIds(w)) <= multiset(WorkoutIds(ws[i])) + extra
    ensures multiset(Flatten(ws[i := w], WorkoutIds)) <= multiset(Flatten(ws, WorkoutIds)) + extra
  {
    FlattenUpdate(ws, i, w, WorkoutIds);
    FlattenContains(ws, i, WorkoutIds);
    BagSwap(multiset(Flatten(ws, WorkoutIds)), multiset(WorkoutIds(ws[i])), multiset(WorkoutIds(w)), extra);
  }

  /** A store with unique ids has no two workouts with the same id. */
  lemma WellFormedDistinct(g: GymView.Gym)
    requires Unique(IdBag(g))
    ensures GymView.DistinctIds(g.workouts)
  {
    var ws := g.workouts;
    forall i, j | 0 <= i < j < |ws|
      ensures ws[i].id != ws[j].id
    {
      if ws[i].id == ws[j].id {
        FlattenTwo(ws, i, j, WorkoutIds, ws[i].id);
        assert false;
      }
    }
  }

  /** In a store with unique ids the workout at `i` is the one found by its id. */
  lemma WorkoutIndexOfUnique(g: GymView.Gym, i: nat)
    requires Unique(IdBag(g)) && i < |g.workouts|
    ensures WorkoutIndex(g.workouts, g.workouts[i].id) == Some(i)
  {
    WellFormedDistinct(g);
  }

  /** The subtree of a stored workout has unique ids too. */
  lemma StoredWorkoutUnique(g: GymView.Gym, i: nat)
    requires Unique(IdBag(g)) && i < |g.workouts|
    ensures Unique(multiset(WorkoutIds(g.workouts[i])))
  {
    FlattenContains(g.workouts, i, WorkoutIds);
    UniqueSub(multiset(WorkoutIds(g.workouts[i])), IdBag(g));
  }

  lemma WorkoutIdsBag(w: Workout, id: Uuid)
    ensures multiset(WorkoutIds(w))[id] >= multiset(Flatten(w.exercises, ExerciseIds))[id]
  {
    var m1, m2 := multiset([w.id]), multiset(Flatten(w.exercises, ExerciseIds));
    assert multiset(WorkoutIds(w)) == m1 + m2;
    assert (m1 + m2)[id] == m1[id] + m2[id];
  }

  /** A workout with unique ids has no two exercises with the same id. */
  lemma DistinctExercises(w: Workout, k: nat, j: nat)
    requires Unique(multiset(WorkoutIds(w)))
    requires k < j < |w.exercises|
    ensures w.exercises[k].id != w.exercises[j].id
  {
    var es := w.exercises;
    var id := es[k].id;
    if id == es[j].id {
      FlattenTwo(es, k, j, ExerciseIds, id);
      WorkoutIdsBag(w, id);
      assert false;
    }
  }

  /** ... and the exercise at `j` of that workout is the one found by its id. */
  lemma ExerciseIndexOfUnique(g: GymView.Gym, i: nat, j: nat)
    requires Unique(IdBag(g)) && i < |g.workouts| && j < |g.workouts[i].exercises|
    ensures GymView.ExerciseIndex(g.workouts[i].exercises, g.workouts[i].exercises[j].id) == Some(j)
  {
    StoredWorkoutUnique(g, i);
    ExerciseIndexInWorkout(g.workouts[i], j);
  }

  lemma ExerciseIndexInWorkout(w: Workout, j: nat)
    requires Unique(multiset(WorkoutIds(w))) && j < |w.exercises|
    ensures GymView.ExerciseIndex(w.exercises, w.exercises[j].id) == Some(j)
  {
    var es := w.exercises;
    var r := GymView.ExerciseIndex(es, es[j].id);
    assert r.Some?;
    var k := r.value;
    if k < j {
      DistinctExercises(w, k, j);
    }
  }

  /* ------------------------- the invariant ------------------------- */

  lemma StepAddWorkout(g: GymView.Gym, s: GymView.SegmentIndex, id: Uuid)
    requires WellFormed(g) && Fresh(g, AddWorkout(s, id))
    ensures WellFormed(Step(g, AddWorkout(s, id)))
  {
    var ws := g.workouts;
    var r := GymView.AddNewWorkout(g, s, id);
    assert Step(g, AddWorkout(s, id)) == r;
    var w := r.workouts[|ws|];
    assert r.workouts == ws + [w];
    assert w.exercises == [] && WorkoutIds(w) == [id];
    FlattenAppend(ws, [w], WorkoutIds);
    FlattenSingleton(w, WorkoutIds);
    assert IdBag(r) == IdBag(g) + multiset{id};
    assert id in NewIds(AddWorkout(s, id));
    UniqueAdd(IdBag(g), id);
    assert forall v | v in r.workouts :: v == w || v in ws;
  }

  lemma StepDeleteWorkout(g: GymView.Gym, id: Uuid)
    requires WellFormed(g)
    ensures WellFormed(Step(g, DeleteWorkout(id)))
  {
    var r := GymView.DeleteWorkout(g, id);
    assert Step(g, DeleteWorkout(id)) == r;
    WithoutWorkoutIds(g.workouts, id);
    UniqueSub(IdBag(r), IdBag(g));
    forall v | v in r.workouts
      ensures WorkoutOk(v)
    {
      assert v in g.workouts;
    }
  }

  lemma OnExerciseOk(e: Exercise, a: Action)
    requires ExerciseOk(e)
    ensures ExerciseOk(OnExercise(e, a))
    ensures multiset(ExerciseIds(OnExercise(e, a))) <= multiset(ExerciseIds(e)) + NewIds(a)
  {
    if a.AddSet? {
      assert OnExercise(e, a) == GymView.AddSet(e, a.setId);
      AddSetOk(e, a.setId);
    } else if a.RemoveSet? {
      assert OnExercise(e, a) == GymView.RemoveSet(e);
      RemoveSetOk(e);
    } else if a.ToggleExercise? {
      var r := e.(isExpanded := !e.isExpanded);
      assert OnExercise(e, a) == r;
      assert ExerciseIds(r) == ExerciseIds(e);
    } else {
      assert OnExercise(e, a) == e;
    }
  }

  lemma AddSetOk(e: Exercise, sid: Uuid)
    requires ExerciseOk(e)
    ensures ExerciseOk(GymView.AddSet(e, sid))
    ensures multiset(ExerciseIds(GymView.AddSet(e, sid))) == multiset(ExerciseIds(e)) + multiset{sid}
  {
    GymView.AddSetIds(e, sid);
    GymView.AddSetNumbering(e, sid);
  }

  lemma RemoveSetOk(e: Exercise)
    requires ExerciseOk(e)
    ensures ExerciseOk(GymView.RemoveSet(e))
    ensures multiset(ExerciseIds(GymView.RemoveSet(e))) <= multiset(ExerciseIds(e))
  {
    GymView.RemoveSetIds(e);
  }

  lemma OnExerciseInOk(w: Workout, eid: Uuid, a: Action)
    requires WorkoutOk(w)
    ensures WorkoutOk(OnExerciseIn(w, eid, a))
    ensures multiset(WorkoutIds(OnExerciseIn(w, eid, a))) <= multiset(WorkoutIds(w)) + NewIds(a)
  {
    match GymView.ExerciseIndex(w.exercises, eid)
    case None =>
    case Some(j) =>
      var e := w.exercises[j];
      OnExerciseOk(e, a);
      ReplaceExercise(w, j, OnExercise(e, a), NewIds(a));
  }

  lemma DeleteExerciseOk(w: Workout, eid: Uuid)
    requires WorkoutOk(w)
    ensures WorkoutOk(GymView.DeleteExercise(w, eid))
    ensures multiset(WorkoutIds(GymView.DeleteExercise(w, eid))) <= multiset(WorkoutIds(w))
  {
    match GymView.ExerciseIndex(w.exercises, eid)
    case None =>
    case Some(j) =>
      var r := w.(exercises := w.exercises[..j] + w.exercises[j + 1..]);
      assert GymView.DeleteExercise(w, eid) == r;
      GymView.DeleteExerciseIds(w, eid, j);
      forall v | v in r.exercises
        ensures ExerciseOk(v)
      {
        assert v in w.exercises;
      }
  }

  /** An event on one workout changes that workout's ids only by its new
      ids, and keeps its exercises well formed. */
  lemma AddNewExerciseOk(w: Workout, eid: Uuid, sid: Uuid)
    requires WorkoutOk(w)
    ensures WorkoutOk(GymView.AddNewExercise(w, eid, sid))
    ensures multiset(WorkoutIds(GymView.AddNewExercise(w, eid, sid))) == multiset(WorkoutIds(w)) + multiset{eid, sid}
  {
    GymView.AddNewExerciseIds(w, eid, sid);
  }

  lemma OnWorkoutOk(w: Workout, a: Action)
    requires WorkoutOk(w)
    ensures WorkoutOk(OnWorkout(w, a))
    ensures multiset(WorkoutIds(OnWorkout(w, a))) <= multiset(WorkoutIds(w)) + NewIds(a)
  {
    match a
    case ToggleWorkout(_) =>
    case AddExercise(_, eid, sid) =>
      assert OnWorkout(w, a) == GymView.AddNewExercise(w, eid, sid);
      AddNewExerciseOk(w, eid, sid);
    case DeleteExercise(_, eid) =>
      assert OnWorkout(w, a) == GymView.DeleteExercise(w, eid);
      DeleteExerciseOk(w, eid);
    case AddSet(_, eid, _) =>
      assert OnWorkout(w, a) == OnExerciseIn(w, eid, a);
      OnExerciseInOk(w, eid, a);
    case RemoveSet(_, eid) =>
      assert OnWorkout(w, a) == OnExerciseIn(w, eid, a);
      OnExerciseInOk(w, eid, a);
    case ToggleExercise(_, eid) =>
      assert OnWorkout(w, a) == OnExerciseIn(w, eid, a);
      OnExerciseInOk(w, eid, a);
    case _ =>
  }

  lemma OnWorkoutInOk(g: GymView.Gym, wid: Uuid, a: Action)
    requires WellFormed(g) && Fresh(g, a)
    ensures WellFormed(OnWorkoutIn(g, wid, a))
  {
    match WorkoutIndex(g.workouts, wid)
    case None =>
    case Some(i) =>
      var w := g.workouts[i];
      OnWorkoutOk(w, a);
      FreshUnique(g, a);
      ReplaceWorkout(g, i, OnWorkout(w, a), NewIds(a));
  }

  /** Every event keeps the store well formed when its new ids are fresh. */
  lemma StepWellFormed(g: GymView.Gym, a: Action)
    requires WellFormed(g) && Fresh(g, a)
    ensures WellFormed(Step(g, a))
  {
    match a
    case SelectSegment(_) =>
    case AddWorkout(s, id) => StepAddWorkout(g, s, id);
    case DeleteWorkout(id) => StepDeleteWorkout(g, id);
    case ToggleWorkout(wid) => OnWorkoutInOk(g, wid, a);
    case AddExercise(wid, _, _) => OnWorkoutInOk(g, wid, a);
    case DeleteExercise(wid, _) => OnWorkoutInOk(g, wid, a);
    case AddSet(wid, _, _) => OnWorkoutInOk(g, wid, a);
    case RemoveSet(wid, _) => OnWorkoutInOk(g, wid, a);
    case ToggleExercise(wid, _) => OnWorkoutInOk(g, wid, a);
  }

  /** Deleting workouts brings no id in. */
  lemma {:induction false} WithoutWorkoutIds(ws: seq<Workout>, id: Uuid)
    ensures multiset(Flatten(GymView.WithoutWorkout(ws, id), WorkoutIds)) <= multiset(Flatten(ws, WorkoutIds))
    decreases |ws|
  {
    if |ws| > 0 {
      WithoutWorkoutIds(ws[1..], id);
      var head := if ws[0].id == id then [] else [ws[0]];
      FlattenAppend(head, GymView.WithoutWorkout(ws[1..], id), WorkoutIds);
      if ws[0].id != id {
        FlattenSingleton(ws[0], WorkoutIds);
      }
    }
  }

  /** Replays the events in order. */
  function Run(g: GymView.Gym, acts: seq<Action>): GymView.Gym
    decreases |acts|
  {
    if |acts| == 0 then g else Run(Step(g, acts[0]), acts[1..])
  }

  /** Every event of the run gets fresh ids at the moment it happens. */
  predicate FreshRun(g: GymView.Gym, acts: seq<Action>)
    decreases |acts|
  {
    |acts| == 0 || (Fresh(g, acts[0]) && FreshRun(Step(g, acts[0]), acts[1..]))
  }

  /** After any run of events every exercise still has its sets numbered
      1..n with n >= 1, and no two entities share an id. */
  lemma {:induction false} RunWellFormed(g: GymView.Gym, acts: seq<Action>)
    requires WellFormed(g) && FreshRun(g, acts)
    ensures WellFormed(Run(g, acts))
    decreases |acts|
  {
    if |acts| > 0 {
      StepWellFormed(g, acts[0]);
      RunWellFormed(Step(g, acts[0]), acts[1..]);
    }
  }

  /** The store the app starts with is well formed. */
  lemma EmptyStoreWellFormed(selected: GymView.SegmentIndex)
    ensures WellFormed(GymView.Gym([], selected))
  {
  }

  /** Taking a subtree `eb` out of a node `wb` of a bag of unique ids
      leaves none of the subtree's ids in the bag. */
  lemma RemoveSubtree(bag: multiset<Uuid>, wb: multiset<Uuid>, eb: multiset<Uuid>, x: Uuid)
    requires Unique(bag) && wb <= bag && eb <= wb && x in eb
    ensures x !in bag - wb + (wb - eb)
  {
    assert bag[x] == 1 && wb[x] == 1 && eb[x] == 1;
  }

  /** The exercise at `j` of the workout at `i`, and the event deleting it. */
  function DeleteExerciseAt(g: GymView.Gym, i: nat, j: nat): Action
    requires i < |g.workouts| && j < |g.workouts[i].exercises|
  {
    DeleteExercise(g.workouts[i].id, g.workouts[i].exercises[j].id)
  }

  /** Deleting an exercise leaves none of its ids, nor any of its sets'
      ids, anywhere in the store: nothing is orphaned. */
  lemma DeleteExerciseLeavesNoOrphans(g: GymView.Gym, i: nat, j: nat)
    requires WellFormed(g)
    requires i < |g.workouts| && j < |g.workouts[i].exercises|
    ensures forall x | x in ExerciseIds(g.workouts[i].exercises[j]) ::
              x !in IdBag(Step(g, DeleteExerciseAt(g, i, j)))
  {
    var ws := g.workouts;
    var w := ws[i];
    var e := w.exercises[j];
    var w' := GymView.DeleteExercise(w, e.id);
    var r := g.(workouts := ws[i := w']);
    StepDeleteExerciseAt(g, i, j);
    ExerciseIndexOfUnique(g, i, j);
    var eb, wb := multiset(ExerciseIds(e)), multiset(WorkoutIds(w));
    GymView.DeleteExerciseIds(w, e.id, j);
    FlattenUpdate(ws, i, w', WorkoutIds);
    assert IdBag(r) == IdBag(g) - wb + (wb - eb);
    FlattenContains(ws, i, WorkoutIds);
    FlattenContains(w.exercises, j, ExerciseIds);
    assert eb <= wb by {
      assert wb == multiset{w.id} + multiset(Flatten(w.exercises, ExerciseIds));
    }
    forall x | x in ExerciseIds(e)
      ensures x !in IdBag(r)
    {
      RemoveSubtree(IdBag(g), wb, eb, x);
    }
  }

  /** In a store with unique ids the event finds the very workout and exercise. */
  lemma StepDeleteExerciseAt(g: GymView.Gym, i: nat, j: nat)
    requires Unique(IdBag(g))
    requires i < |g.workouts| && j < |g.workouts[i].exercises|
    ensures Step(g, DeleteExerciseAt(g, i, j))
         == g.(workouts := g.workouts[i := GymView.DeleteExercise(g.workouts[i], g.workouts[i].exercises[j].id)])
  {
    var w := g.workouts[i];
    var a := DeleteExerciseAt(g, i, j);
    WorkoutIndexOfUnique(g, i);
    assert OnWorkout(w, a) == GymView.DeleteExercise(w, w.exercises[j].id);
  }

  /** The workout delete entry of a displayed workout is enabled exactly
      when the selected segment keeps a workout after the delete. */
  lemma DeleteWorkoutGuarded(g: GymView.Gym, id: Uuid)
    requires WellFormed(g)
    requires exists w | w in GymView.WorkoutsForSegment(g) :: w.id == id
    ensures GymView.CanDeleteWorkout(g) <==> |GymView.WorkoutsForSegment(Step(g, DeleteWorkout(id)))| >= 1
  {
    WellFormedDistinct(g);
    var w :| w in GymView.WorkoutsForSegment(g) && w.id == id;
    assert Step(g, DeleteWorkout(id)) == GymView.DeleteWorkout(g, w.id);
  }
}
