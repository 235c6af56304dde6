/** The in-progress workout session of store/workout-store.ts: the exercises
    chosen so far, each with its sets, and the weight-unit preference, with the
    store's four actions and the projection that is persisted across restarts. */
module WorkoutStore {

  datatype WeightUnit = Lbs | Kg

  datatype WorkoutSet = WorkoutSet(id: string, reps: int, weight: int, weightUnit: WeightUnit, isCompleted: bool)

  /** `sanityId` is the id of the catalogue exercise document. */
  datatype WorkoutExercise = WorkoutExercise(id: string, sanityId: string, name: string, sets: seq<WorkoutSet>)

  /** The argument of `setWorkoutExercises`: a new list, or a function applied
      to the list held at the moment of the call. */
  datatype ExercisesUpdate =
    | WithList(exercises: seq<WorkoutExercise>)
    | WithUpdater(updater: seq<WorkoutExercise> -> seq<WorkoutExercise>)

  datatype StoreState = StoreState(workoutExercises: seq<WorkoutExercise>, weightUnit: WeightUnit)

  /** What survives a restart. */
  datatype PersistedState = PersistedState(weightUnit: WeightUnit)

  function InitialState(): (st: StoreState)
    ensures st.workoutExercises == [] && st.weightUnit == Lbs
  {
    StoreState([], Lbs)
  }

  // ---- the actions, as transitions of the store's state ----

  /** `id` stands for the freshly generated random id of the new entry. */
  function AddExercise(st: StoreState, name: string, sanityId: string, id: string): (r: StoreState)
    ensures |r.workoutExercises| == |st.workoutExercises| + 1
    ensures r.workoutExercises[..|st.workoutExercises|] == st.workoutExercises
    ensures r.workoutExercises[|st.workoutExercises|] == WorkoutExercise(id, sanityId, name, [])
    ensures r.weightUnit == st.weightUnit
  {
    st.(workoutExercises := st.workoutExercises + [WorkoutExercise(id, sanityId, name, [])])
  }

  /** The list `setWorkoutExercises` installs, given the list it finds. */
  function Resolve(u: ExercisesUpdate, prev: seq<WorkoutExercise>): seq<WorkoutExercise> {
    match u
    case WithList(xs) => xs
    case WithUpdater(f) => f(prev)
  }

  function SetExercises(st: StoreState, u: ExercisesUpdate): (r: StoreState)
    ensures u.WithList? ==> r.workoutExercises == u.exercises
    ensures u.WithUpdater? ==> r.workoutExercises == u.updater(st.workoutExercises)
    ensures r.weightUnit == st.weightUnit
  {
    st.(workoutExercises := Resolve(u, st.workoutExercises))
  }

  function SetUnit(st: StoreState, unit: WeightUnit): (r: StoreState)
    ensures r.weightUnit == unit
    ensures r.workoutExercises == st.workoutExercises
  {
    st.(weightUnit := unit)
  }

  function Reset(st: StoreState): (r: StoreState)
    ensures r.workoutExercises == []
    ensures r.weightUnit == st.weightUnit
  {
    st.(workoutExercises := [])
  }

  // ---- persistence ----

  /** Only the weight unit is written to device storage. */
  function Partialize(st: StoreState): (p: PersistedState)
    ensures p.weightUnit == st.weightUnit
  {
    PersistedState(st.weightUnit)
  }

  /** A restart: the persisted part laid over the initial state. */
  function Rehydrate(p: PersistedState): (st: StoreState)
    ensures st.workoutExercises == InitialState().workoutExercises
    ensures st.weightUnit == p.weightUnit
  {
    InitialState().(weightUnit := p.weightUnit)
  }

  // ---- properties of single actions ----

  /** Two updater calls in a row act as one updater that applies both, the
      second seeing what the first produced. */
  lemma UpdatersCompose(st: StoreState, f: seq<WorkoutExercise> -> seq<WorkoutExercise>,
                        g: seq<WorkoutExercise> -> seq<WorkoutExercise>)
    ensures SetExercises(SetExercises(st, WithUpdater(f)), WithUpdater(g)).workoutExercises
         == g(f(st.workoutExercises))
    ensures SetExercises(SetExercises(st, WithUpdater(f)), WithUpdater(g))
         == SetExercises(st, WithUpdater(xs => g(f(xs))))
  {
  }

  /** Setting the unit does not touch the exercises, nor the unit recorded
      on any of their sets, and setting it twice is setting it once. */
  lemma SetUnitProperties(st: StoreState, unit: WeightUnit, other: WeightUnit)
    ensures forall i, j :: 0 <= i < |st.workoutExercises| && 0 <= j < |st.workoutExercises[i].sets| ==>
      SetUnit(st, unit).workoutExercises[i].sets[j].weightUnit == st.workoutExercises[i].sets[j].weightUnit
    ensures SetUnit(SetUnit(st, unit), unit) == SetUnit(st, unit)
    ensures SetUnit(SetUnit(st, other), unit) == SetUnit(st, unit)
  {
  }

  lemma ResetIdempotent(st: StoreState)
    ensures Reset(Reset(st)) == Reset(st)
  {
  }

  /** A restart keeps the unit and drops the exercises, exactly as a reset
      would; persisting a restarted store writes back what was read. */
  lemma PersistRoundTrip(st: StoreState, p: PersistedState)
    ensures Rehydrate(Partialize(st)) == Reset(st)
    ensures Partialize(Rehydrate(p)) == p
    ensures Partialize(st) == Partialize(SetExercises(st, WithList([])))
  {
  }

  // ---- runs of actions ----

  datatype Action =
    | AddExerciseToWorkout(name: string, sanityId: string, id: string)
    | SetWorkoutExercises(update: ExercisesUpdate)
    | SetWeightUnit(unit: WeightUnit)
    | ResetWorkout

  function Apply(st: StoreState, a: Action): StoreState {
    match a
    case AddExerciseToWorkout(name, sanityId, id) => AddExercise(st, name, sanityId, id)
    case SetWorkoutExercises(u) => SetExercises(st, u)
    case SetWeightUnit(unit) => SetUnit(st, unit)
    case ResetWorkout => Reset(st)
  }

  /** The state after the actions, applied first to last. */
  function Run(st: StoreState, actions: seq<Action>): StoreState
    decreases |actions|
  {
    if actions == [] then st else Run(Apply(st, actions[0]), actions[1..])
  }

  /** The unit named by the last `SetWeightUnit` among the actions, or
      `default` when there is none. */
  function LastUnitSet(actions: seq<Action>, default: WeightUnit): WeightUnit
    decreases |actions|
  {
    if actions == [] then default
    else if actions[|actions| - 1].SetWeightUnit? then actions[|actions| - 1].unit
    else LastUnitSet(actions[..|actions| - 1], default)
  }

  lemma {:induction false} RunSnoc(st: StoreState, actions: seq<Action>, a: Action)
    ensures Run(st, actions + [a]) == Apply(Run(st, actions), a)
    decreases |actions|
  {
    if actions != [] {
      assert (actions + [a])[1..] == actions[1..] + [a];
      RunSnoc(Apply(st, actions[0]), actions[1..], a);
    }
  }

  /** After any run the unit is the last one set, or the starting unit. */
  lemma {:induction false} RunWeightUnit(st: StoreState, actions: seq<Action>)
    ensures Run(st, actions).weightUnit == LastUnitSet(actions, st.weightUnit)
    decreases |actions|
  {
    if actions != [] {
      var init, last := actions[..|actions| - 1], actions[|actions| - 1];
      assert actions == init + [last];
      RunSnoc(st, init, last);
      RunWeightUnit(st, init);
    }
  }

  /** A restart after any session from a fresh store brings back the last
      unit chosen (pounds if none was) and an empty exercise list. */
  lemma ReloadAfterRun(actions: seq<Action>)
    ensures Rehydrate(Partialize(Run(InitialState(), actions))) == StoreState([], LastUnitSet(actions, Lbs))
  {
    RunWeightUnit(InitialState(), actions);
  }

  /** The store object: the two fields each action overwrites. */
  class Store {
    var workoutExercises: seq<WorkoutExercise>
    var weightUnit: WeightUnit

    function State(): StoreState
      reads this
    {
      StoreState(workoutExercises, weightUnit)
    }

    constructor ()
      ensures State() == InitialState()
      ensures workoutExercises == [] && weightUnit == Lbs
    {
      workoutExercises := [];
      weightUnit := Lbs;
    }

    /** The store as created at start-up from what was persisted. */
    constructor Rehydrated(p: PersistedState)
      ensures State() == Rehydrate(p)
      ensures workoutExercises == [] && weightUnit == p.weightUnit
    {
      workoutExercises := [];
      weightUnit := p.weightUnit;
    }

    method AddExerciseToWorkout(name: string, sanityId: string, id: string)
      modifies this
      ensures State() == AddExercise(old(State()), name, sanityId, id)
      ensures workoutExercises == old(workoutExercises) + [WorkoutExercise(id, sanityId, name, [])]
      ensures weightUnit == old(weightUnit)
    {
      workoutExercises := workoutExercises + [WorkoutExercise(id, sanityId, name, [])];
    }

    method SetWorkoutExercises(u: ExercisesUpdate)
      modifies this
      ensures State() == SetExercises(old(State()), u)
      ensures workoutExercises == Resolve(u, old(workoutExercises))
      ensures weightUnit == old(weightUnit)
    {
      workoutExercises := match u
        case WithList(xs) => xs
        case WithUpdater(f) => f(workoutExercises);
    }

    method SetWeightUnit(unit: WeightUnit)
      modifies this
      ensures State() == SetUnit(old(State()), unit)
      ensures weightUnit == unit && workoutExercises == old(workoutExercises)
    {
      weightUnit := unit;
    }

    method ResetWorkout()
      modifies this
      ensures State() == Reset(old(State()))
      ensures workoutExercises == [] && weightUnit == old(weightUnit)
    {
      workoutExercises := [];
    }

    /** Two updater calls made back to back: the second sees the list the
        first produced, so no update is lost. */
    method UpdateTwice(f: seq<WorkoutExercise> -> seq<WorkoutExercise>,
                       g: seq<WorkoutExercise> -> seq<WorkoutExercise>)
      modifies this
      ensures workoutExercises == g(f(old(workoutExercises)))
      ensures weightUnit == old(weightUnit)
    {
      SetWorkoutExercises(WithUpdater(f));
      SetWorkoutExercises(WithUpdater(g));
    }
  }
}
