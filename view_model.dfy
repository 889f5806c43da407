/**
 * `WorkoutViewModel`: the single entry point for changes. Each launched block
 * is one atomic step here: fetch the workout, change its exercise list, write
 * the whole record back.
 */
module ViewModel {
  import opened Wrappers
  import opened Model
  import opened ExerciseLists
  import opened Dao

  // --------------------------------------------------------------- seeding

  /** The ids the UUID generator supplies while seeding: three workouts and two exercises. */
  datatype SeedIds = SeedIds(workoutA: Id, workoutB: Id, workoutC: Id, exercise1: Id, exercise2: Id)

  /** Fresh UUIDs differ from one another. */
  predicate DistinctSeedIds(ids: SeedIds) {
    && ids.workoutA != ids.workoutB && ids.workoutA != ids.workoutC && ids.workoutB != ids.workoutC
    && ids.exercise1 != ids.exercise2
  }

  /** The three seed names share this beginning. */
  const SeedNamePrefix: string := "Treino "

  /** The three example workouts of `addInitialData`, in the order they are inserted. */
  function SeedWorkouts(ids: SeedIds): seq<Workout> {
    [ NewWorkout(ids.workoutA, SeedNamePrefix + "A - Peito e Tríceps",
        [ NewExercise(ids.exercise1, "Supino Reto", "4", "8-12"),
          NewExercise(ids.exercise2, "Crucifixo Inclinado", "3", "10-15") ]),
      NewWorkout(ids.workoutB, SeedNamePrefix + "B - Costas e Bíceps"),
      NewWorkout(ids.workoutC, SeedNamePrefix + "C - Pernas e Ombros") ]
  }

  /** The table after the three seed inserts into an empty table. */
  function Seeded(ids: SeedIds): map<Id, Workout> {
    var s := SeedWorkouts(ids);
    AfterInsert(AfterInsert(AfterInsert(map[], s[0]), s[1]), s[2])
  }

  /** Names that differ after a common prefix compare as their remainders do. */
  lemma {:induction false} NameLeAfterPrefix(p: string, a: string, b: string)
    ensures NameLe(p + a, p + b) == NameLe(a, b)
  {
    if p == [] {
      assert p + a == a && p + b == b;
    } else {
      assert (p + a)[0] == p[0] == (p + b)[0];
      assert (p + a)[1..] == p[1..] + a && (p + b)[1..] == p[1..] + b;
      NameLeAfterPrefix(p[1..], a, b);
    }
  }

  /** The seed names are in strictly increasing order. */
  lemma SeedNamesAscend(ids: SeedIds)
    ensures SortedByName(SeedWorkouts(ids)) && DistinctNames(SeedWorkouts(ids))
  {
    var a, b, c := "A - Peito e Tríceps", "B - Costas e Bíceps", "C - Pernas e Ombros";
    NameLeAfterPrefix(SeedNamePrefix, a, b);
    NameLeAfterPrefix(SeedNamePrefix, b, c);
    NameLeAfterPrefix(SeedNamePrefix, a, c);
    assert (SeedNamePrefix + a)[7] == 'A' && (SeedNamePrefix + b)[7] == 'B' && (SeedNamePrefix + c)[7] == 'C';
  }

  /**
   * Seeding stores three workouts; the first holds exactly the exercises
   * "Supino Reto" then "Crucifixo Inclinado", the other two none.
   */
  lemma SeedContents(ids: SeedIds)
    requires DistinctSeedIds(ids)
    ensures |Seeded(ids)| == 3
    ensures Seeded(ids).Keys == {ids.workoutA, ids.workoutB, ids.workoutC}
    ensures [Seeded(ids)[ids.workoutA].exercises[0].name, Seeded(ids)[ids.workoutA].exercises[1].name]
            == ["Supino Reto", "Crucifixo Inclinado"]
    ensures |Seeded(ids)[ids.workoutA].exercises| == 2
    ensures Seeded(ids)[ids.workoutB].exercises == [] && Seeded(ids)[ids.workoutC].exercises == []
    ensures UniqueExerciseIds(Seeded(ids)[ids.workoutA].exercises)
  {
  }

  /** After seeding, the sorted listing is workout A, then B, then C. */
  lemma SeededListing(ids: SeedIds, ws: seq<Workout>)
    requires DistinctSeedIds(ids)
    requires IsListing(Seeded(ids), ws)
    ensures ws == SeedWorkouts(ids)
  {
    var s := SeedWorkouts(ids);
    var rows := Seeded(ids);
    assert rows == map[ids.workoutA := s[0], ids.workoutB := s[1], ids.workoutC := s[2]];
    assert multiset(s) == multiset{s[0], s[1], s[2]};
    assert forall i :: 0 <= i < |ws| ==> ws[i] in s by {
      forall i | 0 <= i < |ws| ensures ws[i] in s {
        assert ws[i] == rows[ws[i].id];
      }
    }
    forall x ensures multiset(ws)[x] == multiset(s)[x] {
      if x in s {
        assert x == rows[x.id];
      } else {
        assert x !in ws;
      }
    }
    assert multiset(ws) == multiset(s);
    SeedNamesAscend(ids);
    SortedListsWithDistinctNamesAreEqual(s, ws);
  }

  // ------------------------------------------------------ mutation effects

  /** `addExerciseToWorkout`: the exercise appended to the workout's list, if the workout exists. */
  function WithExerciseAdded(rows: map<Id, Workout>, workoutId: Id, e: Exercise): map<Id, Workout> {
    if workoutId in rows
    then AfterUpdate(rows, rows[workoutId].(exercises := rows[workoutId].exercises + [e]))
    else rows
  }

  /** `updateExerciseInWorkout`: the first exercise with that id replaced, if both exist. */
  function WithExerciseReplaced(rows: map<Id, Workout>, workoutId: Id, exerciseId: Id, e: Exercise): map<Id, Workout> {
    if workoutId in rows && HasId(rows[workoutId].exercises, exerciseId)
    then AfterUpdate(rows, rows[workoutId].(exercises := ReplaceFirst(rows[workoutId].exercises, exerciseId, e)))
    else rows
  }

  /** `deleteExerciseFromWorkout`: every exercise with that id removed, if the workout exists. */
  function WithExerciseRemoved(rows: map<Id, Workout>, workoutId: Id, exerciseId: Id): map<Id, Workout> {
    if workoutId in rows
    then AfterUpdate(rows, rows[workoutId].(exercises := RemoveAll(rows[workoutId].exercises, exerciseId)))
    else rows
  }

  /** Only `workoutId`'s record may change, and its id and name do not. */
  ghost predicate ChangesOnlyExercises(rows: map<Id, Workout>, rows': map<Id, Workout>, workoutId: Id) {
    && rows'.Keys == rows.Keys
    && (forall id :: id in rows && id != workoutId ==> rows'[id] == rows[id])
    && (workoutId in rows ==> rows'[workoutId].id == rows[workoutId].id && rows'[workoutId].name == rows[workoutId].name)
  }

  /** Appending: a no-op on an absent workout; otherwise the old list is a prefix and the length grows by one. */
  lemma AddExerciseEffect(rows: map<Id, Workout>, workoutId: Id, e: Exercise)
    requires KeyedById(rows)
    ensures ChangesOnlyExercises(rows, WithExerciseAdded(rows, workoutId, e), workoutId)
    ensures workoutId !in rows ==> WithExerciseAdded(rows, workoutId, e) == rows
    ensures workoutId in rows ==>
      var xs, ys := rows[workoutId].exercises, WithExerciseAdded(rows, workoutId, e)[workoutId].exercises;
      |ys| == |xs| + 1 && ys[..|xs|] == xs && ys[|xs|] == e
  {
  }

  /**
   * Replacing: at the first match's own index, with the length and every other
   * position unchanged; with no such workout or exercise the table is unchanged.
   */
  lemma ReplaceExerciseEffect(rows: map<Id, Workout>, workoutId: Id, exerciseId: Id, e: Exercise, k: int)
    requires KeyedById(rows)
    requires workoutId in rows ==> IsFirstMatch(rows[workoutId].exercises, exerciseId, k)
    ensures ChangesOnlyExercises(rows, WithExerciseReplaced(rows, workoutId, exerciseId, e), workoutId)
    ensures workoutId in rows ==>
      WithExerciseReplaced(rows, workoutId, exerciseId, e)[workoutId].exercises == rows[workoutId].exercises[k := e]
  {
    if workoutId in rows {
      ReplaceFirstAt(rows[workoutId].exercises, exerciseId, e, k);
    }
  }

  /** With no matching exercise, replacing leaves the table as it was. */
  lemma ReplaceExerciseNoMatch(rows: map<Id, Workout>, workoutId: Id, exerciseId: Id, e: Exercise)
    requires workoutId !in rows || !HasId(rows[workoutId].exercises, exerciseId)
    ensures WithExerciseReplaced(rows, workoutId, exerciseId, e) == rows
  {
  }

  /** Removing: the list loses exactly the exercises with that id; with no match its content is unchanged. */
  lemma RemoveExerciseEffect(rows: map<Id, Workout>, workoutId: Id, exerciseId: Id)
    requires KeyedById(rows)
    ensures ChangesOnlyExercises(rows, WithExerciseRemoved(rows, workoutId, exerciseId), workoutId)
    ensures workoutId in rows ==>
      var xs, ys := rows[workoutId].exercises, WithExerciseRemoved(rows, workoutId, exerciseId)[workoutId].exercises;
      (forall x :: x in ys <==> x in xs && x.id != exerciseId) && (!HasId(xs, exerciseId) ==> ys == xs)
  {
    if workoutId in rows {
      RemoveAllMembers(rows[workoutId].exercises, exerciseId);
      if !HasId(rows[workoutId].exercises, exerciseId) {
        RemoveAllNoMatch(rows[workoutId].exercises, exerciseId);
      }
    }
  }

  /** Every workout's exercise ids are unique. */
  ghost predicate ExerciseIdsUnique(rows: map<Id, Workout>) {
    forall id :: id in rows ==> UniqueExerciseIds(rows[id].exercises)
  }

  /**
   * Uniqueness of exercise ids survives an append of a fresh id, an edit that
   * keeps the edited exercise's id, and any removal.
   */
  lemma MutationsKeepExerciseIdsUnique(rows: map<Id, Workout>, workoutId: Id, exerciseId: Id, e: Exercise)
    requires KeyedById(rows) && ExerciseIdsUnique(rows)
    ensures workoutId in rows && !HasId(rows[workoutId].exercises, e.id) ==>
      ExerciseIdsUnique(WithExerciseAdded(rows, workoutId, e))
    ensures e.id == exerciseId ==> ExerciseIdsUnique(WithExerciseReplaced(rows, workoutId, exerciseId, e))
    ensures ExerciseIdsUnique(WithExerciseRemoved(rows, workoutId, exerciseId))
  {
    if workoutId in rows {
      var xs := rows[workoutId].exercises;
      AppendKeepsIdsUnique(xs, e);
      RemoveAllKeepsIdsUnique(xs, exerciseId);
      if e.id == exerciseId && HasId(xs, exerciseId) {
        var k := FirstMatchExists(xs, exerciseId);
        ReplaceFirstKeepsIdsUnique(xs, exerciseId, e, k);
      }
    }
  }

  // --------------------------------------------------------- the ViewModel

  class WorkoutViewModel {
    /** The DAO of the process-wide database. */
    const store: WorkoutStore

    ghost predicate Valid()
      reads this, store
    {
      store.Valid()
    }

    /** `init`: seeds the three example workouts when the table is empty, and only then. */
    constructor (store: WorkoutStore, seedIds: SeedIds)
      requires store.Valid() && DistinctSeedIds(seedIds)
      modifies store
      ensures this.store == store && Valid()
      ensures |old(store.rows)| == 0 ==>
        && store.rows == Seeded(seedIds)
        && store.writes == old(store.writes) + [Insert(SeedWorkouts(seedIds)[0]),
             Insert(SeedWorkouts(seedIds)[1]), Insert(SeedWorkouts(seedIds)[2])]
      ensures |old(store.rows)| != 0 ==> store.rows == old(store.rows) && store.writes == old(store.writes)
    {
      this.store := store;
      new;
      var count := store.GetWorkoutsCount();
      if count == 0 {
        assert store.rows == map[];
        AddInitialData(seedIds);
      }
    }

    /** `addInitialData`: three inserts, workout A first. */
    method AddInitialData(ids: SeedIds)
      requires Valid()
      modifies store
      ensures Valid()
      ensures var s := SeedWorkouts(ids);
        && store.rows == AfterInsert(AfterInsert(AfterInsert(old(store.rows), s[0]), s[1]), s[2])
        && store.writes == old(store.writes) + [Insert(s[0]), Insert(s[1]), Insert(s[2])]
    {
      var s := SeedWorkouts(ids);
      store.InsertWorkout(s[0]);
      store.InsertWorkout(s[1]);
      store.InsertWorkout(s[2]);
    }

    /** The `workouts` feed's current value. */
    method Workouts() returns (ws: seq<Workout>)
      requires Valid()
      ensures IsListing(store.rows, ws) && |ws| == |store.rows|
    {
      ws := store.GetAllWorkouts();
    }

    /** `getWorkoutById`'s current value. */
    method GetWorkoutById(id: Id) returns (r: Option<Workout>)
      requires Valid()
      ensures r.Some? <==> id in store.rows
      ensures r.Some? ==> r.value == store.rows[id]
    {
      r := store.GetWorkoutById(id);
    }

    /** `addWorkout`: a new workout with the given name and no exercises, under a fresh id. */
    method AddWorkout(name: string, freshId: Id)
      requires Valid()
      modifies store
      ensures Valid()
      ensures store.rows == AfterInsert(old(store.rows), NewWorkout(freshId, name))
      ensures store.writes == old(store.writes) + [Insert(NewWorkout(freshId, name))]
    {
      store.InsertWorkout(NewWorkout(freshId, name));
    }

    method AddExerciseToWorkout(workoutId: Id, exercise: Exercise)
      requires Valid()
      modifies store
      ensures Valid()
      ensures store.rows == WithExerciseAdded(old(store.rows), workoutId, exercise)
      ensures store.writes == if workoutId in old(store.rows)
        then old(store.writes) + [Update(store.rows[workoutId])]
        else old(store.writes)
    {
      var workout := store.GetWorkoutById(workoutId);
      if workout.Some? {
        var it := workout.value;
        store.UpdateWorkout(it.(exercises := it.exercises + [exercise]));
      }
    }

    /** Writes back only when the workout exists and holds an exercise with that id. */
    method UpdateExerciseInWorkout(workoutId: Id, exerciseId: Id, updatedExercise: Exercise)
      requires Valid()
      modifies store
      ensures Valid()
      ensures store.rows == WithExerciseReplaced(old(store.rows), workoutId, exerciseId, updatedExercise)
      ensures store.writes == if workoutId in old(store.rows) && HasId(old(store.rows)[workoutId].exercises, exerciseId)
        then old(store.writes) + [Update(store.rows[workoutId])]
        else old(store.writes)
    {
      var workout := store.GetWorkoutById(workoutId);
      if workout.Some? {
        var it := workout.value;
        var index := IndexOfFirst(it.exercises, exerciseId);
        if index != -1 {
          ReplaceFirstAt(it.exercises, exerciseId, updatedExercise, index);
          store.UpdateWorkout(it.(exercises := it.exercises[index := updatedExercise]));
        }
      }
    }

    /** Writes back whenever the workout exists, even when nothing matched. */
    method DeleteExerciseFromWorkout(workoutId: Id, exerciseId: Id)
      requires Valid()
      modifies store
      ensures Valid()
      ensures store.rows == WithExerciseRemoved(old(store.rows), workoutId, exerciseId)
      ensures store.writes == if workoutId in old(store.rows)
        then old(store.writes) + [Update(store.rows[workoutId])]
        else old(store.writes)
    {
      var workout := store.GetWorkoutById(workoutId);
      if workout.Some? {
        var it := workout.value;
        var kept := RemoveAllMatching(it.exercises, exerciseId);
        store.UpdateWorkout(it.(exercises := kept));
      }
    }

    /** Deletes by the workout's id; its exercises go with it. */
    method DeleteWorkout(workout: Workout)
      requires Valid()
      modifies store
      ensures Valid()
      ensures store.rows == AfterDelete(old(store.rows), workout)
      ensures store.writes == old(store.writes) + [Delete(workout)]
    {
      store.DeleteWorkout(workout);
    }
  }
}
