/**
 * The two entities of the workout planner. An exercise exists only inside the
 * ordered exercise list of a workout; only workouts are stored as rows.
 */
module Model {
  import opened Wrappers

  /** An identifier: the text form of a random UUID, generated once and never changed. */
  type Id = string

  /**
   * `id` is a `val`; `name`, `sets` and `reps` are free text (the seeds use
   * ranges such as "8-12"); `notes` is optional, and absent is not the same as "".
   */
  datatype Exercise = Exercise(id: Id, name: string, sets: string, reps: string, notes: Option<string>)

  /** `id` is the primary key of the `workouts` table; `exercises` keeps its order. */
  datatype Workout = Workout(id: Id, name: string, exercises: seq<Exercise>)

  /**
   * `Exercise(name = …, sets = …, reps = …)` with the constructor's defaults:
   * the id the UUID generator would supply is the parameter `freshId`, and
   * notes default to absent.
   */
  function NewExercise(freshId: Id, name: string, sets: string, reps: string,
                       notes: Option<string> := None): Exercise
  {
    Exercise(freshId, name, sets, reps, notes)
  }

  /** `Workout(name = …)` with the default fresh id and an empty exercise list. */
  function NewWorkout(freshId: Id, name: string, exercises: seq<Exercise> := []): Workout
  {
    Workout(freshId, name, exercises)
  }

  /** No exercise id occurs twice in one workout's list (the intended invariant; nothing enforces it). */
  predicate UniqueExerciseIds(xs: seq<Exercise>) {
    forall i, j :: 0 <= i < j < |xs| ==> xs[i].id != xs[j].id
  }

  /** Constructing an exercise without notes leaves them absent, which differs from the empty note. */
  lemma DefaultNotesAbsent(freshId: Id, name: string, sets: string, reps: string)
    ensures NewExercise(freshId, name, sets, reps).notes == None
    ensures NewExercise(freshId, name, sets, reps) != NewExercise(freshId, name, sets, reps, Some(""))
  {
  }

  /** The generated id is the one the exercise keeps, and editing any `var` field keeps it. */
  lemma ExerciseIdIsFixed(freshId: Id, name: string, sets: string, reps: string, notes: Option<string>,
                          name': string, sets': string, reps': string, notes': Option<string>)
    ensures NewExercise(freshId, name, sets, reps, notes).id == freshId
    ensures NewExercise(freshId, name, sets, reps, notes).(name := name', sets := sets', reps := reps', notes := notes').id == freshId
  {
  }

  /** A workout built without exercises has none; editing its name or list keeps its primary key. */
  lemma NewWorkoutIsEmpty(freshId: Id, name: string, name': string, exercises': seq<Exercise>)
    ensures NewWorkout(freshId, name).exercises == []
    ensures NewWorkout(freshId, name).(name := name', exercises := exercises').id == freshId
  {
  }
}
