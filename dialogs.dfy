/**
 * The submit handlers of the two dialogs: the add/edit-exercise dialog and
 * the add-workout dialog. Their text fields and error labels are the
 * dialogs' state; the layout around them is not part of this model.
 */
module Dialogs {
  import opened Wrappers
  import opened Model
  import opened ExerciseLists
  import opened Dao
  import opened ViewModel

  /** Kotlin's `Char.isWhitespace` on the JVM: `Character.isWhitespace` or `Character.isSpaceChar`. */
  predicate IsWhitespace(c: char) {
    || ('\t' <= c <= '\r') || ('\U{1C}' <= c <= '\U{1F}') || c == ' '
    || c == '\U{A0}' || c == '\U{1680}' || ('\U{2000}' <= c <= '\U{200A}')
    || c == '\U{2028}' || c == '\U{2029}' || c == '\U{202F}' || c == '\U{205F}' || c == '\U{3000}'
  }

  /** `isBlank()`: empty, or whitespace only. */
  predicate IsBlank(s: string) {
    forall i :: 0 <= i < |s| ==> IsWhitespace(s[i])
  }

  /** `ifBlank { null }`: blank text becomes absent, any other text is kept verbatim. */
  function AbsentIfBlank(s: string): Option<string> {
    if IsBlank(s) then None else Some(s)
  }

  const NameRequired: string := "Nome é obrigatório."
  const SetsRequired: string := "Séries são obrigatórias."
  const RepsRequired: string := "Repetições são obrigatórias."
  const WorkoutNameRequired: string := "O nome do treino não pode estar vazio."

  // ------------------------------------------------- add/edit exercise

  /** The four text fields of the exercise dialog. */
  datatype Fields = Fields(name: string, sets: string, reps: string, notes: string)

  /** The initial field values: the edited exercise's, with "" for absent notes; all "" when adding. */
  function Prefill(existing: Option<Exercise>): Fields {
    match existing
    case None => Fields("", "", "", "")
    case Some(e) => Fields(e.name, e.sets, e.reps, match e.notes case None => "" case Some(n) => n)
  }

  /** What one press of the submit button hands to the ViewModel. */
  datatype Dispatch =
    | Rejected
    | AddExercise(workoutId: Id, exercise: Exercise)
    | UpdateExercise(workoutId: Id, exerciseId: Id, exercise: Exercise)

  /** The exercise built from the fields: the edited exercise's id, or a fresh one when adding. */
  function BuildExercise(existing: Option<Exercise>, freshId: Id, f: Fields): Exercise {
    Exercise(if existing.Some? then existing.value.id else freshId, f.name, f.sets, f.reps, AbsentIfBlank(f.notes))
  }

  /** The submit handler's decision for the current fields. */
  function SubmitOutcome(workoutId: Id, existing: Option<Exercise>, f: Fields, freshId: Id): Dispatch {
    if IsBlank(f.name) || IsBlank(f.sets) || IsBlank(f.reps) then Rejected
    else if existing.None? then AddExercise(workoutId, BuildExercise(existing, freshId, f))
    else UpdateExercise(workoutId, existing.value.id, BuildExercise(existing, freshId, f))
  }

  /** The table after the ViewModel has carried out a dispatch. */
  function Applied(rows: map<Id, Workout>, d: Dispatch): map<Id, Workout> {
    match d
    case Rejected => rows
    case AddExercise(w, e) => WithExerciseAdded(rows, w, e)
    case UpdateExercise(w, id, e) => WithExerciseReplaced(rows, w, id, e)
  }

  /** A submission goes through exactly when name, sets and reps are all non-blank. */
  lemma SubmitRequiresAllFields(workoutId: Id, existing: Option<Exercise>, f: Fields, freshId: Id)
    ensures SubmitOutcome(workoutId, existing, f, freshId) != Rejected
            <==> !IsBlank(f.name) && !IsBlank(f.sets) && !IsBlank(f.reps)
  {
  }

  /**
   * Adding dispatches `addExerciseToWorkout` with a fresh id; editing
   * dispatches `updateExerciseInWorkout` under the edited exercise's id, which
   * the rebuilt exercise keeps. Both go to the dialog's workout.
   */
  lemma SubmitDispatch(workoutId: Id, existing: Option<Exercise>, f: Fields, freshId: Id)
    requires SubmitOutcome(workoutId, existing, f, freshId) != Rejected
    ensures var d := SubmitOutcome(workoutId, existing, f, freshId);
      && d.workoutId == workoutId
      && (existing.None? ==> d.AddExercise? && d.exercise.id == freshId)
      && (existing.Some? ==> d.UpdateExercise? && d.exerciseId == existing.value.id && d.exercise.id == existing.value.id)
  {
  }

  /** Name, sets, reps and non-blank notes pass through untrimmed; blank notes become absent. */
  lemma SubmitCopiesFields(workoutId: Id, existing: Option<Exercise>, f: Fields, freshId: Id)
    requires SubmitOutcome(workoutId, existing, f, freshId) != Rejected
    ensures var e := SubmitOutcome(workoutId, existing, f, freshId).exercise;
      && e.name == f.name && e.sets == f.sets && e.reps == f.reps
      && (e.notes.None? <==> IsBlank(f.notes))
      && (e.notes.Some? ==> e.notes.value == f.notes)
  {
  }

  /**
   * Submitting an unedited prefill rebuilds the same exercise exactly when its
   * required fields are non-blank and its notes are absent or non-blank: a
   * blank note, "" included, comes back absent.
   */
  lemma UneditedSubmitRebuildsExercise(workoutId: Id, e: Exercise, freshId: Id)
    ensures SubmitOutcome(workoutId, Some(e), Prefill(Some(e)), freshId) == UpdateExercise(workoutId, e.id, e)
            <==> !IsBlank(e.name) && !IsBlank(e.sets) && !IsBlank(e.reps) && (e.notes.None? || !IsBlank(e.notes.value))
  {
    var f := Prefill(Some(e));
    if e.notes.Some? && IsBlank(e.notes.value) {
      assert BuildExercise(Some(e), freshId, f).notes == None;
    }
  }

  /** An edit submitted from the dialog keeps every workout's exercise ids unique. */
  lemma SubmittedEditKeepsIdsUnique(rows: map<Id, Workout>, workoutId: Id, e: Exercise, f: Fields, freshId: Id)
    requires KeyedById(rows) && ExerciseIdsUnique(rows)
    ensures ExerciseIdsUnique(Applied(rows, SubmitOutcome(workoutId, Some(e), f, freshId)))
  {
    var d := SubmitOutcome(workoutId, Some(e), f, freshId);
    if d.UpdateExercise? {
      MutationsKeepExerciseIdsUnique(rows, workoutId, e.id, d.exercise);
    }
  }

  class ExerciseDialog {
    const workoutId: Id
    /** The exercise being edited, or `None` when adding. */
    const existing: Option<Exercise>
    const viewModel: WorkoutViewModel

    var exerciseName: string
    var sets: string
    var reps: string
    var notes: string
    var nameError: Option<string>
    var setsError: Option<string>
    var repsError: Option<string>

    function Entered(): Fields
      reads this
    {
      Fields(exerciseName, sets, reps, notes)
    }

    constructor (workoutId: Id, existing: Option<Exercise>, viewModel: WorkoutViewModel)
      ensures this.workoutId == workoutId && this.existing == existing && this.viewModel == viewModel
      ensures Entered() == Prefill(existing)
      ensures nameError == None && setsError == None && repsError == None
    {
      this.workoutId, this.existing, this.viewModel := workoutId, existing, viewModel;
      var f := Prefill(existing);
      exerciseName, sets, reps, notes := f.name, f.sets, f.reps, f.notes;
      nameError, setsError, repsError := None, None, None;
    }

    /** Editing the name clears its error. */
    method EditName(text: string)
      modifies this`exerciseName, this`nameError
      ensures exerciseName == text && nameError == None
    {
      exerciseName, nameError := text, None;
    }

    /** Editing the sets clears their error. */
    method EditSets(text: string)
      modifies this`sets, this`setsError
      ensures sets == text && setsError == None
    {
      sets, setsError := text, None;
    }

    /** Editing the reps clears their error. */
    method EditReps(text: string)
      modifies this`reps, this`repsError
      ensures reps == text && repsError == None
    {
      reps, repsError := text, None;
    }

    /** The notes are optional and carry no error. */
    method EditNotes(text: string)
      modifies this`notes
      ensures notes == text
    {
      notes := text;
    }

    /**
     * The submit button. All three required fields are checked on every press,
     * each blank one setting its own error; a valid press builds the exercise,
     * calls the ViewModel and dismisses the dialog, an invalid one does neither.
     * An error already shown stays when its field is no longer blank.
     */
    method Submit(freshId: Id) returns (dispatch: Dispatch, dismissed: bool)
      requires viewModel.Valid()
      modifies this`nameError, this`setsError, this`repsError, viewModel.store
      ensures viewModel.Valid()
      ensures nameError == if IsBlank(exerciseName) then Some(NameRequired) else old(nameError)
      ensures setsError == if IsBlank(sets) then Some(SetsRequired) else old(setsError)
      ensures repsError == if IsBlank(reps) then Some(RepsRequired) else old(repsError)
      ensures dispatch == SubmitOutcome(workoutId, existing, Entered(), freshId)
      ensures dismissed <==> dispatch != Rejected
      ensures viewModel.store.rows == Applied(old(viewModel.store.rows), dispatch)
      ensures dispatch.Rejected? ==> viewModel.store.writes == old(viewModel.store.writes)
      ensures dispatch.AddExercise? ==> (viewModel.store.writes ==
        if workoutId in old(viewModel.store.rows)
        then old(viewModel.store.writes) + [Update(viewModel.store.rows[workoutId])]
        else old(viewModel.store.writes))
      ensures dispatch.UpdateExercise? ==> (viewModel.store.writes ==
        if workoutId in old(viewModel.store.rows) && HasId(old(viewModel.store.rows)[workoutId].exercises, dispatch.exerciseId)
        then old(viewModel.store.writes) + [Update(viewModel.store.rows[workoutId])]
        else old(viewModel.store.writes))
    {
      var valid := true;
      if IsBlank(exerciseName) {
        nameError := Some(NameRequired);
        valid := false;
      }
      if IsBlank(sets) {
        setsError := Some(SetsRequired);
        valid := false;
      }
      if IsBlank(reps) {
        repsError := Some(RepsRequired);
        valid := false;
      }
      dispatch, dismissed := Rejected, false;
      if valid {
        var exercise := BuildExercise(existing, freshId, Entered());
        if existing.None? {
          viewModel.AddExerciseToWorkout(workoutId, exercise);
          dispatch := AddExercise(workoutId, exercise);
        } else {
          viewModel.UpdateExerciseInWorkout(workoutId, existing.value.id, exercise);
          dispatch := UpdateExercise(workoutId, existing.value.id, exercise);
        }
        dismissed := true;
      }
    }
  }

  // ----------------------------------------------------------- add workout

  class WorkoutDialog {
    var workoutName: string
    var nameError: Option<string>

    /** The dialog opens with an empty name and no error. */
    constructor ()
      ensures workoutName == "" && nameError == None
    {
      workoutName, nameError := "", None;
    }

    /** Any edit of the name field clears the error. */
    method OnValueChange(text: string)
      modifies this
      ensures workoutName == text && nameError == None
    {
      workoutName, nameError := text, None;
    }

    /**
     * The submit button: a non-blank name is handed, untrimmed, to the
     * `onAddWorkout` callback; a blank one sets the error and calls nothing.
     */
    method Submit() returns (submitted: Option<string>)
      modifies this`nameError
      ensures submitted.Some? <==> !IsBlank(workoutName)
      ensures submitted.Some? ==> submitted.value == workoutName && nameError == old(nameError)
      ensures submitted.None? ==> nameError == Some(WorkoutNameRequired)
    {
      if !IsBlank(workoutName) {
        submitted := Some(workoutName);
      } else {
        nameError := Some(WorkoutNameRequired);
        submitted := None;
      }
    }
  }
}
