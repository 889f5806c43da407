# Workout planner data layer, in Dafny

A model of the data core of the Android workout planner *agenda_treinos*.
The app stores named workouts, each holding an ordered list of exercises
(name, sets, reps, optional notes), in one Room table. The model covers:

- the two entities `Exercise` and `Workout` (module `Model`);
- `ExerciseListConverter`, the Room type converter that turns a workout's
  exercise list into the JSON text of the `exercises_list` column and back
  (modules `ExerciseJson` and `Converters`);
- `WorkoutDao`, as a class `WorkoutStore` over a map of encoded rows, with a
  ghost map of decoded workouts and a log of the write calls it received
  (module `Dao`);
- `WorkoutViewModel`: seeding on first start, the sorted `workouts` feed,
  and the fetch-modify-write mutations (modules `ExerciseLists` and
  `ViewModel`);
- the submit handlers of `AddEditExerciseDialog` and `AddWorkoutDialog`,
  as classes holding the dialogs' field and error state (module `Dialogs`).

`MainActivity.kt` repeats the same code for the converter, the entities,
the DAO and the ViewModel (lines 38-202), as well as the workout dialog's
submit handler (lines 439-445) and the exercise dialog's prefill and submit
handler (lines 589-592 and 669-698). Each model member covers both copies;
the table cites the stand-alone files.

What is proved, in brief:

- the converter's round trip: `toExerciseList(fromExerciseList(xs)) == xs`,
  with order, every field and absent-versus-empty notes kept;
- which texts the stand-in JSON reader decodes to the empty list, and that
  malformed text is an error rather than an empty list;
- the DAO's REPLACE insert, update and delete as map updates, with the
  no-op cases;
- `getAllWorkouts` returns every stored record once, sorted by name, and
  sorted lists without repeated names are determined by their contents
  (so after seeding the listing is exactly A, B, C);
- each ViewModel mutation changes only the named workout's exercise list,
  in the way the source does. Writes happen exactly when the source issues
  them: `updateExerciseInWorkout` writes nothing when no exercise matches,
  while `deleteExerciseFromWorkout` writes back even then;
- uniqueness of exercise ids survives appending a fresh id, the dialog's
  edits (which keep the edited id) and removals;
- the dialogs reject a submission exactly when a required field is blank,
  set each error label separately, and pass the fields on untrimmed, with
  blank notes turned into absent notes.

Two behaviours of the source that the model keeps:

- `updateExerciseInWorkout` issues no write when no exercise matches
  (WorkoutViewModel.kt:64-67), while `deleteExerciseFromWorkout` writes the
  workout back whenever it exists, match or not (WorkoutViewModel.kt:75-77).
- `ORDER BY name ASC` uses SQLite's default BINARY collation, that is,
  code-point order, not a locale order.

The `workouts` table only ever holds rows the converter itself wrote
(`WorkoutStore.Valid` ties every row to `ToRow` of its workout), so a
stored row never fails to decode; `FromRow`'s failure case only concerns
text from elsewhere.

Fresh UUIDs are parameters: `freshId` for one new entity, and `SeedIds`
for the five entities seeding creates.

## Model

| member | source | states |
|---|---|---|
| Model.NewExercise | app/src/main/java/br/com/puc/agenda_treinos/data/model/Exercise.kt:9-13 | the constructor with its defaults: the fresh id stands for the generated UUID and notes default to absent |
| Model.NewWorkout | app/src/main/java/br/com/puc/agenda_treinos/data/model/Workout.kt:9-13 | the constructor with its defaults: the fresh id and an empty exercise list |
| Model.DefaultNotesAbsent | app/src/main/java/br/com/puc/agenda_treinos/data/model/Exercise.kt:9-13 | an exercise built without notes has them absent, which differs from the empty note |
| Model.ExerciseIdIsFixed | app/src/main/java/br/com/puc/agenda_treinos/data/model/Exercise.kt:9-13 | the id given at construction is the exercise's id and survives edits of every `var` field |
| Model.NewWorkoutIsEmpty | app/src/main/java/br/com/puc/agenda_treinos/data/model/Workout.kt:10-13 | a workout built by name alone has no exercises, and edits of its name or list keep its primary key |
| ExerciseJson.ToJson | app/src/main/java/br/com/puc/agenda_treinos/data/local/converter/ExerciseListConverter.kt:13 | `gson.toJson` of the list: an array of objects with id, name, sets, reps in that order, notes only when present |
| ExerciseJson.FromJson | app/src/main/java/br/com/puc/agenda_treinos/data/local/converter/ExerciseListConverter.kt:20 | `gson.fromJson` as the stand-in reader does it: whitespace around the value is skipped; a blank document or null gives JSON null, an array of such objects its list, anything else a syntax error |
| ExerciseJson.StringBodyRoundTrip | app/src/main/java/br/com/puc/agenda_treinos/data/local/converter/ExerciseListConverter.kt:13-20 | an escaped string body parses back to the same string, leaving the text after its closing quote |
| ExerciseJson.ExerciseRoundTrip | app/src/main/java/br/com/puc/agenda_treinos/data/local/converter/ExerciseListConverter.kt:13-20 | one encoded exercise object parses back to the same exercise, notes present or absent |
| ExerciseJson.TailRoundTrip | app/src/main/java/br/com/puc/agenda_treinos/data/local/converter/ExerciseListConverter.kt:13-20 | the comma-separated elements after the first parse back to the same list, in order |
| ExerciseJson.ArrayText | app/src/main/java/br/com/puc/agenda_treinos/data/local/converter/ExerciseListConverter.kt:20 | a text whose value, after the surrounding whitespace, starts with [ is read as the elements of that array |
| ExerciseJson.ElementsRoundTrip | app/src/main/java/br/com/puc/agenda_treinos/data/local/converter/ExerciseListConverter.kt:13-20 | the elements and closing bracket the encoder writes after [ parse back to the same non-empty list |
| ExerciseJson.RoundTrip | app/src/main/java/br/com/puc/agenda_treinos/data/local/converter/ExerciseListConverter.kt:13-20 | the decoder inverts the encoder on every exercise list, including the empty one |
| ExerciseJson.NullOnlyFromNullText | app/src/main/java/br/com/puc/agenda_treinos/data/local/converter/ExerciseListConverter.kt:20 | the stand-in parse yields null exactly for a blank document or the literal null with whitespace around it |
| ExerciseJson.EmptyListOnlyFromEmptyArray | app/src/main/java/br/com/puc/agenda_treinos/data/local/converter/ExerciseListConverter.kt:20 | the stand-in parse yields an empty list exactly for [] with whitespace around it |
| ExerciseJson.NotAnArrayIsError | app/src/main/java/br/com/puc/agenda_treinos/data/local/converter/ExerciseListConverter.kt:20 | a non-blank text whose value is not null and does not start with [ is a syntax error |
| ExerciseJson.ElementsNeedClosingBracket | app/src/main/java/br/com/puc/agenda_treinos/data/local/converter/ExerciseListConverter.kt:20 | the text after the opening [ of the trimmed document is a syntax error unless it ends with ], since every parser leaves a suffix of its input |
| ExerciseJson.EncodedIsArray | app/src/main/java/br/com/puc/agenda_treinos/data/local/converter/ExerciseListConverter.kt:13 | every encoding is a bare JSON array: at least two characters, starting with [ and ending with ], so no whitespace around it |
| ExerciseJson.Trim | app/src/main/java/br/com/puc/agenda_treinos/data/local/converter/ExerciseListConverter.kt:20 | the document with the whitespace before and after its value removed: empty, or starting and ending with a non-space |
| ExerciseJson.SurroundingSpaceIgnored | app/src/main/java/br/com/puc/agenda_treinos/data/local/converter/ExerciseListConverter.kt:20 | whitespace before and after the document does not change what it parses to |
| ExerciseJson.EmptyDocumentTrimsToEmpty | app/src/main/java/br/com/puc/agenda_treinos/data/local/converter/ExerciseListConverter.kt:20 | a document trims to nothing exactly when it is whitespace only |
| Converters.FromExerciseList | app/src/main/java/br/com/puc/agenda_treinos/data/local/converter/ExerciseListConverter.kt:12-14 | a null list encodes to null and a present list to present text |
| Converters.ToExerciseList | app/src/main/java/br/com/puc/agenda_treinos/data/local/converter/ExerciseListConverter.kt:17-22 | a null column decodes to the empty list, never to null |
| Converters.RoundTrip | app/src/main/java/br/com/puc/agenda_treinos/data/local/converter/ExerciseListConverter.kt:12-22 | decoding what the converter encoded gives back exactly the list written |
| Converters.EncodingIsInjective | app/src/main/java/br/com/puc/agenda_treinos/data/local/converter/ExerciseListConverter.kt:12-14 | different lists never encode to the same text |
| Converters.DecodedNullIsEmpty | app/src/main/java/br/com/puc/agenda_treinos/data/local/converter/ExerciseListConverter.kt:18-21 | text that parses to null (blank, or null with whitespace around it) decodes to the empty list, since the elvis covers the whole let |
| Converters.EmptyListSources | app/src/main/java/br/com/puc/agenda_treinos/data/local/converter/ExerciseListConverter.kt:17-22 | with the stand-in reader, the empty list comes exactly from a null column, a blank document, or null or [] with whitespace around them |
| Converters.MalformedTextFails | app/src/main/java/br/com/puc/agenda_treinos/data/local/converter/ExerciseListConverter.kt:20 | other non-blank text whose value is not an array makes the converter fail with the parser's error instead of yielding a list |
| Converters.TruncatedArrayFails | app/src/main/java/br/com/puc/agenda_treinos/data/local/converter/ExerciseListConverter.kt:20 | every text whose value opens an array but does not end with ] (`[` alone, a cut-off element, a trailing comma) makes the converter fail |
| Dao.ToRow | app/src/main/java/br/com/puc/agenda_treinos/data/model/Workout.kt:12-13 | a workout's row: id, name, and the exercise list through `fromExerciseList` in the `exercises_list` column |
| Dao.FromRow | app/src/main/java/br/com/puc/agenda_treinos/data/model/Workout.kt:12-13 | reading a row: the column through `toExerciseList`, whose failure is the read's failure |
| Dao.AfterInsert | app/src/main/java/br/com/puc/agenda_treinos/data/local/WorkoutDao.kt:14-15 | `@Insert(onConflict = REPLACE)`: the record stored under its id, replacing any record there |
| Dao.AfterUpdate | app/src/main/java/br/com/puc/agenda_treinos/data/local/WorkoutDao.kt:17-18 | `@Update`: the record with the same id replaced; no change when there is none |
| Dao.AfterDelete | app/src/main/java/br/com/puc/agenda_treinos/data/local/WorkoutDao.kt:20-21 | `@Delete`: the record with the same id removed, the other fields not consulted |
| Dao.NameLe | app/src/main/java/br/com/puc/agenda_treinos/data/local/WorkoutDao.kt:23 | `ORDER BY name ASC` under BINARY collation: character-by-character comparison, a proper prefix first |
| Dao.RowRoundTrip | app/src/main/java/br/com/puc/agenda_treinos/data/model/Workout.kt:12-13 | a workout written as a row (list through the converter) reads back unchanged |
| Dao.InsertFresh | app/src/main/java/br/com/puc/agenda_treinos/data/local/WorkoutDao.kt:14-15 | inserting under a new id adds exactly one record and keeps every other |
| Dao.NamesAreNotKeys | app/src/main/java/br/com/puc/agenda_treinos/data/model/Workout.kt:10-11 | the name is not a key: inserting a new id whose name another stored workout has adds a row, keeps the other, and any listing then shows both distinct records |
| Dao.InsertExisting | app/src/main/java/br/com/puc/agenda_treinos/data/local/WorkoutDao.kt:14-15 | inserting under an existing id replaces the whole record and keeps the key set and count |
| Dao.InsertIdempotent | app/src/main/java/br/com/puc/agenda_treinos/data/local/WorkoutDao.kt:14-15 | inserting the same workout twice equals inserting it once |
| Dao.WritesKeepKeys | app/src/main/java/br/com/puc/agenda_treinos/data/local/WorkoutDao.kt:14-21 | insert, update and delete keep every record under its own id |
| Dao.UpdateSemantics | app/src/main/java/br/com/puc/agenda_treinos/data/local/WorkoutDao.kt:17-18 | update replaces the record with that id, is a no-op for an unknown id, and never changes the count |
| Dao.DeleteSemantics | app/src/main/java/br/com/puc/agenda_treinos/data/local/WorkoutDao.kt:20-21 | delete removes by id alone, keeps every other record, is a no-op for an unknown id, and lowers the count by one otherwise |
| Dao.NameLeTotal | app/src/main/java/br/com/puc/agenda_treinos/data/local/WorkoutDao.kt:23 | the name order is total |
| Dao.NameLeTransitive | app/src/main/java/br/com/puc/agenda_treinos/data/local/WorkoutDao.kt:23 | the name order is transitive |
| Dao.NameLeAntisymmetric | app/src/main/java/br/com/puc/agenda_treinos/data/local/WorkoutDao.kt:23 | the name order is antisymmetric |
| Dao.InsertByName | app/src/main/java/br/com/puc/agenda_treinos/data/local/WorkoutDao.kt:23-24 | inserting into a listing adds exactly that workout to its elements |
| Dao.InsertByNameMembers | app/src/main/java/br/com/puc/agenda_treinos/data/local/WorkoutDao.kt:23-24 | inserting into a listing lengthens it by one and its members become the old ones plus the new workout |
| Dao.InsertByNameSorted | app/src/main/java/br/com/puc/agenda_treinos/data/local/WorkoutDao.kt:23-24 | inserting by name keeps a list sorted by name |
| Dao.SortedListsWithDistinctNamesAreEqual | app/src/main/java/br/com/puc/agenda_treinos/data/local/WorkoutDao.kt:23-24 | two name-sorted lists with the same elements and no repeated name are identical, so ORDER BY name fixes the listing |
| Dao.ListingStep | app/src/main/java/br/com/puc/agenda_treinos/data/local/WorkoutDao.kt:23-24 | inserting one more stored record by name extends a sorted listing of some ids to those ids and one more |
| Dao.WorkoutStore.constructor | app/src/main/java/br/com/puc/agenda_treinos/data/local/AppDataBase.kt:11-14 | a new database holds no workouts and has received no writes |
| Dao.WorkoutStore.InsertWorkout | app/src/main/java/br/com/puc/agenda_treinos/data/local/WorkoutDao.kt:14-15 | the table becomes the REPLACE insert of the old one, and the write is logged |
| Dao.WorkoutStore.UpdateWorkout | app/src/main/java/br/com/puc/agenda_treinos/data/local/WorkoutDao.kt:17-18 | the table becomes the update of the old one (no change for an unknown id), and the write is logged |
| Dao.WorkoutStore.DeleteWorkout | app/src/main/java/br/com/puc/agenda_treinos/data/local/WorkoutDao.kt:20-21 | the table loses the record with the workout's id, and the write is logged |
| Dao.WorkoutStore.GetWorkoutById | app/src/main/java/br/com/puc/agenda_treinos/data/local/WorkoutDao.kt:26-31 | returns the stored record decoded from its row, or null exactly when no record has that id |
| Dao.WorkoutStore.GetWorkoutsCount | app/src/main/java/br/com/puc/agenda_treinos/data/local/WorkoutDao.kt:33-34 | returns the number of stored records |
| Dao.WorkoutStore.GetAllWorkouts | app/src/main/java/br/com/puc/agenda_treinos/data/local/WorkoutDao.kt:23-24 | returns every stored record exactly once, decoded from its row, sorted by name |
| ExerciseLists.ReplaceFirst | app/src/main/java/br/com/puc/agenda_treinos/viewmodel/WorkoutViewModel.kt:63-65 | the list with its first exercise of that id replaced and everything else in place |
| ExerciseLists.RemoveAll | app/src/main/java/br/com/puc/agenda_treinos/viewmodel/WorkoutViewModel.kt:76 | `removeAll`: the list without every exercise of that id, the rest in order |
| ExerciseLists.IndexOfFirst | app/src/main/java/br/com/puc/agenda_treinos/viewmodel/WorkoutViewModel.kt:63 | returns -1 exactly when no exercise has the id, and otherwise the index of the first one that does |
| ExerciseLists.RemoveAllMatching | app/src/main/java/br/com/puc/agenda_treinos/viewmodel/WorkoutViewModel.kt:76 | returns the list without every exercise that has the id, the others in their order |
| ExerciseLists.ReplaceFirstAt | app/src/main/java/br/com/puc/agenda_treinos/viewmodel/WorkoutViewModel.kt:63-65 | replacing the first match is assignment at the first match's index: same length, all other positions kept |
| ExerciseLists.FirstMatchExists | app/src/main/java/br/com/puc/agenda_treinos/viewmodel/WorkoutViewModel.kt:63 | a list holding the id has a first index holding it |
| ExerciseLists.ReplaceFirstNoMatch | app/src/main/java/br/com/puc/agenda_treinos/viewmodel/WorkoutViewModel.kt:63-64 | with no match the list is unchanged |
| ExerciseLists.ReplaceFirstKeepsIdsUnique | app/src/main/java/br/com/puc/agenda_treinos/viewmodel/WorkoutViewModel.kt:63-65 | replacing by an exercise with the same id keeps exercise ids unique |
| ExerciseLists.RemoveAllAppend | app/src/main/java/br/com/puc/agenda_treinos/viewmodel/WorkoutViewModel.kt:76 | removal distributes over concatenation, so it can be done element by element |
| ExerciseLists.RemoveAllMembers | app/src/main/java/br/com/puc/agenda_treinos/viewmodel/WorkoutViewModel.kt:76 | the remaining exercises are exactly the old ones whose id differs; the list never grows |
| ExerciseLists.RemoveAllNoMatch | app/src/main/java/br/com/puc/agenda_treinos/viewmodel/WorkoutViewModel.kt:76 | with no match the list is unchanged |
| ExerciseLists.RemoveAllKeepsIdsUnique | app/src/main/java/br/com/puc/agenda_treinos/viewmodel/WorkoutViewModel.kt:76 | removal keeps exercise ids unique |
| ExerciseLists.AppendKeepsIdsUnique | app/src/main/java/br/com/puc/agenda_treinos/viewmodel/WorkoutViewModel.kt:53 | appending keeps exercise ids unique exactly when the new id is not already in the list |
| ViewModel.SeedWorkouts | app/src/main/java/br/com/puc/agenda_treinos/viewmodel/WorkoutViewModel.kt:26-31 | the three example workouts with their names, and the two exercises of workout A with sets and reps |
| ViewModel.WithExerciseAdded | app/src/main/java/br/com/puc/agenda_treinos/viewmodel/WorkoutViewModel.kt:49-57 | fetch, append the exercise at the end, update; no change for an unknown workout |
| ViewModel.WithExerciseReplaced | app/src/main/java/br/com/puc/agenda_treinos/viewmodel/WorkoutViewModel.kt:59-70 | fetch, replace the first exercise of that id, update; no change for an unknown workout or exercise |
| ViewModel.WithExerciseRemoved | app/src/main/java/br/com/puc/agenda_treinos/viewmodel/WorkoutViewModel.kt:72-80 | fetch, remove every exercise of that id, update; no change for an unknown workout |
| ViewModel.NameLeAfterPrefix | app/src/main/java/br/com/puc/agenda_treinos/viewmodel/WorkoutViewModel.kt:26-31 | names sharing a prefix compare as their remainders |
| ViewModel.SeedNamesAscend | app/src/main/java/br/com/puc/agenda_treinos/viewmodel/WorkoutViewModel.kt:26-31 | the three seed names are strictly ascending and distinct |
| ViewModel.SeedContents | app/src/main/java/br/com/puc/agenda_treinos/viewmodel/WorkoutViewModel.kt:25-36 | seeding stores three workouts; A holds Supino Reto then Crucifixo Inclinado with distinct ids, B and C none |
| ViewModel.SeededListing | app/src/main/java/br/com/puc/agenda_treinos/viewmodel/WorkoutViewModel.kt:15-36 | after seeding any sorted listing is exactly workouts A, B, C |
| ViewModel.AddExerciseEffect | app/src/main/java/br/com/puc/agenda_treinos/viewmodel/WorkoutViewModel.kt:49-57 | adding only touches that workout's list: the old list plus the exercise at the end; an unknown workout is a no-op |
| ViewModel.ReplaceExerciseEffect | app/src/main/java/br/com/puc/agenda_treinos/viewmodel/WorkoutViewModel.kt:59-70 | editing only touches that workout's list, replacing the first match in its position |
| ViewModel.ReplaceExerciseNoMatch | app/src/main/java/br/com/puc/agenda_treinos/viewmodel/WorkoutViewModel.kt:61-67 | editing with an unknown workout or exercise leaves the table unchanged |
| ViewModel.RemoveExerciseEffect | app/src/main/java/br/com/puc/agenda_treinos/viewmodel/WorkoutViewModel.kt:72-80 | deleting an exercise only touches that workout's list, keeping exactly the exercises with other ids; with no match the list is unchanged |
| ViewModel.MutationsKeepExerciseIdsUnique | app/src/main/java/br/com/puc/agenda_treinos/viewmodel/WorkoutViewModel.kt:49-80 | unique exercise ids survive an append of a fresh id, an edit keeping the id, and any removal |
| ViewModel.WorkoutViewModel.constructor | app/src/main/java/br/com/puc/agenda_treinos/viewmodel/WorkoutViewModel.kt:17-23 | seeds the three workouts, in order, exactly when the table is empty, and otherwise changes nothing |
| ViewModel.WorkoutViewModel.AddInitialData | app/src/main/java/br/com/puc/agenda_treinos/viewmodel/WorkoutViewModel.kt:25-36 | three REPLACE inserts of A, B, C in that order |
| ViewModel.WorkoutViewModel.Workouts | app/src/main/java/br/com/puc/agenda_treinos/viewmodel/WorkoutViewModel.kt:15 | the feed's current value lists every stored workout once, sorted by name |
| ViewModel.WorkoutViewModel.GetWorkoutById | app/src/main/java/br/com/puc/agenda_treinos/viewmodel/WorkoutViewModel.kt:45-47 | the stored workout with that id, or null exactly when there is none |
| ViewModel.WorkoutViewModel.AddWorkout | app/src/main/java/br/com/puc/agenda_treinos/viewmodel/WorkoutViewModel.kt:38-43 | inserts a new workout with that name, no exercises and the fresh id |
| ViewModel.WorkoutViewModel.AddExerciseToWorkout | app/src/main/java/br/com/puc/agenda_treinos/viewmodel/WorkoutViewModel.kt:49-57 | the table gains the exercise at the end of that workout's list; one update is written exactly when the workout exists |
| ViewModel.WorkoutViewModel.UpdateExerciseInWorkout | app/src/main/java/br/com/puc/agenda_treinos/viewmodel/WorkoutViewModel.kt:59-70 | the first matching exercise is replaced; one update is written exactly when workout and exercise both exist |
| ViewModel.WorkoutViewModel.DeleteExerciseFromWorkout | app/src/main/java/br/com/puc/agenda_treinos/viewmodel/WorkoutViewModel.kt:72-80 | every matching exercise is removed; one update is written whenever the workout exists, match or not |
| ViewModel.WorkoutViewModel.DeleteWorkout | app/src/main/java/br/com/puc/agenda_treinos/viewmodel/WorkoutViewModel.kt:82-86 | the workout's record is deleted by id, together with its exercises, and the delete is written |
| Dialogs.IsWhitespace | app/src/main/java/br/com/puc/agenda_treinos/ui/screens/workoutdetails/composables/AddEditExerciseDialog.kt:103 | Kotlin's `Char.isWhitespace` on the JVM: the ASCII controls tab to carriage return, the separators 0x1C-0x1F, space and the Unicode space separators |
| Dialogs.IsBlank | app/src/main/java/br/com/puc/agenda_treinos/ui/screens/workoutdetails/composables/AddEditExerciseDialog.kt:103-111 | `isBlank()`: every character is whitespace, the empty text included; also `isNotBlank()` in AddWorkoutDialog.kt:55 |
| Dialogs.AbsentIfBlank | app/src/main/java/br/com/puc/agenda_treinos/ui/screens/workoutdetails/composables/AddEditExerciseDialog.kt:122 | `ifBlank { null }`: blank text becomes absent, other text is kept verbatim |
| Dialogs.Prefill | app/src/main/java/br/com/puc/agenda_treinos/ui/screens/workoutdetails/composables/AddEditExerciseDialog.kt:21-24 | the initial fields: the edited exercise's values with absent notes as "", or all empty when adding |
| Dialogs.BuildExercise | app/src/main/java/br/com/puc/agenda_treinos/ui/screens/workoutdetails/composables/AddEditExerciseDialog.kt:117-123 | the exercise built on submit: the edited exercise's id or a fresh one, the fields verbatim, notes through `ifBlank { null }` |
| Dialogs.SubmitOutcome | app/src/main/java/br/com/puc/agenda_treinos/ui/screens/workoutdetails/composables/AddEditExerciseDialog.kt:101-128 | rejected when any required field is blank; otherwise the add call when adding and the update call under the edited id when editing |
| Dialogs.SubmitRequiresAllFields | app/src/main/java/br/com/puc/agenda_treinos/ui/screens/workoutdetails/composables/AddEditExerciseDialog.kt:101-116 | a submission goes through exactly when name, sets and reps are all non-blank |
| Dialogs.SubmitDispatch | app/src/main/java/br/com/puc/agenda_treinos/ui/screens/workoutdetails/composables/AddEditExerciseDialog.kt:117-128 | adding calls addExerciseToWorkout with a fresh id; editing calls updateExerciseInWorkout under the edited exercise's id, which the new exercise keeps |
| Dialogs.SubmitCopiesFields | app/src/main/java/br/com/puc/agenda_treinos/ui/screens/workoutdetails/composables/AddEditExerciseDialog.kt:117-123 | name, sets and reps are passed untrimmed; notes become absent exactly when blank and are otherwise passed untrimmed |
| Dialogs.UneditedSubmitRebuildsExercise | app/src/main/java/br/com/puc/agenda_treinos/ui/screens/workoutdetails/composables/AddEditExerciseDialog.kt:21-24 | saving an unedited prefill writes back the same exercise exactly when its required fields are non-blank and its notes are absent or non-blank |
| Dialogs.SubmittedEditKeepsIdsUnique | app/src/main/java/br/com/puc/agenda_treinos/ui/screens/workoutdetails/composables/AddEditExerciseDialog.kt:118-127 | an edit submitted from the dialog keeps every workout's exercise ids unique |
| Dialogs.ExerciseDialog.constructor | app/src/main/java/br/com/puc/agenda_treinos/ui/screens/workoutdetails/composables/AddEditExerciseDialog.kt:21-28 | fields start from the edited exercise (absent notes as ""), or all empty when adding; no errors |
| Dialogs.ExerciseDialog.EditName | app/src/main/java/br/com/puc/agenda_treinos/ui/screens/workoutdetails/composables/AddEditExerciseDialog.kt:47 | editing the name clears its error |
| Dialogs.ExerciseDialog.EditSets | app/src/main/java/br/com/puc/agenda_treinos/ui/screens/workoutdetails/composables/AddEditExerciseDialog.kt:60 | editing the sets clears their error |
| Dialogs.ExerciseDialog.EditReps | app/src/main/java/br/com/puc/agenda_treinos/ui/screens/workoutdetails/composables/AddEditExerciseDialog.kt:73 | editing the reps clears their error |
| Dialogs.ExerciseDialog.EditNotes | app/src/main/java/br/com/puc/agenda_treinos/ui/screens/workoutdetails/composables/AddEditExerciseDialog.kt:86 | editing the notes changes only the notes |
| Dialogs.ExerciseDialog.Submit | app/src/main/java/br/com/puc/agenda_treinos/ui/screens/workoutdetails/composables/AddEditExerciseDialog.kt:101-130 | each blank required field sets its own error and the rest keep theirs; a valid press performs the ViewModel call with the table change and write it implies and dismisses; an invalid one changes no data |
| Dialogs.WorkoutDialog.constructor | app/src/main/java/br/com/puc/agenda_treinos/ui/screens/workoutlist/composables/AddWorkoutDialog.kt:14-15 | the dialog opens with an empty name and no error |
| Dialogs.WorkoutDialog.OnValueChange | app/src/main/java/br/com/puc/agenda_treinos/ui/screens/workoutlist/composables/AddWorkoutDialog.kt:29 | editing the name clears the error |
| Dialogs.WorkoutDialog.Submit | app/src/main/java/br/com/puc/agenda_treinos/ui/screens/workoutlist/composables/AddWorkoutDialog.kt:54-59 | a non-blank name is handed on untrimmed with the error untouched; a blank name sets the error and hands nothing on |

## Left out

- The reactive feeds (`Flow`): `Workouts` and `GetWorkoutById` return the value a feed currently holds; re-emission after each commit is represented only by the write log.
- `viewModelScope.launch`: each launched block is one atomic step here, so the fetch-modify-write race between two concurrent mutations of one workout (a lost update) is not modelled.
- UUID generation: fresh ids are parameters, and the model assumes seeding's five of them are distinct.
- Gson: a hand-written JSON codec stands in for it. It writes Gson's default layout (fields in declaration order, null notes omitted, no whitespace). It reads back exactly that layout, together with a blank document and the literal null, and skips whitespace around the top-level value.
- Gson's escaping: the codec escapes only `"` and a backslash, not Gson's HTML-safe and control-character escapes.
- Gson's parsing tolerance: other field orders, unknown or repeated fields, whitespace inside the text and Gson's lenient syntax are not modelled, so a decode can fail in the model where Gson would accept.
- ExerciseJson.FromJson: skips whitespace only around the top-level value; whitespace inside it (`[ ]`, `{ "id" : …}`), other field orders and Gson's lenient syntax are rejected, where Gson accepts them.
- ExerciseJson.NullOnlyFromNullText: states what the stand-in reader yields null for; Gson also yields null for inputs outside the stand-in's syntax.
- ExerciseJson.EmptyListOnlyFromEmptyArray: `[ ]` and other arrays with interior whitespace are not counted, since the stand-in reader rejects them.
- ExerciseJson.NotAnArrayIsError: holds of the stand-in reader; Gson's lenient mode would accept some such texts.
- ExerciseJson.ElementsNeedClosingBracket: about the stand-in reader's element syntax, which has no interior whitespace.
- Converters.EmptyListSources: `[ ]` and other empty arrays with interior whitespace are missing from the list of sources, as the stand-in reader rejects them.
- Converters.MalformedTextFails: holds of the stand-in reader; text Gson's lenient mode accepts may fail here.
- Converters.TruncatedArrayFails: holds of the stand-in reader; the texts it names are also malformed for Gson, but the stand-in reader rejects more.
- `AppDatabase`: the process-wide singleton, its locking and the schema are not modelled. The `exercises` entity annotation does not register a table, so only `workouts` exists.
- `WorkoutViewModelFactory`, navigation and screen layouts: no data logic.
- Compose recomposition and dialog dismissal: `Submit`'s `dismissed` result stands for the `onDismiss()` call. The screen closing the workout dialog and calling `addWorkout` is not modelled.
- Dao.NameLe: models SQLite's default BINARY collation as code-point order on `string`, because the model has no UTF-8 encoding of names.
