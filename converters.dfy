/**
 * The Room type converters for the `exercises_list` column: the repository's
 * own logic is the null handling around the JSON library.
 */
module Converters {
  import opened Wrappers
  import opened Model
  import opened ExerciseJson

  /** The exception `gson.fromJson` throws on malformed text; nothing in the converter catches it. */
  datatype ConvertError = MalformedJson

  /** `fromExerciseList`: `exercises?.let { gson.toJson(it) }`. */
  function FromExerciseList(exercises: Option<seq<Exercise>>): (text: Option<string>)
    ensures text.None? <==> exercises.None?
  {
    match exercises
    case None => None
    case Some(xs) => Some(ToJson(xs))
  }

  /**
   * `toExerciseList`: `exercisesJson?.let { gson.fromJson(it, type) } ?: mutableListOf()`.
   * The elvis covers the whole `let`, so a null text and a text that parses to
   * null both give the empty list; the result is never null.
   */
  function ToExerciseList(text: Option<string>): (r: Result<seq<Exercise>, ConvertError>)
    ensures text.None? ==> r == Success([])
  {
    match text
    case None => Success([])
    case Some(t) =>
      match FromJson(t)
      case None => Failure(MalformedJson)
      case Some(JsonNull) => Success([])
      case Some(JsonList(xs)) => Success(xs)
  }

  /** Room reads back exactly the list it wrote: order, all fields and absent notes preserved. */
  lemma RoundTrip(xs: seq<Exercise>)
    ensures FromExerciseList(Some(xs)).Some?
    ensures ToExerciseList(FromExerciseList(Some(xs))) == Success(xs)
  {
    ExerciseJson.RoundTrip(xs);
  }

  /** Encoding is injective, because decoding inverts it. */
  lemma EncodingIsInjective(xs: seq<Exercise>, ys: seq<Exercise>)
    requires FromExerciseList(Some(xs)) == FromExerciseList(Some(ys))
    ensures xs == ys
  {
    RoundTrip(xs);
    RoundTrip(ys);
  }

  /** A text that parses to JSON null, such as `null` or a blank document, is read as the empty list. */
  lemma DecodedNullIsEmpty(t: string)
    requires IsEmptyDocument(t) || Trim(t) == "null"
    ensures ToExerciseList(Some(t)) == Success([])
  {
    NullOnlyFromNullText(t);
  }

  /**
   * Malformed text is not coerced to the empty list: the empty list comes only
   * from a null text, a blank document, `null` or `[]`, with any whitespace
   * around the value.
   */
  lemma EmptyListSources(text: Option<string>)
    ensures ToExerciseList(text) == Success([]) <==>
      text.None? || IsEmptyDocument(text.value) || Trim(text.value) == "null" || Trim(text.value) == "[]"
  {
    if text.Some? {
      var t := text.value;
      NullOnlyFromNullText(t);
      EmptyListOnlyFromEmptyArray(t);
      assert ToExerciseList(text) == Success([]) <==>
        FromJson(t) == Some(JsonNull) || FromJson(t) == Some(JsonList([]));
    }
  }

  /** A non-null text whose value is neither blank, `null` nor an array makes the converter throw. */
  lemma MalformedTextFails(t: string)
    requires Trim(t) != [] && Trim(t) != "null" && Trim(t)[0] != '['
    ensures ToExerciseList(Some(t)) == Failure(MalformedJson)
  {
    NotAnArrayIsError(t);
  }

  /**
   * A text whose value opens an array but does not end with its closing
   * bracket is malformed: `[` alone, a cut-off element, a trailing comma.
   */
  lemma TruncatedArrayFails(t: string)
    requires Trim(t) != [] && Trim(t)[0] == '[' && Trim(t)[|Trim(t)| - 1] != ']'
    ensures ToExerciseList(Some(t)) == Failure(MalformedJson)
  {
    ArrayText(t);
    ElementsNeedClosingBracket(Trim(t)[1..]);
  }
}
