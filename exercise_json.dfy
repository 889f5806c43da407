/**
 * A hand-written stand-in for the Gson serialisation of `MutableList<Exercise>`.
 * The encoder writes the layout Gson writes for these records with its default
 * settings: a JSON array of objects with the fields in declaration order, and a
 * null `notes` left out of its object; only `"` and `\` are escaped. The
 * parser skips whitespace around the top-level value, as Gson does, and reads
 * back that canonical layout, the literal `null`, and an empty or
 * whitespace-only document (for which Gson returns null); any other text is a
 * syntax error.
 */
module ExerciseJson {
  import opened Wrappers
  import opened Model

  /** A parsed document: the JSON literal `null`, or an array of exercises. */
  datatype Json = JsonNull | JsonList(items: seq<Exercise>)

  /** A parsed value and the text that follows it. */
  datatype Parsed<T> = Parsed(value: T, rest: string)

  // ---------------------------------------------------------------- encoder
  // Each writer returns the JSON text of its value followed by `rest`, the
  // text written after it.

  /** The body of a string literal: `"` and `\` are escaped with a backslash. */
  function WriteEscaped(s: string, rest: string): string {
    if s == [] then rest
    else if s[0] == '"' || s[0] == '\\' then ['\\', s[0]] + WriteEscaped(s[1..], rest)
    else [s[0]] + WriteEscaped(s[1..], rest)
  }

  function WriteString(s: string, rest: string): string {
    "\"" + WriteEscaped(s, "\"" + rest)
  }

  /** A member `key` (written with its quotes, colon and any leading comma) and its string value. */
  function WriteField(key: string, s: string, rest: string): string {
    key + WriteString(s, rest)
  }

  /** The `"notes"` member, written only when notes are present. */
  function WriteNotes(notes: Option<string>, rest: string): string {
    match notes
    case None => rest
    case Some(n) => WriteField(",\"notes\":", n, rest)
  }

  function WriteExercise(e: Exercise, rest: string): string {
    WriteField("{\"id\":", e.id,
      WriteField(",\"name\":", e.name,
        WriteField(",\"sets\":", e.sets,
          WriteField(",\"reps\":", e.reps,
            WriteNotes(e.notes, "}" + rest)))))
  }

  /** Every exercise of `xs`, each preceded by a comma. */
  function WriteTail(xs: seq<Exercise>, rest: string): string {
    if xs == [] then rest else "," + WriteExercise(xs[0], WriteTail(xs[1..], rest))
  }

  /** `gson.toJson(list)`. */
  function ToJson(xs: seq<Exercise>): string {
    if xs == [] then "[]" else "[" + WriteExercise(xs[0], WriteTail(xs[1..], "]"))
  }

  // ----------------------------------------------------------------- parser

  /** The text after `lit`, when `t` starts with `lit`. */
  function Expect(lit: string, t: string): (r: Option<string>)
    ensures r.Some? <==> |lit| <= |t| && t[..|lit|] == lit
    ensures r.Some? ==> t == lit + r.value
  {
    if |lit| <= |t| && t[..|lit|] == lit then Some(t[|lit|..]) else None
  }

  /** Reads the body of a string literal up to and including its closing quote. */
  function ParseStringBody(t: string): (r: Option<Parsed<string>>)
    ensures r.Some? ==> |r.value.rest| < |t|
    decreases |t|
  {
    if t == [] then None
    else if t[0] == '"' then Some(Parsed([], t[1..]))
    else if t[0] == '\\' then
      if |t| >= 2 && (t[1] == '"' || t[1] == '\\') then
        var body :- ParseStringBody(t[2..]);
        Some(Parsed([t[1]] + body.value, body.rest))
      else None
    else
      var body :- ParseStringBody(t[1..]);
      Some(Parsed([t[0]] + body.value, body.rest))
  }

  function ParseString(t: string): (r: Option<Parsed<string>>)
    ensures r.Some? ==> |r.value.rest| < |t|
  {
    var t1 :- Expect("\"", t);
    ParseStringBody(t1)
  }

  /** A member `key` (written with its quotes, colon and any leading comma) and its string value. */
  function ParseField(key: string, t: string): (r: Option<Parsed<string>>)
    ensures r.Some? ==> |r.value.rest| < |t|
  {
    var t1 :- Expect(key, t);
    ParseString(t1)
  }

  /** After `reps`: either the closing brace, or the `notes` member and then the closing brace. */
  function ParseNotesAndClose(t: string): (r: Option<Parsed<Option<string>>>)
    ensures r.Some? ==> |r.value.rest| < |t|
  {
    if |t| > 0 && t[0] == '}' then Some(Parsed(None, t[1..]))
    else
      var notes :- ParseField(",\"notes\":", t);
      var t1 :- Expect("}", notes.rest);
      Some(Parsed(Some(notes.value), t1))
  }

  function ParseExercise(t: string): (r: Option<Parsed<Exercise>>)
    ensures r.Some? ==> |r.value.rest| < |t|
  {
    var id :- ParseField("{\"id\":", t);
    var name :- ParseField(",\"name\":", id.rest);
    var sets :- ParseField(",\"sets\":", name.rest);
    var reps :- ParseField(",\"reps\":", sets.rest);
    var notes :- ParseNotesAndClose(reps.rest);
    Some(Parsed(Exercise(id.value, name.value, sets.value, reps.value, notes.value), notes.rest))
  }

  /** Reads `,object` repeatedly; stops, without consuming it, at the first text that is not a comma. */
  function ParseTail(t: string): (r: Option<Parsed<seq<Exercise>>>)
    ensures r.Some? ==> |r.value.rest| <= |t|
    decreases |t|
  {
    if |t| > 0 && t[0] == ',' then
      var first :- ParseExercise(t[1..]);
      var more :- ParseTail(first.rest);
      Some(Parsed([first.value] + more.value, more.rest))
    else Some(Parsed([], t))
  }

  /** The whitespace characters of JSON. */
  predicate IsJsonSpace(c: char) {
    c == ' ' || c == '\t' || c == '\n' || c == '\r'
  }

  /** An empty or whitespace-only document, which Gson reads as null. */
  predicate IsEmptyDocument(t: string) {
    forall i :: 0 <= i < |t| ==> IsJsonSpace(t[i])
  }

  /** `t` without the whitespace in front of the value. */
  function TrimStart(t: string): (r: string)
    ensures |r| <= |t| && r == t[|t| - |r|..]
    ensures r == [] || !IsJsonSpace(r[0])
  {
    if t != [] && IsJsonSpace(t[0]) then TrimStart(t[1..]) else t
  }

  /** `t` without the whitespace after the value. */
  function TrimEnd(t: string): (r: string)
    ensures |r| <= |t| && r == t[..|r|]
    ensures r == [] || !IsJsonSpace(r[|r| - 1])
  {
    if t != [] && IsJsonSpace(t[|t| - 1]) then TrimEnd(t[..|t| - 1]) else t
  }

  /** The document without the whitespace around its value, which the reader skips. */
  function Trim(t: string): (r: string)
    ensures r == [] || (!IsJsonSpace(r[0]) && !IsJsonSpace(r[|r| - 1]))
  {
    TrimEnd(TrimStart(t))
  }

  /** The elements of an array and its closing bracket, after the opening one; nothing may follow. */
  function ParseElements(t: string): (r: Option<Json>)
    ensures r.Some? ==> r.value.JsonList?
  {
    if t == "]" then Some(JsonList([]))
    else
      var first :- ParseExercise(t);
      var more :- ParseTail(first.rest);
      if more.rest == "]" then Some(JsonList([first.value] + more.value)) else None
  }

  /** `gson.fromJson(text, type)`: `None` is the syntax error Gson throws. */
  function FromJson(t: string): Option<Json> {
    var u := Trim(t);
    if u == [] || u == "null" then Some(JsonNull)
    else
      var t1 :- Expect("[", u);
      ParseElements(t1)
  }

  // ------------------------------------------------------------ round trip

  lemma ExpectPrefix(lit: string, rest: string)
    ensures Expect(lit, lit + rest) == Some(rest)
  {
    assert (lit + rest)[..|lit|] == lit;
    assert (lit + rest)[|lit|..] == rest;
  }

  lemma {:induction false} StringBodyRoundTrip(s: string, rest: string)
    ensures ParseStringBody(WriteEscaped(s, "\"" + rest)) == Some(Parsed(s, rest))
  {
    if s == [] {
      assert WriteEscaped(s, "\"" + rest) == ['"'] + rest;
    } else {
      var t := WriteEscaped(s, "\"" + rest);
      var tail := WriteEscaped(s[1..], "\"" + rest);
      StringBodyRoundTrip(s[1..], rest);
      if s[0] == '"' || s[0] == '\\' {
        assert t[2..] == tail;
      } else {
        assert t[1..] == tail;
      }
      assert [s[0]] + s[1..] == s;
    }
  }

  lemma FieldRoundTrip(key: string, s: string, rest: string)
    ensures ParseField(key, WriteField(key, s, rest)) == Some(Parsed(s, rest))
  {
    ExpectPrefix(key, WriteString(s, rest));
    ExpectPrefix("\"", WriteEscaped(s, "\"" + rest));
    StringBodyRoundTrip(s, rest);
  }

  lemma NotesRoundTrip(notes: Option<string>, rest: string)
    ensures ParseNotesAndClose(WriteNotes(notes, "}" + rest)) == Some(Parsed(notes, rest))
  {
    match notes
    case None =>
      assert ("}" + rest)[1..] == rest;
    case Some(n) =>
      FieldRoundTrip(",\"notes\":", n, "}" + rest);
      ExpectPrefix("}", rest);
  }

  lemma ExerciseRoundTrip(e: Exercise, rest: string)
    ensures ParseExercise(WriteExercise(e, rest)) == Some(Parsed(e, rest))
  {
    var after4 := WriteNotes(e.notes, "}" + rest);
    var after3 := WriteField(",\"reps\":", e.reps, after4);
    var after2 := WriteField(",\"sets\":", e.sets, after3);
    var after1 := WriteField(",\"name\":", e.name, after2);
    FieldRoundTrip("{\"id\":", e.id, after1);
    FieldRoundTrip(",\"name\":", e.name, after2);
    FieldRoundTrip(",\"sets\":", e.sets, after3);
    FieldRoundTrip(",\"reps\":", e.reps, after4);
    NotesRoundTrip(e.notes, rest);
  }

  /** A comma, an object and a tail parse as the object followed by the tail. */
  lemma ParseTailCons(t: string, e: Exercise, after: string, es: seq<Exercise>, rest: string)
    requires ParseExercise(t) == Some(Parsed(e, after))
    requires ParseTail(after) == Some(Parsed(es, rest))
    ensures ParseTail("," + t) == Some(Parsed([e] + es, rest))
  {
    assert ("," + t)[0] == ',' && ("," + t)[1..] == t;
  }

  lemma {:induction false} TailRoundTrip(xs: seq<Exercise>, rest: string)
    requires |rest| == 0 || rest[0] != ','
    ensures ParseTail(WriteTail(xs, rest)) == Some(Parsed(xs, rest))
  {
    if xs != [] {
      var after := WriteTail(xs[1..], rest);
      ExerciseRoundTrip(xs[0], after);
      TailRoundTrip(xs[1..], rest);
      ParseTailCons(WriteExercise(xs[0], after), xs[0], after, xs[1..], rest);
      assert [xs[0]] + xs[1..] == xs;
    }
  }

  /** A text whose value starts with `[` is parsed as an array. */
  lemma ArrayText(t: string)
    requires Trim(t) != [] && Trim(t)[0] == '['
    ensures FromJson(t) == ParseElements(Trim(t)[1..])
  {
    var u := Trim(t);
    assert u != "null";
    ExpectPrefix("[", u[1..]);
    assert u == "[" + u[1..];
  }

  /** The elements the encoder wrote after `[` parse back to the list. */
  lemma ElementsRoundTrip(xs: seq<Exercise>)
    requires xs != []
    ensures ParseElements(WriteExercise(xs[0], WriteTail(xs[1..], "]"))) == Some(JsonList(xs))
  {
    ElementsFromParts(xs[0], xs[1..]);
    ConsOfHeadAndTail(xs);
  }

  lemma ConsOfHeadAndTail(xs: seq<Exercise>)
    requires xs != []
    ensures [xs[0]] + xs[1..] == xs
  {
  }

  lemma ElementsFromParts(e: Exercise, es: seq<Exercise>)
    ensures ParseElements(WriteExercise(e, WriteTail(es, "]"))) == Some(JsonList([e] + es))
  {
    var tail := WriteTail(es, "]");
    ExerciseRoundTrip(e, tail);
    TailRoundTrip(es, "]");
    assert |WriteExercise(e, tail)| > |tail| >= 1;
    ElementsCons(WriteExercise(e, tail), e, tail, es);
  }

  /** A first element and a tail that ends at the closing bracket make an array. */
  lemma ElementsCons(t: string, e: Exercise, after: string, es: seq<Exercise>)
    requires t != "]"
    requires ParseExercise(t) == Some(Parsed(e, after))
    requires ParseTail(after) == Some(Parsed(es, "]"))
    ensures ParseElements(t) == Some(JsonList([e] + es))
  {
  }

  /** Parsing what the encoder wrote gives back the list: order, every field and absent notes kept. */
  lemma RoundTrip(xs: seq<Exercise>)
    ensures FromJson(ToJson(xs)) == Some(JsonList(xs))
  {
    var t := ToJson(xs);
    EncodedIsArray(xs);
    TrimKeepsBareValue(t);
    ArrayText(t);
    if xs == [] {
      assert t[1..] == "]";
    } else {
      assert t[1..] == WriteExercise(xs[0], WriteTail(xs[1..], "]"));
      ElementsRoundTrip(xs);
    }
  }

  // ------------------------------------------------- what the parsers leave

  /** `s` is what remains of `t` after some characters were read from its front. */
  predicate IsSuffix(s: string, t: string) {
    |s| <= |t| && t[|t| - |s|..] == s
  }

  lemma SuffixTransitive(a: string, b: string, c: string)
    requires IsSuffix(a, b) && IsSuffix(b, c)
    ensures IsSuffix(a, c)
  {
    assert c[|c| - |a|..] == c[|c| - |b|..][|b| - |a|..];
  }

  lemma {:induction false} StringBodySuffix(t: string)
    ensures ParseStringBody(t).Some? ==> IsSuffix(ParseStringBody(t).value.rest, t)
    decreases |t|
  {
    if t != [] && t[0] != '"' {
      var k := if t[0] == '\\' then 2 else 1;
      if |t| >= k {
        assert IsSuffix(t[k..], t);
        StringBodySuffix(t[k..]);
        var r := ParseStringBody(t[k..]);
        if r.Some? {
          SuffixTransitive(r.value.rest, t[k..], t);
        }
      }
    }
  }

  lemma FieldSuffix(key: string, t: string)
    ensures ParseField(key, t).Some? ==> IsSuffix(ParseField(key, t).value.rest, t)
  {
    var t1 := Expect(key, t);
    if t1.Some? {
      assert IsSuffix(t1.value, t);
      var t2 := Expect("\"", t1.value);
      if t2.Some? {
        assert IsSuffix(t2.value, t1.value);
        StringBodySuffix(t2.value);
        var r := ParseStringBody(t2.value);
        if r.Some? {
          SuffixTransitive(r.value.rest, t2.value, t1.value);
          SuffixTransitive(r.value.rest, t1.value, t);
        }
      }
    }
  }

  lemma NotesSuffix(t: string)
    ensures ParseNotesAndClose(t).Some? ==> IsSuffix(ParseNotesAndClose(t).value.rest, t)
  {
    if !(|t| > 0 && t[0] == '}') {
      FieldSuffix(",\"notes\":", t);
      var notes := ParseField(",\"notes\":", t);
      if notes.Some? {
        var t1 := Expect("}", notes.value.rest);
        if t1.Some? {
          assert IsSuffix(t1.value, notes.value.rest);
          SuffixTransitive(t1.value, notes.value.rest, t);
        }
      }
    }
  }

  lemma ExerciseSuffix(t: string)
    ensures ParseExercise(t).Some? ==> IsSuffix(ParseExercise(t).value.rest, t)
  {
    var r := ParseExercise(t);
    if r.Some? {
      var id := ParseField("{\"id\":", t).value;
      var name := ParseField(",\"name\":", id.rest).value;
      var sets := ParseField(",\"sets\":", name.rest).value;
      var reps := ParseField(",\"reps\":", sets.rest).value;
      FieldSuffix("{\"id\":", t);
      FieldSuffix(",\"name\":", id.rest);
      FieldSuffix(",\"sets\":", name.rest);
      FieldSuffix(",\"reps\":", sets.rest);
      NotesSuffix(reps.rest);
      SuffixTransitive(name.rest, id.rest, t);
      SuffixTransitive(sets.rest, name.rest, t);
      SuffixTransitive(reps.rest, sets.rest, t);
      SuffixTransitive(r.value.rest, reps.rest, t);
    }
  }

  lemma {:induction false} TailSuffix(t: string)
    ensures ParseTail(t).Some? ==> IsSuffix(ParseTail(t).value.rest, t)
    decreases |t|
  {
    if |t| > 0 && t[0] == ',' {
      var first := ParseExercise(t[1..]);
      if first.Some? {
        assert IsSuffix(t[1..], t);
        ExerciseSuffix(t[1..]);
        SuffixTransitive(first.value.rest, t[1..], t);
        TailSuffix(first.value.rest);
        var more := ParseTail(first.value.rest);
        if more.Some? {
          SuffixTransitive(more.value.rest, first.value.rest, t);
        }
      }
    } else {
      assert t[|t| - |t|..] == t;
    }
  }

  /** Elements that do not end with the closing bracket are a syntax error. */
  lemma ElementsNeedClosingBracket(t: string)
    requires t == [] || t[|t| - 1] != ']'
    ensures ParseElements(t) == None
  {
    var first := ParseExercise(t);
    if first.Some? {
      ExerciseSuffix(t);
      TailSuffix(first.value.rest);
      var more := ParseTail(first.value.rest);
      if more.Some? {
        SuffixTransitive(more.value.rest, first.value.rest, t);
      }
    }
  }

  /** Elements that parse end with the closing bracket. */
  lemma ElementsEndWithBracket(t: string)
    requires ParseElements(t).Some?
    ensures t != [] && t[|t| - 1] == ']'
  {
    if t != "]" {
      var first := ParseExercise(t).value;
      var more := ParseTail(first.rest).value;
      assert more.rest == "]";
      ExerciseSuffix(t);
      TailSuffix(first.rest);
      SuffixTransitive(more.rest, first.rest, t);
    }
  }

  // --------------------------------------------------------- what decodes to what

  /** The only texts that parse to JSON null are the empty document and the literal `null`. */
  lemma NullOnlyFromNullText(t: string)
    ensures FromJson(t) == Some(JsonNull) <==> IsEmptyDocument(t) || Trim(t) == "null"
  {
    EmptyDocumentTrimsToEmpty(t);
    var u := Trim(t);
    if u != [] && u != "null" {
      assert FromJson(t) == (var t1 :- Expect("[", u); ParseElements(t1));
    }
  }

  /** The only text that parses to an empty array is `[]`, with any whitespace around it. */
  lemma EmptyListOnlyFromEmptyArray(t: string)
    ensures FromJson(t) == Some(JsonList([])) <==> Trim(t) == "[]"
  {
    if Trim(t) == "[]" {
      ExpectPrefix("[", "]");
    }
  }

  /** A non-blank document whose value is neither `null` nor an array is a syntax error. */
  lemma NotAnArrayIsError(t: string)
    requires Trim(t) != [] && Trim(t) != "null"
    requires Trim(t)[0] != '['
    ensures FromJson(t) == None
  {
  }

  /** Whitespace before and after the document changes nothing. */
  lemma SurroundingSpaceIgnored(l: string, t: string, r: string)
    requires IsEmptyDocument(l) && IsEmptyDocument(r)
    ensures FromJson(l + t + r) == FromJson(t)
  {
    TrimOfPadded(l, t, r);
  }

  // ------------------------------------------------------------- trimming

  lemma {:induction false} TrimStartSkipsSpace(l: string, t: string)
    requires IsEmptyDocument(l)
    ensures TrimStart(l + t) == TrimStart(t)
  {
    if l != [] {
      assert (l + t)[0] == l[0] && (l + t)[1..] == l[1..] + t;
      TrimStartSkipsSpace(l[1..], t);
    } else {
      assert l + t == t;
    }
  }

  lemma {:induction false} TrimEndSkipsSpace(t: string, r: string)
    requires IsEmptyDocument(r)
    ensures TrimEnd(t + r) == TrimEnd(t)
  {
    if r != [] {
      var r' := r[..|r| - 1];
      assert (t + r)[|t + r| - 1] == r[|r| - 1] && (t + r)[..|t + r| - 1] == t + r';
      TrimEndSkipsSpace(t, r');
    } else {
      assert t + r == t;
    }
  }

  /** Text after the value is kept whole by the front trim. */
  lemma {:induction false} TrimStartAppend(t: string, r: string)
    ensures TrimStart(t) != [] ==> TrimStart(t + r) == TrimStart(t) + r
    ensures TrimStart(t) == [] ==> TrimStart(t + r) == TrimStart(r)
  {
    if t == [] {
      assert t + r == r;
    } else if IsJsonSpace(t[0]) {
      assert (t + r)[0] == t[0] && (t + r)[1..] == t[1..] + r;
      TrimStartAppend(t[1..], r);
    }
  }

  /** The back trim stops at a non-space first character. */
  lemma {:induction false} TrimEndKeepsFirst(t: string)
    requires t != [] && !IsJsonSpace(t[0])
    ensures TrimEnd(t) != []
  {
    if |t| > 1 && IsJsonSpace(t[|t| - 1]) {
      TrimEndKeepsFirst(t[..|t| - 1]);
    }
  }

  /** Only whitespace trims to nothing. */
  lemma {:induction false} EmptyDocumentTrimsToEmpty(t: string)
    ensures IsEmptyDocument(t) <==> Trim(t) == []
  {
    if IsEmptyDocument(t) {
      assert t == t + [];
      TrimStartSkipsSpace(t, []);
    } else {
      var i :| 0 <= i < |t| && !IsJsonSpace(t[i]);
      TrimStartFindsValue(t, i);
      TrimEndKeepsFirst(TrimStart(t));
    }
  }

  /** The front trim stops at the first non-space character. */
  lemma {:induction false} TrimStartFindsValue(t: string, i: int)
    requires 0 <= i < |t| && !IsJsonSpace(t[i])
    ensures TrimStart(t) != []
    decreases i
  {
    if IsJsonSpace(t[0]) {
      TrimStartFindsValue(t[1..], i - 1);
    }
  }

  lemma TrimOfPadded(l: string, t: string, r: string)
    requires IsEmptyDocument(l) && IsEmptyDocument(r)
    ensures Trim(l + t + r) == Trim(t)
  {
    assert l + t + r == l + (t + r);
    TrimStartSkipsSpace(l, t + r);
    TrimStartAppend(t, r);
    if TrimStart(t) == [] {
      assert r == r + [];
      TrimStartSkipsSpace(r, []);
    } else {
      TrimEndSkipsSpace(TrimStart(t), r);
    }
  }

  /** A document without whitespace around it trims to itself. */
  lemma TrimKeepsBareValue(t: string)
    requires t != [] && !IsJsonSpace(t[0]) && !IsJsonSpace(t[|t| - 1])
    ensures Trim(t) == t
  {
  }

  /** Encoding never writes `null` or whitespace around the value: every encoded list is a bare array. */
  lemma EncodedIsArray(xs: seq<Exercise>)
    ensures |ToJson(xs)| >= 2 && ToJson(xs)[0] == '[' && ToJson(xs)[|ToJson(xs)| - 1] == ']'
  {
    var t := ToJson(xs);
    if xs != [] {
      assert t[1..] == WriteExercise(xs[0], WriteTail(xs[1..], "]"));
      ElementsRoundTrip(xs);
      ElementsEndWithBracket(t[1..]);
    }
  }
}
