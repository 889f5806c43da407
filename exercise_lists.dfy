/**
 * The in-place steps the ViewModel applies to a workout's exercise list:
 * `add` (append), `indexOfFirst` followed by an indexed assignment, and
 * `removeAll`. The scans are methods with loops; the recursive functions are
 * their reference definitions.
 */
module ExerciseLists {
  import opened Model

  /** Some exercise of `xs` has id `id`. */
  predicate HasId(xs: seq<Exercise>, id: Id) {
    exists i :: 0 <= i < |xs| && xs[i].id == id
  }

  /** `k` is the first position of `xs` whose exercise has id `id`. */
  predicate IsFirstMatch(xs: seq<Exercise>, id: Id, k: int) {
    0 <= k < |xs| && xs[k].id == id && forall i :: 0 <= i < k ==> xs[i].id != id
  }

  /** The list with its first exercise of id `id` replaced by `e`. */
  function ReplaceFirst(xs: seq<Exercise>, id: Id, e: Exercise): seq<Exercise> {
    if xs == [] then []
    else if xs[0].id == id then [e] + xs[1..]
    else [xs[0]] + ReplaceFirst(xs[1..], id, e)
  }

  /** The list without any exercise of id `id`, the others in their order. */
  function RemoveAll(xs: seq<Exercise>, id: Id): seq<Exercise> {
    if xs == [] then []
    else (if xs[0].id == id then [] else [xs[0]]) + RemoveAll(xs[1..], id)
  }

  // ----------------------------------------------------------- the scans

  /** `indexOfFirst { ex -> ex.id == id }`: the first matching index, or -1. */
  method IndexOfFirst(xs: seq<Exercise>, id: Id) returns (index: int)
    ensures index == -1 <==> !HasId(xs, id)
    ensures index != -1 ==> IsFirstMatch(xs, id, index)
  {
    var i := 0;
    while i < |xs|
      invariant 0 <= i <= |xs|
      invariant forall j :: 0 <= j < i ==> xs[j].id != id
    {
      if xs[i].id == id {
        return i;
      }
      i := i + 1;
    }
    return -1;
  }

  /** `removeAll { ex -> ex.id == id }`, one element at a time. */
  method RemoveAllMatching(xs: seq<Exercise>, id: Id) returns (ys: seq<Exercise>)
    ensures ys == RemoveAll(xs, id)
  {
    ys := [];
    var i := 0;
    while i < |xs|
      invariant 0 <= i <= |xs|
      invariant ys == RemoveAll(xs[..i], id)
    {
      assert xs[..i + 1] == xs[..i] + [xs[i]];
      RemoveAllAppend(xs[..i], [xs[i]], id);
      if xs[i].id != id {
        ys := ys + [xs[i]];
      }
      i := i + 1;
    }
    assert xs[..i] == xs;
  }

  // ------------------------------------------------------- replace-first

  /** Replacing the first match is an assignment at its index: same length, every other position kept. */
  lemma {:induction false} ReplaceFirstAt(xs: seq<Exercise>, id: Id, e: Exercise, k: int)
    requires IsFirstMatch(xs, id, k)
    ensures ReplaceFirst(xs, id, e) == xs[k := e]
  {
    if k > 0 {
      ReplaceFirstAt(xs[1..], id, e, k - 1);
      assert [xs[0]] + xs[1..][k - 1 := e] == xs[k := e];
    }
  }

  /** A list that holds the id has a first position holding it. */
  lemma {:induction false} FirstMatchExists(xs: seq<Exercise>, id: Id) returns (k: int)
    requires HasId(xs, id)
    ensures IsFirstMatch(xs, id, k)
  {
    if xs[0].id == id {
      k := 0;
    } else {
      var i :| 0 <= i < |xs| && xs[i].id == id;
      assert xs[1..][i - 1] == xs[i];
      var k' := FirstMatchExists(xs[1..], id);
      k := k' + 1;
      assert xs[k] == xs[1..][k'];
      forall j | 0 < j < k ensures xs[j].id != id {
        assert xs[j] == xs[1..][j - 1];
      }
    }
  }

  /** With no match, nothing is replaced. */
  lemma {:induction false} ReplaceFirstNoMatch(xs: seq<Exercise>, id: Id, e: Exercise)
    requires !HasId(xs, id)
    ensures ReplaceFirst(xs, id, e) == xs
  {
    if xs != [] {
      assert xs[0].id != id;
      assert !HasId(xs[1..], id) by {
        forall i | 0 <= i < |xs[1..]| ensures xs[1..][i].id != id {
          assert xs[1..][i] == xs[i + 1];
        }
      }
      ReplaceFirstNoMatch(xs[1..], id, e);
    }
  }

  /** Editing an exercise under its own id keeps the list's ids unique. */
  lemma ReplaceFirstKeepsIdsUnique(xs: seq<Exercise>, id: Id, e: Exercise, k: int)
    requires UniqueExerciseIds(xs) && IsFirstMatch(xs, id, k) && e.id == id
    ensures UniqueExerciseIds(ReplaceFirst(xs, id, e))
  {
    ReplaceFirstAt(xs, id, e, k);
  }

  // ---------------------------------------------------------- remove-all

  /** Removal works element by element, so the kept exercises stay in their order. */
  lemma {:induction false} RemoveAllAppend(a: seq<Exercise>, b: seq<Exercise>, id: Id)
    ensures RemoveAll(a + b, id) == RemoveAll(a, id) + RemoveAll(b, id)
  {
    if a == [] {
      assert a + b == b;
    } else {
      assert (a + b)[0] == a[0];
      assert (a + b)[1..] == a[1..] + b;
      RemoveAllAppend(a[1..], b, id);
    }
  }

  /** What survives removal: exactly the exercises whose id differs. */
  lemma {:induction false} RemoveAllMembers(xs: seq<Exercise>, id: Id)
    ensures |RemoveAll(xs, id)| <= |xs|
    ensures forall x :: x in RemoveAll(xs, id) <==> x in xs && x.id != id
  {
    if xs != [] {
      RemoveAllMembers(xs[1..], id);
      assert forall x :: x in xs <==> x == xs[0] || x in xs[1..];
    }
  }

  /** With no match the content is unchanged. */
  lemma {:induction false} RemoveAllNoMatch(xs: seq<Exercise>, id: Id)
    requires !HasId(xs, id)
    ensures RemoveAll(xs, id) == xs
  {
    if xs != [] {
      assert xs[0].id != id;
      assert !HasId(xs[1..], id) by {
        forall i | 0 <= i < |xs[1..]| ensures xs[1..][i].id != id {
          assert xs[1..][i] == xs[i + 1];
        }
      }
      RemoveAllNoMatch(xs[1..], id);
      assert [xs[0]] + xs[1..] == xs;
    }
  }

  /** Removal keeps the list's ids unique. */
  lemma {:induction false} RemoveAllKeepsIdsUnique(xs: seq<Exercise>, id: Id)
    requires UniqueExerciseIds(xs)
    ensures UniqueExerciseIds(RemoveAll(xs, id))
  {
    if xs != [] {
      assert UniqueExerciseIds(xs[1..]) by {
        forall i, j | 0 <= i < j < |xs[1..]| ensures xs[1..][i].id != xs[1..][j].id {
          assert xs[1..][i] == xs[i + 1] && xs[1..][j] == xs[j + 1];
        }
      }
      RemoveAllKeepsIdsUnique(xs[1..], id);
      RemoveAllMembers(xs[1..], id);
      var rest := RemoveAll(xs[1..], id);
      if xs[0].id != id {
        forall j | 0 <= j < |rest| ensures xs[0].id != rest[j].id {
          assert rest[j] in xs[1..];
          var m :| 0 <= m < |xs[1..]| && xs[1..][m] == rest[j];
          assert xs[m + 1] == rest[j];
        }
        assert RemoveAll(xs, id) == [xs[0]] + rest;
      }
    }
  }

  // -------------------------------------------------------------- append

  /** Appending keeps the ids unique exactly when the new exercise's id is not in the list yet. */
  lemma AppendKeepsIdsUnique(xs: seq<Exercise>, e: Exercise)
    requires UniqueExerciseIds(xs)
    ensures UniqueExerciseIds(xs + [e]) <==> !HasId(xs, e.id)
  {
    var ys := xs + [e];
    if HasId(xs, e.id) {
      var i :| 0 <= i < |xs| && xs[i].id == e.id;
      assert ys[i].id == ys[|xs|].id;
    }
  }
}
