/** The list reducers of the company page and of the survey-set page: both
    take the changed row and an action name and return the new list. */
module ListChange {
  /** The rows without those carrying the given id (`filter(x => x.id !== id)`). */
  function Drop<T(!new)>(rows: seq<T>, idOf: T -> string, id: string): (r: seq<T>)
    ensures |r| <= |rows|
    ensures forall x :: x in r <==> x in rows && idOf(x) != id
  {
    if |rows| == 0 then []
    else Drop(rows[..|rows| - 1], idOf, id) + (if idOf(rows[|rows| - 1]) != id then [rows[|rows| - 1]] else [])
  }

  /** `map(x => x.id === row.id ? row : x)` */
  function Replace<T(!new)>(rows: seq<T>, idOf: T -> string, row: T): (r: seq<T>)
    ensures |r| == |rows|
    ensures forall i :: 0 <= i < |rows| ==> r[i] == (if idOf(rows[i]) == idOf(row) then row else rows[i])
  {
    seq(|rows|, i requires 0 <= i < |rows| => if idOf(rows[i]) == idOf(row) then row else rows[i])
  }

  /** `handleCompanyChange` / `handleSurveySetChange`: 'add' appends, 'update'
      replaces every row with the same id, 'delete' removes every row with
      that id, and any other action changes nothing. */
  function Change<T(!new)>(rows: seq<T>, idOf: T -> string, row: T, action: string): (r: seq<T>)
    ensures action == "add" ==> r == rows + [row]
    ensures action == "update" ==> r == Replace(rows, idOf, row)
    ensures action == "delete" ==> r == Drop(rows, idOf, idOf(row))
    ensures action != "add" && action != "update" && action != "delete" ==> r == rows
  {
    match action
    case "add" => rows + [row]
    case "update" => Replace(rows, idOf, row)
    case "delete" => Drop(rows, idOf, idOf(row))
    case _ => rows
  }

  /** Deleting keeps the other rows in order: it distributes over concatenation. */
  lemma {:induction false} DropConcat<T(!new)>(a: seq<T>, b: seq<T>, idOf: T -> string, id: string)
    ensures Drop(a + b, idOf, id) == Drop(a, idOf, id) + Drop(b, idOf, id)
    decreases |b|
  {
    if |b| == 0 {
      assert a + b == a;
    } else {
      var b' := b[..|b| - 1];
      assert (a + b)[..|a + b| - 1] == a + b';
      DropConcat(a, b', idOf, id);
    }
  }

  /** Deleting an id no row carries changes nothing. */
  lemma {:induction false} DropAbsent<T(!new)>(rows: seq<T>, idOf: T -> string, id: string)
    requires forall i :: 0 <= i < |rows| ==> idOf(rows[i]) != id
    ensures Drop(rows, idOf, id) == rows
    decreases |rows|
  {
    if |rows| > 0 {
      DropAbsent(rows[..|rows| - 1], idOf, id);
      assert rows == rows[..|rows| - 1] + [rows[|rows| - 1]];
    }
  }

  /** Every row with another id is kept as many times as it was there. */
  lemma {:induction false} DropKeeps<T(!new)>(rows: seq<T>, idOf: T -> string, id: string, x: T)
    requires idOf(x) != id
    ensures multiset(Drop(rows, idOf, id))[x] == multiset(rows)[x]
    decreases |rows|
  {
    if |rows| > 0 {
      DropKeeps(rows[..|rows| - 1], idOf, id, x);
      assert rows == rows[..|rows| - 1] + [rows[|rows| - 1]];
    }
  }

  /** Deleting a row just added removes it again, with every earlier row of the same id. */
  lemma AddThenDelete<T(!new)>(rows: seq<T>, idOf: T -> string, row: T)
    ensures Change(Change(rows, idOf, row, "add"), idOf, row, "delete") == Drop(rows, idOf, idOf(row))
  {
    DropConcat(rows, [row], idOf, idOf(row));
    assert Drop([row], idOf, idOf(row)) == Drop([], idOf, idOf(row)) + [];
  }

  /** After an update the id is carried only by the new row, and deleting it
      afterwards gives what deleting it at once gives. */
  lemma {:induction false} UpdateThenDelete<T(!new)>(rows: seq<T>, idOf: T -> string, row: T)
    ensures forall x :: x in Replace(rows, idOf, row) && idOf(x) == idOf(row) ==> x == row
    ensures Drop(Replace(rows, idOf, row), idOf, idOf(row)) == Drop(rows, idOf, idOf(row))
    decreases |rows|
  {
    if |rows| > 0 {
      var rows' := rows[..|rows| - 1];
      UpdateThenDelete(rows', idOf, row);
      assert Replace(rows, idOf, row)[..|rows| - 1] == Replace(rows', idOf, row);
    }
  }
}
