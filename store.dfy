/** The table behind `EmpregadoRepository`, as values: rows in insertion order
    and the IDENTITY counter. Spring Data's `save`, `findById`, `findAll`,
    `deleteById` and the derived query `findByEmail` are functions of it. */
module Store {
  import opened Wrappers
  import opened Errors
  import opened Model

  datatype Table = Table(rows: seq<EmpregadoData>, lastId: nat)

  /** The result of `save`: the new table and the row `save` returns. */
  datatype Saved = Saved(table: Table, row: EmpregadoData)

  /** The row's id, read as a number (0 for a row that has none). */
  function Key(e: EmpregadoData): int {
    match e.id
    case Some(k) => k
    case None => 0
  }

  /** Every row has an id, and the ids ascend along the rows (so no two rows
      share one). */
  predicate Ascending(rows: seq<EmpregadoData>) {
    && (forall i :: 0 <= i < |rows| ==> rows[i].id.Some?)
    && (forall i, j :: 0 <= i < j < |rows| ==> Key(rows[i]) < Key(rows[j]))
  }

  /** Every row carries an id the store generated: positive, at most the last
      id handed out, and ascending along the table (inserts append). */
  predicate Valid(t: Table) {
    && Ascending(t.rows)
    && (forall i :: 0 <= i < |t.rows| ==> 0 < Key(t.rows[i]) <= t.lastId)
  }

  /** No two rows share an email: the invariant the service keeps on create. */
  predicate EmailsUnique(rows: seq<EmpregadoData>) {
    forall i, j :: 0 <= i < j < |rows| ==> rows[i].email != rows[j].email
  }

  /** `findById`: the row with that id, or empty. */
  function FindById(rows: seq<EmpregadoData>, id: int): (r: Option<EmpregadoData>)
    ensures r.Some? ==> r.value in rows && r.value.id == Some(id)
    ensures r.None? <==> forall i :: 0 <= i < |rows| ==> rows[i].id != Some(id)
  {
    if rows == [] then None
    else if rows[0].id == Some(id) then Some(rows[0])
    else FindById(rows[1..], id)
  }

  /** The rows whose email is `email`, in table order. */
  function WithEmail(rows: seq<EmpregadoData>, email: string): (r: seq<EmpregadoData>)
    ensures forall x :: x in r ==> x in rows && x.email == email
    ensures r == [] <==> forall i :: 0 <= i < |rows| ==> rows[i].email != email
  {
    if rows == [] then []
    else if rows[0].email == email then [rows[0]] + WithEmail(rows[1..], email)
    else WithEmail(rows[1..], email)
  }

  /** `findByEmail`, a single-result derived query: empty when no row has the
      email, that row when exactly one has, IncorrectResultSize when several do. */
  function FindByEmail(rows: seq<EmpregadoData>, email: string): (r: Result<Option<EmpregadoData>, Error>)
    ensures r == Success(None) <==> forall i :: 0 <= i < |rows| ==> rows[i].email != email
    ensures r.Success? && r.value.Some? ==> r.value.value in rows && r.value.value.email == email
    ensures r.Failure? <==> exists i, j :: 0 <= i < j < |rows| && rows[i].email == email && rows[j].email == email
    ensures r.Failure? ==> r.error.IncorrectResultSize? && r.error.actual >= 2
    ensures EmailsUnique(rows) ==> r.Success?
  {
    WithEmailTwo(rows, email);
    WithEmailUnique(rows, email);
    var m := WithEmail(rows, email);
    if |m| == 0 then Success(None)
    else if |m| == 1 then Success(Some(m[0]))
    else Failure(IncorrectResultSize(|m|))
  }

  /** Two rows carry the email exactly when the query finds at least two. */
  lemma {:induction false} WithEmailTwo(rows: seq<EmpregadoData>, email: string)
    ensures |WithEmail(rows, email)| >= 2 <==>
            exists i, j :: 0 <= i < j < |rows| && rows[i].email == email && rows[j].email == email
  {
    if rows != [] {
      var tail := rows[1..];
      WithEmailTwo(tail, email);
      if |WithEmail(rows, email)| >= 2 {
        if rows[0].email == email {
          assert WithEmail(rows, email) == [rows[0]] + WithEmail(tail, email);
          var x := WithEmail(tail, email)[0];
          var j :| 0 <= j < |tail| && tail[j] == x;
          assert rows[0].email == email && rows[j + 1].email == email;
        } else {
          var i, j :| 0 <= i < j < |tail| && tail[i].email == email && tail[j].email == email;
          assert rows[i + 1].email == email && rows[j + 1].email == email;
        }
      }
      if exists i, j :: 0 <= i < j < |rows| && rows[i].email == email && rows[j].email == email {
        var i, j :| 0 <= i < j < |rows| && rows[i].email == email && rows[j].email == email;
        if i == 0 {
          assert tail[j - 1].email == email;
        } else {
          assert tail[i - 1].email == email && tail[j - 1].email == email;
        }
      }
    }
  }

  /** With unique emails the query finds at most one row. */
  lemma {:induction false} WithEmailUnique(rows: seq<EmpregadoData>, email: string)
    ensures EmailsUnique(rows) ==> |WithEmail(rows, email)| <= 1
  {
    if rows != [] && EmailsUnique(rows) {
      var tail := rows[1..];
      assert EmailsUnique(tail) by {
        forall i, j | 0 <= i < j < |tail| ensures tail[i].email != tail[j].email {
          assert tail[i] == rows[i + 1] && tail[j] == rows[j + 1];
        }
      }
      WithEmailUnique(tail, email);
      if rows[0].email == email {
        forall i | 0 <= i < |tail| ensures tail[i].email != email {
          assert tail[i] == rows[i + 1];
        }
      }
    }
  }

  /** With ascending ids, `findById` returns exactly the row carrying the id. */
  lemma FindByIdIff(rows: seq<EmpregadoData>, id: int, x: EmpregadoData)
    requires Ascending(rows)
    ensures FindById(rows, id) == Some(x) <==> x in rows && x.id == Some(id)
  {
  }

  /** Two ascending tables holding the same rows with id `id` agree on
      `findById(id)`. */
  lemma FindByIdSame(a: seq<EmpregadoData>, b: seq<EmpregadoData>, id: int)
    requires Ascending(a) && Ascending(b)
    requires forall x :: x in a && x.id == Some(id) <==> x in b && x.id == Some(id)
    ensures FindById(a, id) == FindById(b, id)
  {
  }

  /** `save` of a record whose id the table already holds merges into that row;
      any other record is inserted. */
  predicate IsUpdate(t: Table, e: EmpregadoData) {
    e.id.Some? && FindById(t.rows, Key(e)).Some?
  }

  /** The rows with the row of e's id replaced by e. */
  function Replace(rows: seq<EmpregadoData>, e: EmpregadoData): seq<EmpregadoData> {
    seq(|rows|, i requires 0 <= i < |rows| => if rows[i].id == e.id then e else rows[i])
  }

  /** `save` (insert-or-update by identity). A record with a known id
      overwrites that row in place; any other record (no id, or an id the table
      does not hold) becomes a new last row under the next generated id. */
  function Save(t: Table, e: EmpregadoData): (r: Saved)
    requires Valid(t)
    ensures Valid(r.table)
    ensures r.row.id.Some? && Key(r.row) > 0
    ensures r.row == e.(id := r.row.id)
    ensures IsUpdate(t, e) ==> r.row == e && |r.table.rows| == |t.rows| && r.table.lastId == t.lastId
    ensures !IsUpdate(t, e) ==> r.row.id == Some(t.lastId + 1) && r.table.rows == t.rows + [r.row]
                                && r.table.lastId == t.lastId + 1
  {
    if IsUpdate(t, e) then
      Saved(Table(Replace(t.rows, e), t.lastId), e)
    else
      var row := e.(id := Some(t.lastId + 1));
      Saved(Table(t.rows + [row], t.lastId + 1), row)
  }

  /** After `save`, `findById` of the returned id yields the returned row. */
  lemma SaveThenFindById(t: Table, e: EmpregadoData)
    requires Valid(t)
    ensures var s := Save(t, e); FindById(s.table.rows, Key(s.row)) == Some(s.row)
  {
    var s := Save(t, e);
    if IsUpdate(t, e) {
      var old_row := FindById(t.rows, Key(e)).value;
      var i :| 0 <= i < |t.rows| && t.rows[i] == old_row;
      assert s.table.rows[i] == e;
    } else {
      assert s.table.rows[|t.rows|] == s.row;
    }
    FindByIdIff(s.table.rows, Key(s.row), s.row);
  }

  /** `save` leaves every other id's row as it was. */
  lemma SaveLeavesOthers(t: Table, e: EmpregadoData, id: int)
    requires Valid(t)
    requires id != Key(Save(t, e).row)
    ensures FindById(Save(t, e).table.rows, id) == FindById(t.rows, id)
  {
    var s := Save(t, e);
    forall x ensures x in s.table.rows && x.id == Some(id) <==> x in t.rows && x.id == Some(id) {
      if x in t.rows && x.id == Some(id) {
        var i :| 0 <= i < |t.rows| && t.rows[i] == x;
        assert s.table.rows[i] == x;
      }
    }
    FindByIdSame(s.table.rows, t.rows, id);
  }

  /** The rows without the row of id `id`, in the same order. */
  function Remove(rows: seq<EmpregadoData>, id: int): (r: seq<EmpregadoData>)
    ensures forall x :: x in r <==> x in rows && x.id != Some(id)
  {
    if rows == [] then []
    else if rows[0].id == Some(id) then Remove(rows[1..], id)
    else [rows[0]] + Remove(rows[1..], id)
  }

  lemma {:induction false} RemoveAbsent(rows: seq<EmpregadoData>, id: int)
    requires FindById(rows, id).None?
    ensures Remove(rows, id) == rows
  {
    if rows != [] {
      RemoveAbsent(rows[1..], id);
    }
  }

  /** Removing a row keeps the rest ascending. */
  lemma {:induction false} RemoveAscending(rows: seq<EmpregadoData>, id: int)
    requires Ascending(rows)
    ensures Ascending(Remove(rows, id))
  {
    if rows != [] {
      var tail := rows[1..];
      AscendingTail(rows);
      RemoveAscending(tail, id);
      if rows[0].id != Some(id) {
        var rest := Remove(tail, id);
        forall j | 0 <= j < |rest| ensures Key(rows[0]) < Key(rest[j]) {
          assert rest[j] in rest;
          var k :| 0 <= k < |tail| && tail[k] == rest[j];
          assert tail[k] == rows[k + 1];
        }
        AscendingCons(rows[0], rest);
      }
    }
  }

  /** Removing the row of an id the rows hold removes exactly one row. */
  lemma {:induction false} RemoveCount(rows: seq<EmpregadoData>, id: int)
    requires Ascending(rows) && FindById(rows, id).Some?
    ensures |Remove(rows, id)| == |rows| - 1
  {
    var tail := rows[1..];
    AscendingTail(rows);
    if rows[0].id == Some(id) {
      forall i | 0 <= i < |tail| ensures tail[i].id != Some(id) {
        assert tail[i] == rows[i + 1];
      }
      RemoveAbsent(tail, id);
    } else {
      RemoveCount(tail, id);
    }
  }

  lemma AscendingTail(rows: seq<EmpregadoData>)
    requires Ascending(rows) && rows != []
    ensures Ascending(rows[1..])
  {
  }

  lemma AscendingCons(x: EmpregadoData, rest: seq<EmpregadoData>)
    requires Ascending(rest) && x.id.Some?
    requires forall j :: 0 <= j < |rest| ==> Key(x) < Key(rest[j])
    ensures Ascending([x] + rest)
  {
  }

  /** `deleteById`: removes the row of that id. Spring Data 2.x raises
      EmptyResultDataAccessException when no row has it, and nothing changes. */
  function DeleteById(t: Table, id: int): (r: Result<Table, Error>)
    requires Valid(t)
    ensures r.Failure? <==> FindById(t.rows, id).None?
    ensures r.Failure? ==> r.error == EmptyResultDataAccess(id)
    ensures r.Success? ==> Valid(r.value) && r.value.lastId == t.lastId && |r.value.rows| == |t.rows| - 1
    ensures r.Success? ==> FindById(r.value.rows, id).None?
  {
    if FindById(t.rows, id).None? then Failure(EmptyResultDataAccess(id))
    else
      RemoveAscending(t.rows, id);
      RemoveCount(t.rows, id);
      Success(Table(Remove(t.rows, id), t.lastId))
  }

  /** `deleteById` leaves every other id's row as it was. */
  lemma DeleteLeavesOthers(t: Table, id: int, other: int)
    requires Valid(t) && DeleteById(t, id).Success? && other != id
    ensures FindById(DeleteById(t, id).value.rows, other) == FindById(t.rows, other)
  {
  }

  /** An id that was deleted is never handed out again: the next insert gets a
      larger one. */
  lemma DeletedIdNeverReused(t: Table, id: int, e: EmpregadoData)
    requires Valid(t) && DeleteById(t, id).Success?
    requires !IsUpdate(DeleteById(t, id).value, e)
    ensures Key(Save(DeleteById(t, id).value, e).row) > id
  {
  }

  /** The first record saved into an empty table gets id 1, and a second new
      record gets id 2; `findAll` then lists exactly those two, in that order. */
  lemma FirstSavesIds(e1: EmpregadoData, e2: EmpregadoData)
    requires e2.id.None?
    ensures var s1 := Save(Table([], 0), e1);
            var s2 := Save(s1.table, e2);
            && s1.row.id == Some(1) && s2.row.id == Some(2)
            && s2.table.rows == [s1.row, s2.row]
  {
  }
}
