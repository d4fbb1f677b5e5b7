/** `EmpregadoRepository`: the store object the service writes through. Its
    table is a field that `save` and `deleteById` reassign; each method is
    specified by the matching function of module Store. */
module Repository {
  import opened Wrappers
  import opened Errors
  import opened Model
  import Store

  class EmpregadoRepository {
    /** The rows of table `empregados`, in insertion order. */
    var rows: seq<EmpregadoData>
    /** The IDENTITY counter: the last id handed out. */
    var lastId: nat

    function State(): Store.Table
      reads this
    {
      Store.Table(rows, lastId)
    }

    predicate Valid()
      reads this
    {
      Store.Valid(State())
    }

    /** An empty table whose counter has not handed out any id. */
    constructor ()
      ensures Valid() && rows == [] && lastId == 0
    {
      rows := [];
      lastId := 0;
    }

    /** `save`. A record without id is persisted: the generated id is written
        into the bean itself, which is returned. A record with an id is merged:
        the returned bean is a new managed copy and the argument is untouched. */
    method Save(empregado: Empregado) returns (saved: Empregado)
      requires Valid()
      modifies this, empregado
      ensures Valid()
      ensures State() == Store.Save(old(State()), old(empregado.Data())).table
      ensures saved.Data() == Store.Save(old(State()), old(empregado.Data())).row
      ensures old(empregado.id).None? ==> saved == empregado
      ensures old(empregado.id).Some? ==> fresh(saved) && unchanged(empregado)
    {
      var s := Store.Save(State(), empregado.Data());
      rows, lastId := s.table.rows, s.table.lastId;
      if empregado.id.None? {
        empregado.SetId(s.row.id);
        saved := empregado;
      } else {
        saved := new Empregado(s.row.id, s.row.nome, s.row.sobrenome, s.row.email);
      }
    }

    /** `findById`: a new bean holding the row of that id, or empty. */
    method FindById(id: int) returns (found: Option<Empregado>)
      ensures found.Some? <==> Store.FindById(rows, id).Some?
      ensures found.Some? ==> fresh(found.value) && found.value.Data() == Store.FindById(rows, id).value
    {
      match Store.FindById(rows, id)
      case None =>
        found := None;
      case Some(row) =>
        var e := new Empregado(row.id, row.nome, row.sobrenome, row.email);
        found := Some(e);
    }

    /** `findAll`: every row, in table order; an empty list for an empty table. */
    method FindAll() returns (all: seq<EmpregadoData>)
      ensures all == rows
    {
      all := rows;
    }

    /** `findByEmail`: see Store.FindByEmail. */
    method FindByEmail(email: string) returns (r: Result<Option<EmpregadoData>, Error>)
      ensures r == Store.FindByEmail(rows, email)
    {
      r := Store.FindByEmail(rows, email);
    }

    /** `deleteById`: removes that row, or raises when there is none. */
    method DeleteById(id: int) returns (r: Outcome<Error>)
      requires Valid()
      modifies this
      ensures Valid()
      ensures Store.DeleteById(old(State()), id).Success? ==>
                r == Pass && State() == Store.DeleteById(old(State()), id).value
      ensures Store.DeleteById(old(State()), id).Failure? ==>
                r == Fail(Store.DeleteById(old(State()), id).error) && State() == old(State())
    {
      match Store.DeleteById(State(), id)
      case Success(t) =>
        rows, lastId := t.rows, t.lastId;
        r := Pass;
      case Failure(err) =>
        r := Fail(err);
    }
  }
}
