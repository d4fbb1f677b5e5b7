/** `EmpregadoServiceImpl`: the one business rule (create refuses an email that
    is already taken) over pass-through calls to the repository. */
module Service {
  import opened Wrappers
  import opened Errors
  import opened Model
  import opened Store
  import opened Repository

  /** The message of the exception raised for a taken email. */
  function DuplicateEmailMessage(email: string): string {
    "Já existe empregado com esse email: " + email
  }

  /** `salvarEmpregado` on a table: look the email up first; when a row has it,
      fail without writing, otherwise `save`. */
  function Salvar(t: Table, e: EmpregadoData): (r: Result<Saved, Error>)
    requires Valid(t)
    ensures r.Success? <==> forall i :: 0 <= i < |t.rows| ==> t.rows[i].email != e.email
    ensures r.Success? ==> r.value == Save(t, e)
    ensures r.Failure? && EmailsUnique(t.rows) ==> r.error == ResourceNotFound(DuplicateEmailMessage(e.email))
    ensures (exists i, j :: 0 <= i < j < |t.rows| && t.rows[i].email == e.email && t.rows[j].email == e.email) ==>
              r.Failure? && r.error.IncorrectResultSize?
    ensures r.Failure? && !(exists i, j :: 0 <= i < j < |t.rows| && t.rows[i].email == e.email && t.rows[j].email == e.email) ==>
              r.error == ResourceNotFound(DuplicateEmailMessage(e.email))
  {
    match FindByEmail(t.rows, e.email)
    case Failure(err) => Failure(err)
    case Success(Some(_)) => Failure(ResourceNotFound(DuplicateEmailMessage(e.email)))
    case Success(None) => Success(Save(t, e))
  }

  /** Saving a record whose email no row has keeps the emails unique, whether
      it inserts or merges into an existing row. */
  lemma SaveUnusedEmailKeepsUnique(t: Table, e: EmpregadoData)
    requires Valid(t) && EmailsUnique(t.rows)
    requires forall i :: 0 <= i < |t.rows| ==> t.rows[i].email != e.email
    ensures EmailsUnique(Save(t, e).table.rows)
  {
  }

  /** Invariant: create keeps the stored emails distinct, whichever branch runs
      (on failure nothing is written). */
  lemma SalvarKeepsEmailsUnique(t: Table, e: EmpregadoData)
    requires Valid(t) && EmailsUnique(t.rows)
    ensures Salvar(t, e).Success? ==> EmailsUnique(Salvar(t, e).value.table.rows)
  {
  }

  /** Creating a second record with an email just created fails with the
      duplicate-email error, whatever the rest of the table holds: after the
      first create exactly one row carries that email. */
  lemma SalvarSameEmailTwice(t: Table, e1: EmpregadoData, e2: EmpregadoData)
    requires Valid(t) && Salvar(t, e1).Success?
    requires e2.email == e1.email
    ensures Salvar(Salvar(t, e1).value.table, e2) == Failure(ResourceNotFound(DuplicateEmailMessage(e1.email)))
  {
    var s := Salvar(t, e1).value;
    var rows := s.table.rows;
    SaveThenFindById(t, e1);
    var k :| 0 <= k < |rows| && rows[k] == s.row;
    forall i | 0 <= i < |rows| && rows[i].email == e1.email ensures i == k {
      if IsUpdate(t, e1) {
        assert rows == Replace(t.rows, e1);
        assert t.rows[i].id == e1.id && t.rows[k].id == e1.id;
      } else {
        assert rows == t.rows + [s.row];
        assert i == |t.rows| && k == |t.rows|;
      }
    }
    assert FindByEmail(rows, e1.email).Success?;
  }

  /** Update does not re-check emails: saving an existing row under another
      row's email leaves two rows with the same email. */
  lemma UpdateMayDuplicateEmail()
    ensures var a := EmpregadoData(Some(1), "Ana", "Lima", "ana@x.com");
            var b := EmpregadoData(Some(2), "Rui", "Faria", "rui@x.com");
            var t := Table([a, b], 2);
            && Valid(t) && EmailsUnique(t.rows)
            && !EmailsUnique(Save(t, b.(email := a.email)).table.rows)
  {
    var a := EmpregadoData(Some(1), "Ana", "Lima", "ana@x.com");
    var b := EmpregadoData(Some(2), "Rui", "Faria", "rui@x.com");
    var t := Table([a, b], 2);
    var b' := b.(email := a.email);
    assert FindById(t.rows, 2) == Some(b);
    var rows := Save(t, b').table.rows;
    assert rows[0] == a && rows[1] == b';
  }

  /** When two rows already share an email (reachable through update), create
      under that email fails with the query's IncorrectResultSize error rather
      than the duplicate-email message, and writes nothing. */
  lemma SalvarOnSharedEmail()
    ensures var a := EmpregadoData(Some(1), "Ana", "Lima", "ana@x.com");
            var b := EmpregadoData(Some(2), "Rui", "Faria", "ana@x.com");
            var t := Table([a, b], 2);
            && Valid(t)
            && Salvar(t, EmpregadoData(None, "Eva", "Sousa", "ana@x.com")) == Failure(IncorrectResultSize(2))
  {
    var a := EmpregadoData(Some(1), "Ana", "Lima", "ana@x.com");
    var b := EmpregadoData(Some(2), "Rui", "Faria", "ana@x.com");
    assert WithEmail([a, b], "ana@x.com") == [a, b] by {
      assert [a, b][1..] == [b];
      assert [b][1..] == [];
    }
  }

  class EmpregadoServiceImpl {
    const empregadoRepository: EmpregadoRepository

    constructor (empregadoRepository: EmpregadoRepository)
      ensures this.empregadoRepository == empregadoRepository
    {
      this.empregadoRepository := empregadoRepository;
    }

    /** `salvarEmpregado`: Salvar on the repository's table. On a taken email it
        raises and neither the table nor the bean changes. Otherwise a bean
        without id receives the generated id and is itself returned, and a bean
        with an id is left untouched. */
    method SalvarEmpregado(empregado: Empregado) returns (r: Result<Empregado, Error>)
      requires empregadoRepository.Valid()
      modifies empregadoRepository, empregado
      ensures empregadoRepository.Valid()
      ensures var s := Salvar(old(empregadoRepository.State()), old(empregado.Data()));
              && (s.Failure? ==> r == Failure(s.error) && empregadoRepository.State() == old(empregadoRepository.State())
                                 && unchanged(empregado))
              && (s.Success? ==> r.Success? && r.value.Data() == s.value.row
                                 && empregadoRepository.State() == s.value.table)
      ensures old(empregado.id).None? && r.Success? ==> r.value == empregado
      ensures old(empregado.id).Some? ==> unchanged(empregado)
      ensures EmailsUnique(old(empregadoRepository.rows)) ==> EmailsUnique(empregadoRepository.rows)
    {
      ghost var t := empregadoRepository.State();
      ghost var e := empregado.Data();
      if EmailsUnique(t.rows) { SalvarKeepsEmailsUnique(t, e); }
      var existing := empregadoRepository.FindByEmail(empregado.email);
      match existing
      case Failure(err) =>
        r := Failure(err);
      case Success(Some(_)) =>
        r := Failure(ResourceNotFound(DuplicateEmailMessage(empregado.email)));
      case Success(None) =>
        var saved := empregadoRepository.Save(empregado);
        r := Success(saved);
    }

    /** `getAllEmpregados`: the repository's `findAll`, an empty list when the
        table is empty. */
    method GetAllEmpregados() returns (all: seq<EmpregadoData>)
      ensures all == empregadoRepository.rows
    {
      all := empregadoRepository.FindAll();
    }

    /** `getEmpregadoById`: the repository's `findById`, empty rather than an
        error when no row has the id. */
    method GetEmpregadoById(id: int) returns (found: Option<Empregado>)
      ensures found.Some? <==> FindById(empregadoRepository.rows, id).Some?
      ensures found.Some? ==> fresh(found.value) && found.value.Data() == FindById(empregadoRepository.rows, id).value
    {
      found := empregadoRepository.FindById(id);
    }

    /** `updateEmpregado`: `save` of the record as it is, with no email check.
        As with `save`, a record without id gets the generated id written into
        it and is itself returned; a record with an id is left untouched. */
    method UpdateEmpregado(empregado: Empregado) returns (updated: Empregado)
      requires empregadoRepository.Valid()
      modifies empregadoRepository, empregado
      ensures empregadoRepository.Valid()
      ensures empregadoRepository.State() == Save(old(empregadoRepository.State()), old(empregado.Data())).table
      ensures updated.Data() == Save(old(empregadoRepository.State()), old(empregado.Data())).row
      ensures old(empregado.id).None? ==> updated == empregado
      ensures old(empregado.id).Some? ==> fresh(updated) && unchanged(empregado)
    {
      updated := empregadoRepository.Save(empregado);
    }

    /** `deleteEmpregado`: the repository's `deleteById`. */
    method DeleteEmpregado(id: int) returns (r: Outcome<Error>)
      requires empregadoRepository.Valid()
      modifies empregadoRepository
      ensures empregadoRepository.Valid()
      ensures DeleteById(old(empregadoRepository.State()), id).Success? ==>
                r == Pass && empregadoRepository.State() == DeleteById(old(empregadoRepository.State()), id).value
      ensures DeleteById(old(empregadoRepository.State()), id).Failure? ==>
                r == Fail(DeleteById(old(empregadoRepository.State()), id).error)
                && empregadoRepository.State() == old(empregadoRepository.State())
    {
      r := empregadoRepository.DeleteById(id);
    }
  }
}
