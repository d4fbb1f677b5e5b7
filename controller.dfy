/** `EmpregadoController`: maps service results to HTTP status and body. The
    mapping itself is a set of pure functions; the controller's handlers call
    the service and apply them. */
module Controller {
  import opened Wrappers
  import opened Errors
  import opened Model
  import opened Store
  import opened Service

  const OK := 200
  const CREATED := 201
  const NOT_FOUND := 404

  const DELETED_MESSAGE := "Empregado deletado com Sucesso!"

  datatype Body = NoBody | One(empregado: EmpregadoData) | Many(empregados: seq<EmpregadoData>) | Text(text: string)

  /** A `ResponseEntity`: status and body (headers and JSON are transport). */
  datatype Response = Response(status: int, body: Body)

  /** POST answers 201 with the created entity. */
  function Created(saved: EmpregadoData): Response {
    Response(CREATED, One(saved))
  }

  /** GET of the list answers 200 with the service's list as it is. */
  function Listed(all: seq<EmpregadoData>): Response {
    Response(OK, Many(all))
  }

  /** `.map(ResponseEntity::ok).orElseGet(notFound)`: 200 with the record when
      present, 404 with an empty body when absent. */
  function FoundOrNotFound(found: Option<EmpregadoData>): (r: Response)
    ensures r.status == OK <==> found.Some?
    ensures found.Some? ==> r.body == One(found.value)
    ensures found.None? ==> r == Response(NOT_FOUND, NoBody)
  {
    match found
    case Some(e) => Response(OK, One(e))
    case None => Response(NOT_FOUND, NoBody)
  }

  /** PUT's three setters: the stored record with nome, sobrenome and email of
      the request body. */
  function CopyFields(stored: EmpregadoData, body: EmpregadoData): (r: EmpregadoData)
    ensures r.id == stored.id
    ensures (r.nome, r.sobrenome, r.email) == (body.nome, body.sobrenome, body.email)
  {
    stored.(nome := body.nome, sobrenome := body.sobrenome, email := body.email)
  }

  /** DELETE answers 200 with its fixed confirmation text. */
  function Deleted(): Response {
    Response(OK, Text(DELETED_MESSAGE))
  }

  /** GET by id answers 200 exactly when the table holds the id, with that row,
      and 404 with no body otherwise. */
  lemma GetByIdStatus(t: Table, id: int)
    requires Valid(t)
    ensures var r := FoundOrNotFound(FindById(t.rows, id));
            && (r.status == OK <==> exists i :: 0 <= i < |t.rows| && t.rows[i].id == Some(id))
            && (r.status == OK ==> r.body.One? && r.body.empregado in t.rows && r.body.empregado.id == Some(id))
            && (r.status == NOT_FOUND <==> r.body == NoBody)
            && (FindById(t.rows, id).None? ==> r == Response(NOT_FOUND, NoBody))
  {
  }

  /** A successful POST is answered 201 with a record whose id is positive and
      whose other fields echo the request. The id is the next generated one,
      unless the body names a stored row, which is then merged under its own id.
      GET of that id then answers 200 with the same record. */
  lemma PostThenGet(t: Table, body: EmpregadoData)
    requires Valid(t) && Salvar(t, body).Success?
    ensures var s := Salvar(t, body).value;
            && s.row.id.Some? && s.row.id.value > 0
            && (!IsUpdate(t, body) ==> s.row.id == Some(t.lastId + 1) && s.table.lastId == t.lastId + 1)
            && (IsUpdate(t, body) ==> s.row.id == body.id && s.table.lastId == t.lastId)
            && (s.row.nome, s.row.sobrenome, s.row.email) == (body.nome, body.sobrenome, body.email)
            && FoundOrNotFound(FindById(s.table.rows, s.row.id.value)) == Response(OK, One(s.row))
  {
    SaveThenFindById(t, body);
  }

  /** PUT on a stored id keeps that id (whatever id the body carries), takes
      the body's three fields, adds no row, and GET then answers 200 with it. */
  lemma PutKeepsIdCopiesFields(t: Table, id: int, body: EmpregadoData)
    requires Valid(t) && FindById(t.rows, id).Some?
    ensures var s := Save(t, CopyFields(FindById(t.rows, id).value, body));
            && s.row.id == Some(id)
            && (s.row.nome, s.row.sobrenome, s.row.email) == (body.nome, body.sobrenome, body.email)
            && |s.table.rows| == |t.rows|
            && FoundOrNotFound(FindById(s.table.rows, id)) == Response(OK, One(s.row))
            && forall other :: other != id ==> FindById(s.table.rows, other) == FindById(t.rows, other)
  {
    var e := CopyFields(FindById(t.rows, id).value, body);
    assert IsUpdate(t, e);
    SaveThenFindById(t, e);
    forall other | other != id ensures FindById(Save(t, e).table.rows, other) == FindById(t.rows, other) {
      SaveLeavesOthers(t, e, other);
    }
  }

  /** After a successful DELETE, GET of that id answers 404 and every other id
      answers as before. */
  lemma DeleteThenGet(t: Table, id: int)
    requires Valid(t) && DeleteById(t, id).Success?
    ensures var t' := DeleteById(t, id).value;
            && FoundOrNotFound(FindById(t'.rows, id)) == Response(NOT_FOUND, NoBody)
            && forall other :: other != id ==>
                 FoundOrNotFound(FindById(t'.rows, other)) == FoundOrNotFound(FindById(t.rows, other))
  {
    forall other | other != id
      ensures FoundOrNotFound(FindById(DeleteById(t, id).value.rows, other)) == FoundOrNotFound(FindById(t.rows, other))
    {
      DeleteLeavesOthers(t, id, other);
    }
  }

  class EmpregadoController {
    const empregadoService: EmpregadoServiceImpl

    constructor (empregadoService: EmpregadoServiceImpl)
      ensures this.empregadoService == empregadoService
    {
      this.empregadoService := empregadoService;
    }

    /** POST /api/empregados: 201 with what `salvarEmpregado` returned; its
        failure (a taken email) is not mapped to a status but propagates. */
    method CriarEmpregado(empregado: Empregado) returns (r: Result<Response, Error>)
      requires empregadoService.empregadoRepository.Valid()
      modifies empregadoService.empregadoRepository, empregado
      ensures empregadoService.empregadoRepository.Valid()
      ensures var s := Salvar(old(empregadoService.empregadoRepository.State()), old(empregado.Data()));
              && (s.Success? ==> r == Success(Created(s.value.row))
                                 && empregadoService.empregadoRepository.State() == s.value.table)
              && (s.Failure? ==> r == Failure(s.error)
                                 && empregadoService.empregadoRepository.State() == old(empregadoService.empregadoRepository.State()))
              && (s.Success? && old(empregado.id).None? ==> empregado.Data() == s.value.row)
      ensures old(empregado.id).Some? || r.Failure? ==> unchanged(empregado)
    {
      var saved := empregadoService.SalvarEmpregado(empregado);
      match saved
      case Success(e) =>
        r := Success(Created(e.Data()));
      case Failure(err) =>
        r := Failure(err);
    }

    /** GET /api/empregados: 200 with every stored record, in table order. */
    method FindAllEmpregados() returns (r: Response)
      ensures r == Listed(empregadoService.empregadoRepository.rows)
    {
      var all := empregadoService.GetAllEmpregados();
      r := Listed(all);
    }

    /** GET /api/empregados/{id}. */
    method FindByIdEmpregado(id: int) returns (r: Response)
      ensures r == FoundOrNotFound(FindById(empregadoService.empregadoRepository.rows, id))
    {
      var found := empregadoService.GetEmpregadoById(id);
      match found
      case Some(e) =>
        r := FoundOrNotFound(Some(e.Data()));
      case None =>
        r := FoundOrNotFound(None);
    }

    /** PUT /api/empregados/{id}: on a stored id, copy the body's nome,
        sobrenome and email onto the fetched record, `updateEmpregado` it and
        answer 200 with the result; on a missing id answer 404 and write nothing. */
    method AtualizarPorIdEmpregado(id: int, empregado: Empregado) returns (r: Response)
      requires empregadoService.empregadoRepository.Valid()
      modifies empregadoService.empregadoRepository
      ensures empregadoService.empregadoRepository.Valid()
      ensures var found := FindById(old(empregadoService.empregadoRepository.rows), id);
              && (found.None? ==> r == Response(NOT_FOUND, NoBody)
                                  && empregadoService.empregadoRepository.State() == old(empregadoService.empregadoRepository.State()))
              && (found.Some? ==>
                    var s := Save(old(empregadoService.empregadoRepository.State()), CopyFields(found.value, old(empregado.Data())));
                    r == Response(OK, One(s.row)) && empregadoService.empregadoRepository.State() == s.table)
    {
      var found := empregadoService.GetEmpregadoById(id);
      match found
      case None =>
        r := Response(NOT_FOUND, NoBody);
      case Some(salvarEmpregado) =>
        salvarEmpregado.SetNome(empregado.nome);
        salvarEmpregado.SetSobrenome(empregado.sobrenome);
        salvarEmpregado.SetEmail(empregado.email);
        var empregadoAtualizado := empregadoService.UpdateEmpregado(salvarEmpregado);
        r := Response(OK, One(empregadoAtualizado.Data()));
    }

    /** DELETE /api/empregados/{id}: `deleteEmpregado`, then 200 with the
        confirmation text; a failure of the delete propagates. */
    method DeletarPorIdEmpregado(id: int) returns (r: Result<Response, Error>)
      requires empregadoService.empregadoRepository.Valid()
      modifies empregadoService.empregadoRepository
      ensures empregadoService.empregadoRepository.Valid()
      ensures var d := DeleteById(old(empregadoService.empregadoRepository.State()), id);
              && (d.Success? ==> r == Success(Deleted()) && empregadoService.empregadoRepository.State() == d.value)
              && (d.Failure? ==> r == Failure(d.error)
                                 && empregadoService.empregadoRepository.State() == old(empregadoService.empregadoRepository.State()))
    {
      var deleted := empregadoService.DeleteEmpregado(id);
      match deleted
      case Pass =>
        r := Success(Deleted());
      case Fail(err) =>
        r := Failure(err);
    }
  }
}
