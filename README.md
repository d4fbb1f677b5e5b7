# Empregado CRUD service: a Dafny model

This project models the core of a small Spring Boot CRUD service for employee
records (`Empregado`), in four layers plus a side example:

- **Model** (`empregado.dfy`): the `Empregado` bean. It has an optional,
  store-assigned `id` and three required strings: `nome`, `sobrenome` and
  `email`. It is a class whose setters each change only their own field.
  `EmpregadoData` holds its field values. A table row, a response body and a
  list element returned by `findAll` are all `EmpregadoData` values. The
  request bodies of POST and PUT are `Empregado` beans.
- **Store** and **Repository** (`store.dfy`, `repository.dfy`): the table
  behind `EmpregadoRepository`. It is a sequence of rows in insertion order
  plus the IDENTITY counter `lastId`. Module `Store` defines `save` and
  `deleteById` as functions on a `Table` value, and `findById` and
  `findByEmail` as functions on its rows, together with the lemmas about them. Class
  `Repository.EmpregadoRepository` holds the table in fields that its methods
  reassign. Each of those four methods is specified by the matching `Store`
  function, and `findAll` returns the rows field itself.
- **Service** (`service.dfy`): `EmpregadoServiceImpl`. Create (`Salvar` /
  `SalvarEmpregado`) looks the email up first. If exactly one row has it, create
  fails with "Já existe empregado com esse email: " + email. If several rows
  already share it, the query's IncorrectResultSize error propagates instead
  (`SalvarOnSharedEmail`). Either way nothing is written.
  Every other operation is a pass-through to the repository. The main result
  is that create keeps stored emails distinct (`SalvarKeepsEmailsUnique`).
  Update does not re-check emails, and `UpdateMayDuplicateEmail` shows it can
  break uniqueness.
- **Controller** (`controller.dfy`): `EmpregadoController`. Pure functions map
  service results to a `Response(status, body)`:
  - 201 on create;
  - 200 or 404 on GET by id;
  - on PUT, only `nome`, `sobrenome` and `email` are copied, and the stored id
    is kept;
  - 200 with a fixed text on DELETE.

  The handler methods call the service and apply those functions. Lemmas
  connect the layers end to end. After a POST, GET of the returned id answers 200
  with the record. After a DELETE, GET answers 404. A PUT keeps the id and
  adds no row.
- **Examples** (`service_b.dfy`): `ServiceBImpl`. It computes `multiplicar`
  and `calculoMultiplicar` in Java 32-bit `int` arithmetic (wrap-around
  modulo 2^32, written out). `soma` comes from the ServiceA collaborator held
  in a field, and is given here as a function value.

What the store does on `save` follows Spring Data JPA with Hibernate:

- A record without id is persisted. It gets the next id, `lastId + 1`, and
  that id is written into the bean itself.
- A record whose id the table holds is merged into that row in place.
- A record whose id the table does not hold is inserted under a generated id,
  and the id it carried is ignored.

Ids are never reused after a delete.

## Model

| member | source | states |
|---|---|---|
| `Model.Empregado.constructor` | src/main/java/com/daniel/testeunitario/model/Empregado.java:18-36 | building a bean yields exactly the given id, nome, sobrenome and email, read back unchanged |
| `Model.Empregado.SetId` | src/main/java/com/daniel/testeunitario/model/Empregado.java:16 | the setter changes only `id`; the other three fields keep their values |
| `Model.Empregado.SetNome` | src/main/java/com/daniel/testeunitario/model/Empregado.java:16 | the setter changes only `nome`; the other three fields keep their values |
| `Model.Empregado.SetSobrenome` | src/main/java/com/daniel/testeunitario/model/Empregado.java:16 | the setter changes only `sobrenome`; the other three fields keep their values |
| `Model.Empregado.SetEmail` | src/main/java/com/daniel/testeunitario/model/Empregado.java:16 | the setter changes only `email`; the other three fields keep their values |
| `Store.FindById` | src/main/java/com/daniel/testeunitario/repository/EmpregadoRepository.java:9 | a found row is in the table and carries the id; empty exactly when no row carries it |
| `Store.FindByIdIff` | src/main/java/com/daniel/testeunitario/repository/EmpregadoRepository.java:9 | in a table with ascending ids, `findById(id)` is `x` if and only if `x` is a row with that id |
| `Store.FindByIdSame` | src/main/java/com/daniel/testeunitario/repository/EmpregadoRepository.java:9 | two tables that agree on the rows with an id agree on `findById` of it |
| `Store.WithEmail` | src/main/java/com/daniel/testeunitario/repository/EmpregadoRepository.java:11 | the rows matched by email all carry that email; none are matched exactly when no row has it |
| `Store.WithEmailTwo` | src/main/java/com/daniel/testeunitario/repository/EmpregadoRepository.java:11 | at least two rows match if and only if two distinct rows carry the email |
| `Store.WithEmailUnique` | src/main/java/com/daniel/testeunitario/repository/EmpregadoRepository.java:11 | with unique emails at most one row matches |
| `Store.FindByEmail` | src/main/java/com/daniel/testeunitario/repository/EmpregadoRepository.java:11 | empty if and only if no row has the email; a found row has that email; fails (IncorrectResultSize) if and only if two rows share it, which unique emails rule out |
| `Store.Save` | src/main/java/com/daniel/testeunitario/repository/EmpregadoRepository.java:9 | keeps the table valid; the returned row has a positive id and the record's fields; a known id is overwritten in place (same count, same counter); otherwise the row is appended under id `lastId + 1` |
| `Store.SaveThenFindById` | src/test/java/com/daniel/testeunitario/repository/EmpregadoRepositoryTest.java:85-91 | after `save`, `findById` of the returned id is present and is the returned row |
| `Store.SaveLeavesOthers` | src/test/java/com/daniel/testeunitario/repository/EmpregadoRepositoryTest.java:104-114 | `save` leaves `findById` of every other id unchanged |
| `Store.DeleteById` | src/main/java/com/daniel/testeunitario/repository/EmpregadoRepository.java:9 | fails (EmptyResultDataAccess) if and only if the id is absent; otherwise one row fewer, counter kept, table valid, and `findById(id)` empty |
| `Store.DeleteLeavesOthers` | src/test/java/com/daniel/testeunitario/repository/EmpregadoRepositoryTest.java:127-130 | `deleteById` leaves `findById` of every other id unchanged |
| `Store.DeletedIdNeverReused` | src/main/java/com/daniel/testeunitario/model/Empregado.java:25-27 | after a delete, the next inserted record gets an id larger than the deleted one |
| `Store.FirstSavesIds` | src/test/java/com/daniel/testeunitario/repository/EmpregadoRepositoryTest.java:62-75 | on an empty table the first save gets id 1 and a second new record id 2; `findAll` lists exactly those two, in order |
| `Repository.EmpregadoRepository.constructor` | src/main/java/com/daniel/testeunitario/repository/EmpregadoRepository.java:9 | the repository starts with an empty, valid table |
| `Repository.EmpregadoRepository.Save` | src/main/java/com/daniel/testeunitario/repository/EmpregadoRepository.java:9 | the new table and the returned bean are those of `Store.Save`; a new bean gets its id written in and is returned itself; a merged bean is left untouched and a fresh copy is returned |
| `Repository.EmpregadoRepository.FindById` | src/main/java/com/daniel/testeunitario/repository/EmpregadoRepository.java:9 | present exactly when a row has the id, as a fresh bean holding that row |
| `Repository.EmpregadoRepository.FindAll` | src/main/java/com/daniel/testeunitario/repository/EmpregadoRepository.java:9 | every row in table order (an empty list for an empty table) |
| `Repository.EmpregadoRepository.FindByEmail` | src/main/java/com/daniel/testeunitario/repository/EmpregadoRepository.java:11 | the result `Store.FindByEmail` specifies |
| `Repository.EmpregadoRepository.DeleteById` | src/main/java/com/daniel/testeunitario/repository/EmpregadoRepository.java:9 | on success the table is that of `Store.DeleteById`; on failure the error propagates and the table is unchanged |
| `Service.Salvar` | src/main/java/com/daniel/testeunitario/service/impl/EmpregadoServiceImpl.java:23-30 | succeeds if and only if no row has the email, and then is exactly `save`; when two or more rows hold the email it fails with the query's IncorrectResultSize error; any other failure (exactly one row holds the email, whatever the other rows hold) is the "Já existe empregado com esse email: " message |
| `Service.SaveUnusedEmailKeepsUnique` | src/main/java/com/daniel/testeunitario/service/impl/EmpregadoServiceImpl.java:29 | saving a record under an unused email keeps emails unique, whether it inserts or merges |
| `Service.SalvarKeepsEmailsUnique` | src/main/java/com/daniel/testeunitario/service/impl/EmpregadoServiceImpl.java:23-30 | invariant: if stored emails are distinct before create, they are distinct after it |
| `Service.SalvarSameEmailTwice` | src/test/java/com/daniel/testeunitario/service/EmpregadoServiceTest.java:139-147 | creating a second record with an email just created fails with the duplicate-email error, on any valid table: after the first create exactly one row carries that email |
| `Service.UpdateMayDuplicateEmail` | src/main/java/com/daniel/testeunitario/service/impl/EmpregadoServiceImpl.java:43-45 | update does not re-check emails: a concrete valid table with unique emails where an update leaves two rows with one email |
| `Service.SalvarOnSharedEmail` | src/main/java/com/daniel/testeunitario/service/impl/EmpregadoServiceImpl.java:23-30 | on a valid table where two rows share an email, create under that email fails with IncorrectResultSize(2), not the duplicate-email message |
| `Service.EmpregadoServiceImpl.constructor` | src/main/java/com/daniel/testeunitario/service/impl/EmpregadoServiceImpl.java:16-20 | the service is built over the given repository |
| `Service.EmpregadoServiceImpl.SalvarEmpregado` | src/main/java/com/daniel/testeunitario/service/impl/EmpregadoServiceImpl.java:23-30 | on a taken email it raises and neither the table nor the bean changes; otherwise it returns what `save` returned and the table is `save`'s; a bean without id receives the generated id and is itself returned, a bean with an id is left untouched; distinct emails stay distinct |
| `Service.EmpregadoServiceImpl.GetAllEmpregados` | src/main/java/com/daniel/testeunitario/service/impl/EmpregadoServiceImpl.java:33-35 | exactly the repository's `findAll`: every row, an empty list when there is none |
| `Service.EmpregadoServiceImpl.GetEmpregadoById` | src/main/java/com/daniel/testeunitario/service/impl/EmpregadoServiceImpl.java:38-40 | exactly the repository's `findById`: the row's record if present, else empty rather than an error |
| `Service.EmpregadoServiceImpl.UpdateEmpregado` | src/main/java/com/daniel/testeunitario/service/impl/EmpregadoServiceImpl.java:43-45 | saves the record as it is (no email lookup) and returns what `save` returned; a bean without id receives the generated id and is itself returned, a bean with an id is left untouched and a new bean is returned |
| `Service.EmpregadoServiceImpl.DeleteEmpregado` | src/main/java/com/daniel/testeunitario/service/impl/EmpregadoServiceImpl.java:48-50 | exactly the repository's `deleteById` |
| `Controller.FoundOrNotFound` | src/main/java/com/daniel/testeunitario/controller/EmpregadoController.java:65-66 | 200 exactly when a record is present, with that record as body; 404 with an empty body when absent |
| `Controller.CopyFields` | src/main/java/com/daniel/testeunitario/controller/EmpregadoController.java:73-75 | keeps the stored record's id and takes nome, sobrenome and email from the request body |
| `Controller.GetByIdStatus` | src/main/java/com/daniel/testeunitario/controller/EmpregadoController.java:63-67 | GET by id answers 200 if and only if a row has the id, with that row; 404 exactly with an empty body, and a missing id answers 404 with an empty body |
| `Controller.PostThenGet` | src/main/java/com/daniel/testeunitario/controller/EmpregadoController.java:30-34 | a successful POST creates a record with a positive id and the request's fields; the id is `lastId + 1` and the counter advances, unless the body names a stored row, which keeps its id and the counter; GET of that id then answers 200 with the same record |
| `Controller.PutKeepsIdCopiesFields` | src/main/java/com/daniel/testeunitario/controller/EmpregadoController.java:70-79 | PUT on a stored id keeps that id whatever the body's id, takes the body's three fields, adds no row, leaves other ids alone; GET then answers 200 with it |
| `Controller.DeleteThenGet` | src/main/java/com/daniel/testeunitario/controller/EmpregadoController.java:83-87 | after a successful DELETE, GET of that id answers 404 and every other id answers as before |
| `Controller.EmpregadoController.constructor` | src/main/java/com/daniel/testeunitario/controller/EmpregadoController.java:24-27 | the controller is built over the given service |
| `Controller.EmpregadoController.CriarEmpregado` | src/main/java/com/daniel/testeunitario/controller/EmpregadoController.java:30-34 | 201 with the entity `salvarEmpregado` returned; a duplicate-email failure is not mapped to a status but propagates, with the table unchanged; a body without id receives the generated id on success, and is left untouched on failure or when it has an id |
| `Controller.EmpregadoController.FindAllEmpregados` | src/main/java/com/daniel/testeunitario/controller/EmpregadoController.java:37-40 | 200 with the service's list unchanged |
| `Controller.EmpregadoController.FindByIdEmpregado` | src/main/java/com/daniel/testeunitario/controller/EmpregadoController.java:63-67 | 200 with the record when present, 404 with an empty body when absent |
| `Controller.EmpregadoController.AtualizarPorIdEmpregado` | src/main/java/com/daniel/testeunitario/controller/EmpregadoController.java:70-80 | missing id: 404 and no write; stored id: the stored record with only nome, sobrenome and email copied from the body is updated, and 200 with the result |
| `Controller.EmpregadoController.DeletarPorIdEmpregado` | src/main/java/com/daniel/testeunitario/controller/EmpregadoController.java:83-87 | calls `deleteEmpregado(id)` and then answers 200 with "Empregado deletado com Sucesso!"; a failure of the delete propagates |
| `Examples.Wrap` | src/main/java/com/daniel/testeunitario/examples/ServiceBImpl.java:19 | Java `int` narrowing: the 32-bit value congruent to x modulo 2^32, which is x itself when x fits |
| `Examples.Multiplicar` | src/main/java/com/daniel/testeunitario/examples/ServiceBImpl.java:23-26 | `num1 * num2` exactly when it fits in an `int`; otherwise wrapped modulo 2^32 |
| `Examples.MultiplicarTwoThree` | src/test/java/com/daniel/testeunitario/examples/TestServiceB.java:17 | `multiplicar(2, 3) == 6` |
| `Examples.MultiplicarWraps` | src/main/java/com/daniel/testeunitario/examples/ServiceBImpl.java:25 | an overflowing product wraps: 65536 * 65536 is 0 |
| `Examples.ServiceBImpl.constructor` | src/main/java/com/daniel/testeunitario/examples/ServiceBImpl.java:3-5 | a new bean has no ServiceA set (a null field) |
| `Examples.ServiceBImpl.SetServiceA` | src/main/java/com/daniel/testeunitario/examples/ServiceBImpl.java:7-15 | after `setServiceA(s)`, `getServiceA()` returns `s` |
| `Examples.ServiceBImpl.CalculoMultiplicar` | src/main/java/com/daniel/testeunitario/examples/ServiceBImpl.java:17-21 | `soma(num1, num2) * multiplicador` in `int` arithmetic (exact when it fits, wrapped otherwise); no result (NullPointerException) when no ServiceA is set |
| `Examples.CalculoWithStubbedSoma` | src/test/java/com/daniel/testeunitario/examples/TestServiceB.java:28-34 | with `soma(2, 3)` stubbed to 5, `calculoMultiplicar(2, 3, 2) == 10` |

## Left out

- Spring machinery is not modelled: request mapping annotations, `@Service`, dependency injection and the Lombok-generated code. Collaborators are constructor parameters, and Lombok getters are plain field reads.
- HTTP transport and JSON are not modelled: Jackson, content types and the test clients. A response is a `(status, body)` value.
- An error that propagates out of a handler is returned as a `Failure`. The server error Spring would then produce is not modelled.
- JPA, Hibernate and the database are replaced by the in-memory table. Within one persistence context, JPA returns the same managed instance from repeated `findById` calls; the model returns a fresh bean copy every time. Likewise `save` of a bean that is already managed (as inside a `@DataJpaTest` transaction) merges onto that instance and returns it; `Repository.EmpregadoRepository.Save` always treats a bean with an id as detached, leaving it untouched and returning a fresh copy.
- `findAll` and `findByEmail` return field values, not bean objects. No caller mutates what they return, so object identity does not matter there.
- Null strings are not modelled. The three columns are NOT NULL and are plain `string`s here, so a save with a null field and the database's rejection of it are outside the model. Empty strings are accepted, as in the code; nothing checks for non-empty names.
- Deleting a missing id follows Spring Data JPA 2.x (the `javax.persistence` import places the service on Spring Boot 2.x). That version raises EmptyResultDataAccessException and changes nothing. The model does not treat delete as idempotent.
- The 64-bit `Long` bound on ids is not modelled. The id counter is an unbounded `nat`.
- Concurrent requests and transaction isolation are not modelled; the database handles them.
- ServiceA and its implementations are not part of this model. `soma` is an arbitrary function value. Only the test's stub `soma(2, 3) = 5` is used.
- `EmpregadoService` and `ServiceB` are not modelled separately. They are interfaces that declare the signatures implemented above.
- `ResourceNotFoundException` is not part of this model. It appears only as an error value that carries its message.
- Mockito stubbing, call verification and test ordering are not modelled. The facts those tests assert are stated as the lemmas above.
