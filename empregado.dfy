/** The `Empregado` entity: a mutable bean with an optional, store-assigned id
    and three required strings. */
module Model {
  import opened Wrappers

  /** The field values of an `Empregado`: what a row of table `empregados`
      holds and what a JSON request or response body carries. The three string
      columns are NOT NULL, so they are plain strings here. */
  datatype EmpregadoData = EmpregadoData(id: Option<int>, nome: string, sobrenome: string, email: string)

  /** The bean itself. Its getters are the field reads; its setters change
      exactly their own field. */
  class Empregado {
    var id: Option<int>
    var nome: string
    var sobrenome: string
    var email: string

    /** The bean's current field values. */
    function Data(): EmpregadoData
      reads this
    {
      EmpregadoData(id, nome, sobrenome, email)
    }

    /** The all-arguments constructor, which `Empregado.builder()...build()`
        also comes down to: every field holds exactly the value given. */
    constructor (id: Option<int>, nome: string, sobrenome: string, email: string)
      ensures this.id == id && this.nome == nome && this.sobrenome == sobrenome && this.email == email
      ensures Data() == EmpregadoData(id, nome, sobrenome, email)
    {
      this.id := id;
      this.nome := nome;
      this.sobrenome := sobrenome;
      this.email := email;
    }

    method SetId(id: Option<int>)
      modifies this
      ensures Data() == old(Data()).(id := id)
    {
      this.id := id;
    }

    method SetNome(nome: string)
      modifies this
      ensures Data() == old(Data()).(nome := nome)
    {
      this.nome := nome;
    }

    method SetSobrenome(sobrenome: string)
      modifies this
      ensures Data() == old(Data()).(sobrenome := sobrenome)
    {
      this.sobrenome := sobrenome;
    }

    method SetEmail(email: string)
      modifies this
      ensures Data() == old(Data()).(email := email)
    {
      this.email := email;
    }
  }
}
