/**
 * The submit handler of the registration page: validate the form, and only
 * when no check fails build the data tuple and insert it.
 */
module Cadastro {
  import opened Wrappers
  import opened Database
  import opened Formulario

  /** What the page shows after a submit. */
  datatype Resultado =
    | Rejeitado(erros: seq<Erro>)   // one `st.error` per message, nothing written
    | Cadastrado(id: int)           // the success message with the new id
    | FalhaAoCadastrar              // the insert raised (SQLITE_FULL)

  datatype Passo = Passo(tabela: Tabela, resultado: Resultado)

  /**
   * One click on "Salvar Cadastro". The insert is reached only when the error
   * list is empty; a rejected or failed submit leaves the table as it was; a
   * successful one adds exactly the normalised row under a fresh id.
   */
  function SubmeterCadastro(t: Tabela, f: Form, agora: Timestamp): (p: Passo)
    requires Valida(t)
    ensures Valida(p.tabela)
    ensures p.resultado.Rejeitado? <==> Erros(f) != []
    ensures p.resultado.Rejeitado? ==> p.resultado.erros == Erros(f) && p.tabela == t
    ensures p.resultado.FalhaAoCadastrar? <==> Erros(f) == [] && t.sequencia == MaxRowId
    ensures p.resultado.FalhaAoCadastrar? ==> p.tabela == t
    ensures p.resultado.Cadastrado? ==>
      var id := p.resultado.id;
      && id !in t.linhas
      && id > t.sequencia && p.tabela.sequencia == id
      && p.tabela.linhas == t.linhas[id := NovaLinha(id, Normalizar(f), agora)]
      && BuscarColaboradorPorId(p.tabela, id) == Some(NovaLinha(id, Normalizar(f), agora))
      && DadosConsistentes(p.tabela.linhas[id].Campos())
  {
    var erros := Erros(f);
    if erros != [] then
      Passo(t, Rejeitado(erros))
    else
      match InserirColaborador(t, Normalizar(f), agora)
      case Success(ins) => Passo(ins.tabela, Cadastrado(ins.id))
      case Failure(_) => Passo(t, FalhaAoCadastrar)
  }

  /**
   * Every row written through the registration form has a stripped, non-empty
   * name, a CEP in the CEP layout and a phone with at least ten digits: a
   * submit keeps the table consistent.
   */
  lemma CadastroPreservaConsistencia(t: Tabela, f: Form, agora: Timestamp)
    requires Valida(t) && TabelaConsistente(t)
    ensures TabelaConsistente(SubmeterCadastro(t, f, agora).tabela)
  {
    var p := SubmeterCadastro(t, f, agora);
    if p.resultado.Cadastrado? {
      forall k | k in p.tabela.linhas
        ensures DadosConsistentes(p.tabela.linhas[k].Campos())
      {
        if k != p.resultado.id {
          assert p.tabela.linhas[k] == t.linhas[k];
        }
      }
    }
  }
}
