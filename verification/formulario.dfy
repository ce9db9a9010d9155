/**
 * The submit logic the registration form and the edit form share: the list
 * of validation errors and the data tuple handed to the database. Both forms
 * repeat the same code; it is defined once here.
 */
module Formulario {
  import opened Wrappers
  import opened Texto
  import opened Validacao
  import opened Database

  /** The raw widget values of a form, in the order of the data tuple. */
  datatype Form = Form(
    nomeCompleto: string,
    endereco: string,
    bairro: string,
    cidade: string,
    estado: string,
    cep: string,
    telefone: string,
    dataNascimento: Option<Date>,
    cargo: string)

  /** The `estados_brasil` selectbox options: the empty choice and the 27 UF codes. */
  const Estados: seq<string> := [
    "", "AC", "AL", "AP", "AM", "BA", "CE", "DF", "ES", "GO",
    "MA", "MT", "MS", "MG", "PA", "PB", "PR", "PE", "PI",
    "RJ", "RN", "RS", "RO", "RR", "SC", "SP", "SE", "TO"]

  /** The `cargos_comuns` selectbox options. */
  const Cargos: seq<string> := [
    "", "Analista", "Desenvolvedor", "Gerente", "Coordenador",
    "Assistente", "Diretor", "Supervisor", "Técnico", "Estagiário",
    "Consultor", "Especialista", "Outro"]

  /** The three messages the handler can show. */
  datatype Erro = NomeObrigatorio | CepInvalido | TelefoneInvalido

  /** The position of each check in the handler. */
  function Ordem(e: Erro): nat {
    match e
    case NomeObrigatorio => 0
    case CepInvalido => 1
    case TelefoneInvalido => 2
  }

  /** An empty CEP is never checked; a filled one must pass `validar_cep`. */
  predicate CepAceito(cep: string) {
    cep == [] || ValidarCep(cep)
  }

  /** An empty phone is never checked; a filled one must pass `validar_telefone`. */
  predicate TelefoneAceito(telefone: string) {
    telefone == [] || ValidarTelefone(telefone)
  }

  /**
   * The `erros` list the submit handler builds: one message per failed check,
   * in the fixed order name, CEP, phone. It is empty exactly when the form may
   * be saved.
   */
  function Erros(f: Form): (es: seq<Erro>)
    ensures es == [] <==> Strip(f.nomeCompleto) != [] && CepAceito(f.cep) && TelefoneAceito(f.telefone)
    ensures NomeObrigatorio in es <==> AllSpace(f.nomeCompleto)
    ensures CepInvalido in es <==> !CepAceito(f.cep)
    ensures TelefoneInvalido in es <==> !TelefoneAceito(f.telefone)
    ensures forall i, j :: 0 <= i < j < |es| ==> Ordem(es[i]) < Ordem(es[j])
  {
    (if Strip(f.nomeCompleto) == [] then [NomeObrigatorio] else [])
    + (if f.cep != [] && !ValidarCep(f.cep) then [CepInvalido] else [])
    + (if f.telefone != [] && !ValidarTelefone(f.telefone) then [TelefoneInvalido] else [])
  }

  /**
   * `campo.strip() if campo else None`: only the empty string becomes NULL,
   * anything else is stored stripped, so a whitespace-only text is stored as
   * "". Read back with `or ""`, the stored value is the stripped text.
   */
  function TextoOpcional(s: string): (r: Option<string>)
    ensures r.None? <==> s == []
    ensures r.GetOr("") == Strip(s)
    ensures r.Some? ==> Strip(r.value) == r.value
    ensures r == Some([]) <==> s != [] && AllSpace(s)
  {
    if s == [] then None
    else
      StripIdempotent(s);
      Some(Strip(s))
  }

  /**
   * `campo if campo else None`, for the selectbox values, which are not
   * stripped: a stored choice is never empty, and reading it back with
   * `or ""` gives the choice.
   */
  function EscolhaOpcional(s: string): (r: Option<string>)
    ensures r.Some? ==> r.value != []
    ensures r.GetOr("") == s
  {
    if s == [] then None else Some(s)
  }

  /**
   * What the handlers store for a saved form: a stripped, non-empty name;
   * stripped optional texts; a CEP in the exact CEP layout; a phone with at
   * least ten digits; non-empty state and role when present.
   */
  predicate DadosConsistentes(d: Dados) {
    && d.nomeCompleto != [] && Strip(d.nomeCompleto) == d.nomeCompleto
    && (d.endereco.Some? ==> Strip(d.endereco.value) == d.endereco.value)
    && (d.bairro.Some? ==> Strip(d.bairro.value) == d.bairro.value)
    && (d.cidade.Some? ==> Strip(d.cidade.value) == d.cidade.value)
    && (d.estado.Some? ==> d.estado.value != [])
    && (d.cep.Some? ==> CepFormat(d.cep.value))
    && (d.telefone.Some? ==> Strip(d.telefone.value) == d.telefone.value && ValidarTelefone(d.telefone.value))
    && (d.cargo.Some? ==> d.cargo.value != [])
  }

  /** Every row of the table holds data a form handler could have stored. */
  ghost predicate TabelaConsistente(t: Tabela) {
    forall id :: id in t.linhas ==> DadosConsistentes(t.linhas[id].Campos())
  }

  /**
   * The `dados` tuple: the stripped name first; free-text fields stripped, or
   * NULL when left empty; state and role as chosen, or NULL when empty; the
   * birth date unchanged. A form without errors gives data with a non-empty
   * stripped name, a CEP in the exact CEP layout and a stripped phone with at
   * least ten digits.
   */
  function Normalizar(f: Form): (d: Dados)
    ensures Erros(f) == [] ==> DadosConsistentes(d)
    ensures d.nomeCompleto == Strip(f.nomeCompleto)
    ensures d.endereco == TextoOpcional(f.endereco)
    ensures d.bairro == TextoOpcional(f.bairro)
    ensures d.cidade == TextoOpcional(f.cidade)
    ensures d.estado == EscolhaOpcional(f.estado)
    ensures d.cep == TextoOpcional(f.cep)
    ensures d.telefone == TextoOpcional(f.telefone)
    ensures d.dataNascimento == f.dataNascimento
    ensures d.cargo == EscolhaOpcional(f.cargo)
  {
    var d := Dados(
      Strip(f.nomeCompleto),
      TextoOpcional(f.endereco),
      TextoOpcional(f.bairro),
      TextoOpcional(f.cidade),
      EscolhaOpcional(f.estado),
      TextoOpcional(f.cep),
      TextoOpcional(f.telefone),
      f.dataNascimento,
      EscolhaOpcional(f.cargo));
    if Erros(f) == [] then
      CamposValidados(f);
      d
    else
      d
  }

  /** What the three checks guarantee about the name, CEP and phone once stripped. */
  lemma CamposValidados(f: Form)
    requires Erros(f) == []
    ensures Strip(f.nomeCompleto) != [] && Strip(Strip(f.nomeCompleto)) == Strip(f.nomeCompleto)
    ensures f.cep != [] ==> CepFormat(Strip(f.cep))
    ensures f.telefone != [] ==> ValidarTelefone(Strip(f.telefone))
  {
    assert Strip(f.nomeCompleto) != [] && CepAceito(f.cep) && TelefoneAceito(f.telefone);
    StripIdempotent(f.nomeCompleto);
    if f.cep != [] {
      CepArmazenado(f.cep);
    }
    if f.telefone != [] {
      TelefoneIgnoraStrip(f.telefone);
    }
  }

  /** A CEP that passes validation is stored, after strip, in the exact CEP layout. */
  lemma CepArmazenado(cep: string)
    requires ValidarCep(cep)
    ensures CepFormat(Strip(cep))
  {
    if CepFormat(cep) {
      StripKeepsTrimmed(cep);
    } else {
      var s := cep[..|cep| - 1];
      assert cep == s + ['\n'];
      StripDropsTrailingSpace(s, '\n');
    }
  }
}
