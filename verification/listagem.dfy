/**
 * The pure logic of the list page: the three filters over the listing, the
 * "id - nome" options of the edit selectbox and their parse back to an id,
 * the prefilled edit form, the update submit, and the two-click delete.
 */
module Listagem {
  import opened Wrappers
  import opened Texto
  import opened Validacao
  import opened Database
  import opened Formulario
  import opened Cadastro

  // ---------------------------------------------------------------------
  // Filters
  // ---------------------------------------------------------------------

  /** `a` is `b` with some elements left out, the rest in their order. */
  predicate Subsequencia<T(==)>(a: seq<T>, b: seq<T>)
    decreases |b|
  {
    a == [] || (b != [] && ((a[0] == b[0] && Subsequencia(a[1..], b[1..])) || Subsequencia(a, b[1..])))
  }

  lemma {:induction false} SubsequenciaReflexiva<T>(a: seq<T>)
    ensures Subsequencia(a, a)
    decreases |a|
  {
    if a != [] {
      SubsequenciaReflexiva(a[1..]);
    }
  }

  lemma {:induction false} SubsequenciaTransitiva<T>(a: seq<T>, b: seq<T>, c: seq<T>)
    requires Subsequencia(a, b) && Subsequencia(b, c)
    ensures Subsequencia(a, c)
    decreases |c|
  {
    if a != [] {
      if Subsequencia(b, c[1..]) {
        SubsequenciaTransitiva(a, b, c[1..]);
      } else if a[0] == b[0] && Subsequencia(a[1..], b[1..]) {
        SubsequenciaTransitiva(a[1..], b[1..], c[1..]);
      } else {
        SubsequenciaTransitiva(a, b[1..], c[1..]);
      }
    }
  }

  /** Every element of a subsequence is an element of the whole. */
  lemma {:induction false} SubsequenciaContida<T>(a: seq<T>, b: seq<T>)
    requires Subsequencia(a, b)
    ensures forall x :: x in a ==> x in b
    decreases |b|
  {
    if a != [] {
      if a[0] == b[0] && Subsequencia(a[1..], b[1..]) {
        SubsequenciaContida(a[1..], b[1..]);
        assert a == [a[0]] + a[1..];
      } else {
        SubsequenciaContida(a, b[1..]);
      }
    }
  }

  /** `df[mask]`: the rows satisfying `p`, in listing order, each kept as often as it occurs. */
  function Manter(rs: seq<Colaborador>, p: Colaborador -> bool): (r: seq<Colaborador>)
    ensures Subsequencia(r, rs)
    ensures forall i :: 0 <= i < |r| ==> p(r[i])
    ensures forall c :: multiset(r)[c] == if p(c) then multiset(rs)[c] else 0
  {
    if rs == [] then []
    else
      var resto := Manter(rs[1..], p);
      assert rs == [rs[0]] + rs[1..];
      if p(rs[0]) then [rs[0]] + resto else resto
  }

  /** `nome_completo.str.contains(filtro, case=False)`; an empty filter is skipped. */
  predicate PassaNome(c: Colaborador, filtro: string) {
    filtro == [] || ContainsIgnoreCase(c.nomeCompleto, filtro)
  }

  /** `df['cargo'] == filtro`: a NULL role never equals a chosen one. */
  predicate PassaCargo(c: Colaborador, filtro: string) {
    filtro == [] || c.cargo == Some(filtro)
  }

  /** `df['estado'] == filtro`. */
  predicate PassaEstado(c: Colaborador, filtro: string) {
    filtro == [] || c.estado == Some(filtro)
  }

  predicate PassaFiltros(c: Colaborador, nome: string, cargo: string, estado: string) {
    PassaNome(c, nome) && PassaCargo(c, cargo) && PassaEstado(c, estado)
  }

  /**
   * `df_filtrado`: the name, role and state filters applied one after the
   * other, each only when filled. The result is the sub-listing of exactly the
   * rows that pass all three.
   */
  function Filtrar(rs: seq<Colaborador>, nome: string, cargo: string, estado: string): (r: seq<Colaborador>)
    ensures Subsequencia(r, rs)
    ensures forall i :: 0 <= i < |r| ==> PassaFiltros(r[i], nome, cargo, estado)
    ensures forall c :: multiset(r)[c] == if PassaFiltros(c, nome, cargo, estado) then multiset(rs)[c] else 0
  {
    var r1 := Etapa(rs, nome != [], (c: Colaborador) => PassaNome(c, nome));
    var r2 := Etapa(r1, cargo != [], (c: Colaborador) => PassaCargo(c, cargo));
    var r3 := Etapa(r2, estado != [], (c: Colaborador) => PassaEstado(c, estado));
    SubsequenciaTransitiva(r2, r1, rs);
    SubsequenciaTransitiva(r3, r2, rs);
    r3
  }

  /** One `if filtro: df_filtrado = df_filtrado[mask]` step: the mask applies only when the filter is filled. */
  function Etapa(rs: seq<Colaborador>, ativo: bool, p: Colaborador -> bool): (r: seq<Colaborador>)
    ensures Subsequencia(r, rs)
    ensures forall i :: 0 <= i < |r| ==> ativo ==> p(r[i])
    ensures forall c :: multiset(r)[c] == if ativo && !p(c) then 0 else multiset(rs)[c]
  {
    if ativo then
      Manter(rs, p)
    else
      SubsequenciaReflexiva(rs);
      rs
  }

  /** With every filter empty the whole listing is shown. */
  lemma FiltrosVazios(rs: seq<Colaborador>)
    ensures Filtrar(rs, "", "", "") == rs
  {
    var r := Filtrar(rs, "", "", "");
    assert multiset(r) == multiset(rs);
    SubsequenciaMesmoTamanho(r, rs);
  }

  /** A subsequence as long as the whole is the whole. */
  lemma {:induction false} SubsequenciaMesmoTamanho<T>(a: seq<T>, b: seq<T>)
    requires Subsequencia(a, b) && |a| == |b|
    ensures a == b
    decreases |b|
  {
    if a != [] {
      if a[0] == b[0] && Subsequencia(a[1..], b[1..]) {
        SubsequenciaMesmoTamanho(a[1..], b[1..]);
      } else {
        SubsequenciaMaisCurta(a, b[1..]);
      }
    }
  }

  lemma {:induction false} SubsequenciaMaisCurta<T>(a: seq<T>, b: seq<T>)
    requires Subsequencia(a, b)
    ensures |a| <= |b|
    decreases |b|
  {
    if a != [] {
      if a[0] == b[0] && Subsequencia(a[1..], b[1..]) {
        SubsequenciaMaisCurta(a[1..], b[1..]);
      } else {
        SubsequenciaMaisCurta(a, b[1..]);
      }
    }
  }

  /** A sub-listing of an ordered listing is ordered the same way. */
  lemma {:induction false} SubsequenciaOrdenada(a: seq<Colaborador>, b: seq<Colaborador>)
    requires Subsequencia(a, b) && Decrescente(Ids(b))
    ensures Decrescente(Ids(a))
    decreases |b|
  {
    if a != [] {
      if a[0] == b[0] && Subsequencia(a[1..], b[1..]) {
        SubsequenciaOrdenada(a[1..], b[1..]);
        SubsequenciaContida(a[1..], b[1..]);
        forall j | 0 < j < |a|
          ensures a[0].id > a[j].id
        {
          assert a[j] in a[1..];
        }
      } else {
        SubsequenciaOrdenada(a, b[1..]);
      }
    }
  }

  /** The filtered table of the list page keeps the newest-first order of the listing. */
  lemma FiltradoOrdenado(t: Tabela, rs: seq<Colaborador>, nome: string, cargo: string, estado: string)
    requires EhListagem(t, rs)
    ensures Decrescente(Ids(Filtrar(rs, nome, cargo, estado)))
    ensures |Filtrar(rs, nome, cargo, estado)| <= ContarColaboradores(t)
  {
    var r := Filtrar(rs, nome, cargo, estado);
    SubsequenciaOrdenada(r, rs);
    SubsequenciaMaisCurta(r, rs);
  }

  // ---------------------------------------------------------------------
  // The edit selectbox
  // ---------------------------------------------------------------------

  /** The option `f"{id} - {nome_completo}"` shown for a row. */
  function Rotulo(c: Colaborador): string {
    IntToString(c.id) + " - " + c.nomeCompleto
  }

  /**
   * `[""] + [rotulo for each row]`, in listing order. Every option after the
   * empty one reads back as its own row's id, so on a listing (distinct ids)
   * no two options coincide and the chosen text determines the row.
   */
  function Opcoes(rs: seq<Colaborador>): (os: seq<string>)
    ensures |os| == |rs| + 1 && os[0] == ""
    ensures forall i :: 0 <= i < |rs| ==> os[i + 1] == Rotulo(rs[i])
    ensures forall i :: 0 <= i < |rs| ==> LerSelecao(os[i + 1]) == Selecionado(rs[i].id)
    ensures Decrescente(Ids(rs)) ==> forall i, j :: 0 <= i < j < |os| ==> os[i] != os[j]
  {
    var os := [""] + seq(|rs|, i requires 0 <= i < |rs| => Rotulo(rs[i]));
    RotulosIdaEVolta(rs, os);
    OpcoesDistintas(rs, os);
    os
  }

  /** Each label of a run of rows reads back as its row's id. */
  lemma RotulosIdaEVolta(rs: seq<Colaborador>, os: seq<string>)
    requires |os| == |rs| + 1
    requires forall i :: 0 <= i < |rs| ==> os[i + 1] == Rotulo(rs[i])
    ensures forall i :: 0 <= i < |rs| ==> LerSelecao(os[i + 1]) == Selecionado(rs[i].id)
  {
    forall i | 0 <= i < |rs|
      ensures LerSelecao(os[i + 1]) == Selecionado(rs[i].id)
    {
      RotuloIdaEVolta(rs[i]);
    }
  }

  /** Options that read back as distinct ids are distinct, and none of them is the empty option. */
  lemma OpcoesDistintas(rs: seq<Colaborador>, os: seq<string>)
    requires |os| == |rs| + 1 && os[0] == ""
    requires forall i :: 0 <= i < |rs| ==> LerSelecao(os[i + 1]) == Selecionado(rs[i].id)
    ensures Decrescente(Ids(rs)) ==> forall i, j :: 0 <= i < j < |os| ==> os[i] != os[j]
  {
    if Decrescente(Ids(rs)) {
      forall i, j | 0 <= i < j < |os|
        ensures os[i] != os[j]
      {
        assert LerSelecao(os[j]) == Selecionado(rs[j - 1].id);
        if i > 0 {
          assert LerSelecao(os[i]) == Selecionado(rs[i - 1].id);
        }
      }
    }
  }

  /** What the chosen option selects: nothing, an id, or text `int()` refuses. */
  datatype Selecao = NadaSelecionado | Selecionado(id: int) | OpcaoInvalida

  /** `int(opcao.split(" - ")[0])` when an option is chosen. */
  function LerSelecao(opcao: string): (s: Selecao)
    ensures s.NadaSelecionado? <==> opcao == []
    ensures s.OpcaoInvalida? <==> opcao != [] && ParseInt(BeforeFirst(opcao, " - ")).None?
    ensures s.Selecionado? ==> ParseInt(BeforeFirst(opcao, " - ")) == Some(s.id)
  {
    if opcao == [] then NadaSelecionado
    else
      match ParseInt(BeforeFirst(opcao, " - "))
      case Some(id) => Selecionado(id)
      case None => OpcaoInvalida
  }

  /**
   * Every option built for a row reads back as that row's id, whatever the
   * name holds (a name containing " - " included): the id prefix is digits
   * and a minus sign, so the first " - " is the one the label inserted.
   */
  lemma RotuloIdaEVolta(c: Colaborador)
    ensures LerSelecao(Rotulo(c)) == Selecionado(c.id)
  {
    var d := IntToString(c.id);
    var s := Rotulo(c);
    var sep := " - ";
    assert s == d + sep + c.nomeCompleto;
    assert s[|d|..|d| + 3] == sep;
    assert OccursAt(s, sep, |d|);
    forall i | 0 <= i < |d|
      ensures !OccursAt(s, sep, i)
    {
      assert s[i] == d[i];
      if i + 3 <= |s| {
        assert s[i..i + 3][0] == s[i];
      }
    }
    var r := BeforeFirst(s, sep);
    assert |r| == |d|;
    assert r == d;
    ParseIntToString(c.id);
  }

  /** The edit form opened by an option. */
  datatype Edicao =
    | SemEdicao              // the empty option: no form
    | SelecaoInvalida        // `int()` raised on the option text
    | NaoEncontrado          // `buscar_colaborador_por_id` returned None: no form
    | Editando(id: int, form: Form)

  /** `estados_brasil.index(atual) if atual in estados_brasil else 0`. */
  function IndiceOuZero(xs: seq<string>, v: string): (i: nat)
    ensures v in xs ==> i < |xs| && xs[i] == v && forall j :: 0 <= j < i ==> xs[j] != v
    ensures v !in xs ==> i == 0
    ensures |xs| > 0 ==> i < |xs|
  {
    if xs == [] then 0
    else if xs[0] == v then 0
    else if v in xs[1..] then 1 + IndiceOuZero(xs[1..], v)
    else 0
  }

  /**
   * The prefilled edit form: NULL text becomes "", state and role preselect
   * the stored value when the list offers it and the empty choice otherwise,
   * the birth date is carried over.
   */
  function Preencher(c: Colaborador): (f: Form)
    ensures f.nomeCompleto == c.nomeCompleto
    ensures f.endereco == c.endereco.GetOr("") && f.bairro == c.bairro.GetOr("") && f.cidade == c.cidade.GetOr("")
    ensures f.cep == c.cep.GetOr("") && f.telefone == c.telefone.GetOr("")
    ensures f.estado == if c.estado.GetOr("") in Estados then c.estado.GetOr("") else ""
    ensures f.cargo == if c.cargo.GetOr("") in Cargos then c.cargo.GetOr("") else ""
    ensures f.dataNascimento == c.dataNascimento
  {
    Form(
      c.nomeCompleto,
      c.endereco.GetOr(""),
      c.bairro.GetOr(""),
      c.cidade.GetOr(""),
      Estados[IndiceOuZero(Estados, c.estado.GetOr(""))],
      c.cep.GetOr(""),
      c.telefone.GetOr(""),
      c.dataNascimento,
      Cargos[IndiceOuZero(Cargos, c.cargo.GetOr(""))])
  }

  /**
   * Choosing an option: nothing for the empty one; otherwise parse the id,
   * look the row up and prefill the form with it.
   */
  function AbrirEdicao(t: Tabela, opcao: string): (e: Edicao)
    requires Valida(t)
    ensures e.SemEdicao? <==> opcao == []
    ensures e.SelecaoInvalida? <==> LerSelecao(opcao).OpcaoInvalida?
    ensures e.NaoEncontrado? <==> LerSelecao(opcao).Selecionado? && LerSelecao(opcao).id !in t.linhas
    ensures LerSelecao(opcao).Selecionado? && LerSelecao(opcao).id in t.linhas ==>
      e == Editando(LerSelecao(opcao).id, Preencher(t.linhas[LerSelecao(opcao).id]))
  {
    match LerSelecao(opcao)
    case NadaSelecionado => SemEdicao
    case OpcaoInvalida => SelecaoInvalida
    case Selecionado(id) =>
      match BuscarColaboradorPorId(t, id)
      case Some(c) => Editando(id, Preencher(c))
      case None => NaoEncontrado
  }

  /** Every non-empty option of the selectbox opens the form of its own row. */
  lemma OpcoesAbremSuasLinhas(t: Tabela, rs: seq<Colaborador>)
    requires Valida(t) && EhListagem(t, rs)
    ensures AbrirEdicao(t, Opcoes(rs)[0]) == SemEdicao
    ensures forall i :: 0 <= i < |rs| ==> AbrirEdicao(t, Opcoes(rs)[i + 1]) == Editando(rs[i].id, Preencher(rs[i]))
  {
    var os := Opcoes(rs);
    forall i | 0 <= i < |rs|
      ensures AbrirEdicao(t, os[i + 1]) == Editando(rs[i].id, Preencher(rs[i]))
    {
      assert LerSelecao(os[i + 1]) == Selecionado(rs[i].id);
    }
  }

  /**
   * A row the forms could have written: consistent data, with state and role
   * taken from the selectbox lists.
   */
  predicate LinhaDeFormulario(c: Colaborador) {
    var d := c.Campos();
    && DadosConsistentes(d)
    && (d.estado.Some? ==> d.estado.value in Estados)
    && (d.cargo.Some? ==> d.cargo.value in Cargos)
  }

  /** No free text of the row is stored as "". */
  predicate SemTextosVazios(c: Colaborador) {
    c.endereco != Some([]) && c.bairro != Some([]) && c.cidade != Some([])
  }

  /** A stored "" shown with `or ""` and saved with `if campo else None` becomes NULL. */
  function SemTextoVazio(o: Option<string>): Option<string> {
    if o == Some([]) then None else o
  }

  /** The data an untouched edit form writes back: the stored data, with free texts stored as "" turned into NULL. */
  function Regravado(d: Dados): Dados {
    d.(endereco := SemTextoVazio(d.endereco), bairro := SemTextoVazio(d.bairro), cidade := SemTextoVazio(d.cidade))
  }

  /** A CEP in the CEP layout passes validation and is unchanged by strip. */
  lemma CepFormatadoEstavel(cep: string)
    requires CepFormat(cep)
    ensures ValidarCep(cep) && Strip(cep) == cep
  {
    assert IsDigit(cep[0]) && IsDigit(cep[|cep| - 1]);
    StripKeepsTrimmed(cep);
  }

  /**
   * Opening a form-written row and pressing "Atualizar" without touching
   * anything passes validation and writes back the stored data, except that
   * an address, district or city stored as "" is written back as NULL.
   */
  lemma ReedicaoSemAlteracoes(c: Colaborador)
    requires LinhaDeFormulario(c)
    ensures Erros(Preencher(c)) == []
    ensures Normalizar(Preencher(c)) == Regravado(c.Campos())
  {
    EdicaoSemAlteracoesValida(c);
    LinhaReeditavel(c);
    EdicaoSemAlteracoesRegrava(c);
  }

  /** For a form-written row with no free text stored as "", an untouched re-save writes back exactly the stored data. */
  lemma EdicaoSemAlteracoes(c: Colaborador)
    requires LinhaDeFormulario(c) && SemTextosVazios(c)
    ensures Erros(Preencher(c)) == []
    ensures Normalizar(Preencher(c)) == c.Campos()
  {
    ReedicaoSemAlteracoes(c);
  }

  /** A city stored as "" does not survive an untouched re-save: it comes back as NULL. */
  lemma CidadeVaziaViraNula(c: Colaborador)
    requires LinhaDeFormulario(c) && c.cidade == Some([])
    ensures Erros(Preencher(c)) == []
    ensures Normalizar(Preencher(c)).cidade == None
    ensures Normalizar(Preencher(c)) != c.Campos()
  {
    ReedicaoSemAlteracoes(c);
  }

  /** The registration form stores a city of one blank as "", in a row the forms could have written. */
  lemma CidadeEmBrancoGravadaVazia()
    ensures var p := SubmeterCadastro(Tabela(map[], 0), Form("Ana", "", "", " ", "", "", "", None, ""), Timestamp(""));
      && p.resultado == Cadastrado(1)
      && p.tabela.linhas[1].cidade == Some([])
      && LinhaDeFormulario(p.tabela.linhas[1])
  {
    var f := Form("Ana", "", "", " ", "", "", "", None, "");
    assert Strip("Ana") == "Ana" by {
      StripKeepsTrimmed("Ana");
    }
    assert AllSpace(" ");
    assert Erros(f) == [];
    assert Normalizar(f).cidade == Some([]);
  }

  lemma EdicaoSemAlteracoesValida(c: Colaborador)
    requires LinhaDeFormulario(c)
    ensures Erros(Preencher(c)) == []
  {
    var f := Preencher(c);
    assert Strip(f.nomeCompleto) != [];
    if c.cep.Some? {
      CepFormatadoEstavel(c.cep.value);
    }
    assert CepAceito(f.cep);
    assert TelefoneAceito(f.telefone);
  }

  /** Filled optional text is already stripped. */
  predicate TextoArmazenado(o: Option<string>) {
    o.Some? ==> Strip(o.value) == o.value
  }

  /** A filled choice is non-empty and one of the options. */
  predicate EscolhaArmazenada(xs: seq<string>, o: Option<string>) {
    o.Some? ==> o.value != [] && o.value in xs
  }

  /** What the prefill and the normalisation need to give a row's data back. */
  predicate Reeditavel(c: Colaborador) {
    && Strip(c.nomeCompleto) == c.nomeCompleto
    && TextoArmazenado(c.endereco) && TextoArmazenado(c.bairro) && TextoArmazenado(c.cidade)
    && TextoArmazenado(c.cep) && TextoArmazenado(c.telefone)
    && c.cep != Some([]) && c.telefone != Some([])
    && EscolhaArmazenada(Estados, c.estado) && EscolhaArmazenada(Cargos, c.cargo)
  }

  lemma LinhaReeditavel(c: Colaborador)
    requires LinhaDeFormulario(c)
    ensures Reeditavel(c)
  {
    if c.cep.Some? {
      CepFormatadoEstavel(c.cep.value);
    }
    if c.telefone == Some([]) {
      assert DigitPositions([]) == {};
    }
  }

  lemma EdicaoSemAlteracoesRegrava(c: Colaborador)
    requires Reeditavel(c)
    ensures Normalizar(Preencher(c)) == Regravado(c.Campos())
  {
    TextoDeVolta(c.endereco);
    TextoDeVolta(c.bairro);
    TextoDeVolta(c.cidade);
    TextoDeVolta(c.cep);
    TextoDeVolta(c.telefone);
    EscolhaDeVolta(Estados, c.estado);
    EscolhaDeVolta(Cargos, c.cargo);
  }

  /** A stored stripped text, shown in a text box and submitted again, is stored unchanged, unless it was "". */
  lemma TextoDeVolta(o: Option<string>)
    requires TextoArmazenado(o)
    ensures TextoOpcional(o.GetOr("")) == SemTextoVazio(o)
  {
  }

  /** A stored value the selectbox offers, preselected and submitted again, is stored unchanged. */
  lemma EscolhaDeVolta(xs: seq<string>, o: Option<string>)
    requires |xs| > 0 && xs[0] == ""
    requires EscolhaArmazenada(xs, o)
    ensures EscolhaOpcional(xs[IndiceOuZero(xs, o.GetOr(""))]) == o
  {
  }

  /** What the page shows after "Atualizar". */
  datatype ResultadoAtualizacao =
    | AtualizacaoRejeitada(erros: seq<Erro>)
    | Atualizado
    | FalhaAoAtualizar      // `atualizar_colaborador` returned False: the row is gone

  datatype PassoAtualizacao = PassoAtualizacao(tabela: Tabela, resultado: ResultadoAtualizacao)

  /**
   * The update submit: the same checks as registration; with no error the
   * normalised data replaces the row's fields, keeping its id and
   * registration time.
   */
  function SubmeterAtualizacao(t: Tabela, id: int, f: Form): (p: PassoAtualizacao)
    requires Valida(t)
    ensures Valida(p.tabela)
    ensures p.resultado.AtualizacaoRejeitada? <==> Erros(f) != []
    ensures p.resultado.AtualizacaoRejeitada? ==> p.resultado.erros == Erros(f) && p.tabela == t
    ensures p.resultado.FalhaAoAtualizar? <==> Erros(f) == [] && id !in t.linhas
    ensures p.resultado.FalhaAoAtualizar? ==> p.tabela == t
    ensures p.resultado.Atualizado? ==>
      && p.tabela.linhas.Keys == t.linhas.Keys
      && p.tabela.sequencia == t.sequencia
      && p.tabela.linhas[id].Campos() == Normalizar(f)
      && p.tabela.linhas[id].id == id
      && p.tabela.linhas[id].dataCadastro == t.linhas[id].dataCadastro
      && forall k :: k in t.linhas && k != id ==> p.tabela.linhas[k] == t.linhas[k]
  {
    var erros := Erros(f);
    if erros != [] then
      PassoAtualizacao(t, AtualizacaoRejeitada(erros))
    else
      var w := AtualizarColaborador(t, id, Normalizar(f));
      if w.afetou then PassoAtualizacao(w.tabela, Atualizado)
      else PassoAtualizacao(t, FalhaAoAtualizar)
  }

  /** An update keeps every row in the shape the forms write. */
  lemma AtualizacaoPreservaConsistencia(t: Tabela, id: int, f: Form)
    requires Valida(t) && TabelaConsistente(t)
    ensures TabelaConsistente(SubmeterAtualizacao(t, id, f).tabela)
  {
    var p := SubmeterAtualizacao(t, id, f);
    if p.resultado.Atualizado? {
      assert DadosConsistentes(Normalizar(f));
      forall k | k in p.tabela.linhas
        ensures DadosConsistentes(p.tabela.linhas[k].Campos())
      {
        if k != id {
          assert p.tabela.linhas[k] == t.linhas[k];
        }
      }
    }
  }

  // ---------------------------------------------------------------------
  // Two-click delete
  // ---------------------------------------------------------------------

  /** The `confirm_delete` slot of the session state: absent, or the id armed for deletion. */
  datatype Sessao = Sessao(confirmDelete: Option<int>)

  datatype ResultadoExclusao =
    | PedeConfirmacao      // "click again to confirm"
    | Excluido
    | FalhaAoExcluir       // `excluir_colaborador` returned False

  datatype PassoExclusao = PassoExclusao(sessao: Sessao, tabela: Tabela, resultado: ResultadoExclusao)

  /**
   * One click on "Excluir" in the form of row `id`. The first click only arms
   * the slot; a click while the slot holds this id deletes, and clears the
   * slot when the row was there. Afterwards the slot is empty or holds `id`.
   */
  function ClicarExcluir(s: Sessao, t: Tabela, id: int): (p: PassoExclusao)
    requires Valida(t)
    ensures Valida(p.tabela)
    ensures p.sessao.confirmDelete == None || p.sessao.confirmDelete == Some(id)
    ensures p.resultado.PedeConfirmacao? <==> s.confirmDelete != Some(id)
    ensures p.resultado.PedeConfirmacao? ==> p.sessao.confirmDelete == Some(id) && p.tabela == t
    ensures p.resultado.Excluido? <==> s.confirmDelete == Some(id) && id in t.linhas
    ensures p.resultado.Excluido? ==>
      && p.sessao.confirmDelete == None
      && p.tabela.sequencia == t.sequencia
      && p.tabela.linhas.Keys == t.linhas.Keys - {id}
      && forall k :: k in p.tabela.linhas ==> p.tabela.linhas[k] == t.linhas[k]
    ensures p.resultado.FalhaAoExcluir? ==> p.sessao == s && p.tabela == t
  {
    if s.confirmDelete != Some(id) then
      PassoExclusao(Sessao(Some(id)), t, PedeConfirmacao)
    else
      var w := ExcluirColaborador(t, id);
      if w.afetou then PassoExclusao(Sessao(None), w.tabela, Excluido)
      else PassoExclusao(s, t, FalhaAoExcluir)
  }

  /** Two clicks in a row on a present row delete it. */
  lemma DoisCliquesExcluem(s: Sessao, t: Tabela, id: int)
    requires Valida(t) && id in t.linhas && s.confirmDelete != Some(id)
    ensures var p := ClicarExcluir(s, t, id);
      && p.resultado.PedeConfirmacao?
      && ClicarExcluir(p.sessao, p.tabela, id).resultado.Excluido?
      && ClicarExcluir(p.sessao, p.tabela, id).tabela.linhas.Keys == t.linhas.Keys - {id}
  {
  }

  /** The session, table and messages after a run of delete clicks, the last click last. */
  datatype Tela = Tela(sessao: Sessao, tabela: Tabela, resultados: seq<ResultadoExclusao>)

  function CliquesExcluir(s: Sessao, t: Tabela, ids: seq<int>): (e: Tela)
    requires Valida(t)
    ensures Valida(e.tabela) && |e.resultados| == |ids|
    ensures ids == [] ==> e.sessao == s
    ensures ids != [] ==> e.sessao.confirmDelete == None || e.sessao.confirmDelete == Some(ids[|ids| - 1])
    decreases |ids|
  {
    if ids == [] then Tela(s, t, [])
    else
      var e := CliquesExcluir(s, t, ids[..|ids| - 1]);
      var p := ClicarExcluir(e.sessao, e.tabela, ids[|ids| - 1]);
      Tela(p.sessao, p.tabela, e.resultados + [p.resultado])
  }

  /** Every `Excluido` in `rs` answers a click that directly follows a click on the same row. */
  predicate SoAposConfirmacao(ids: seq<int>, rs: seq<ResultadoExclusao>)
    requires |rs| == |ids|
  {
    forall i :: 0 <= i < |ids| && rs[i].Excluido? ==> 0 < i && ids[i - 1] == ids[i]
  }

  /**
   * Starting from a fresh session, a click deletes only when the click
   * just before it was on the same row: no row is deleted by a single click.
   */
  lemma {:induction false} ExclusaoExigeConfirmacao(t: Tabela, ids: seq<int>)
    requires Valida(t)
    ensures SoAposConfirmacao(ids, CliquesExcluir(Sessao(None), t, ids).resultados)
    decreases |ids|
  {
    if ids != [] {
      var n := |ids| - 1;
      ExclusaoExigeConfirmacao(t, ids[..n]);
      UltimoClique(t, ids);
      var r := CliquesExcluir(Sessao(None), t, ids).resultados;
      var r0 := CliquesExcluir(Sessao(None), t, ids[..n]).resultados;
      assert SoAposConfirmacao(ids[..n], r0);
      forall i | 0 <= i < |ids| && r[i].Excluido?
        ensures 0 < i && ids[i - 1] == ids[i]
      {
        if i < n {
          assert r0[i] == r[..n][i];
          assert ids[..n][i] == ids[i];
        }
      }
    }
  }

  /** The last click of a run: earlier messages stay; it deletes only right after a click on the same row. */
  lemma UltimoClique(t: Tabela, ids: seq<int>)
    requires Valida(t) && ids != []
    ensures CliquesExcluir(Sessao(None), t, ids).resultados[..|ids| - 1]
      == CliquesExcluir(Sessao(None), t, ids[..|ids| - 1]).resultados
    ensures CliquesExcluir(Sessao(None), t, ids).resultados[|ids| - 1].Excluido? ==>
      |ids| > 1 && ids[|ids| - 2] == ids[|ids| - 1]
  {
    var n := |ids| - 1;
    var e := CliquesExcluir(Sessao(None), t, ids[..n]);
    var p := ClicarExcluir(e.sessao, e.tabela, ids[n]);
    assert CliquesExcluir(Sessao(None), t, ids).resultados == e.resultados + [p.resultado];
    if n > 0 {
      assert ids[..n][n - 1] == ids[n - 1];
    }
  }
}
