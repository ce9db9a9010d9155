/**
 * `DatabaseManager`: the `colaboradores` table and the operations over it.
 *
 * The table is a map from id to row together with the AUTOINCREMENT counter
 * SQLite keeps for it (the `sqlite_sequence` entry: the largest id the table
 * ever handed out). SQL, connections and commits are not modelled; only what
 * each method promises about the rows.
 */
module Database {
  import opened Wrappers

  /** The largest rowid SQLite can hand out, 2^63 - 1. */
  const MaxRowId: int := 0x7FFF_FFFF_FFFF_FFFF

  /** A birth date, kept opaque: only passed through and compared. */
  datatype Date = Date(ano: int, mes: int, dia: int)

  /** The `CURRENT_TIMESTAMP` text stored at insertion, kept opaque. */
  datatype Timestamp = Timestamp(texto: string)

  /** The nine values that `inserir_colaborador` and `atualizar_colaborador` bind, in column order. */
  datatype Dados = Dados(
    nomeCompleto: string,
    endereco: Option<string>,
    bairro: Option<string>,
    cidade: Option<string>,
    estado: Option<string>,
    cep: Option<string>,
    telefone: Option<string>,
    dataNascimento: Option<Date>,
    cargo: Option<string>)

  /** One row of `colaboradores`, fields in schema order (what `SELECT *` returns). */
  datatype Colaborador = Colaborador(
    id: int,
    nomeCompleto: string,
    endereco: Option<string>,
    bairro: Option<string>,
    cidade: Option<string>,
    estado: Option<string>,
    cep: Option<string>,
    telefone: Option<string>,
    dataNascimento: Option<Date>,
    cargo: Option<string>,
    dataCadastro: Timestamp)
  {
    /** The nine mutable columns of the row. */
    function Campos(): Dados {
      Dados(nomeCompleto, endereco, bairro, cidade, estado, cep, telefone, dataNascimento, cargo)
    }
  }

  /** The row an INSERT creates: the given values, a new id and the insertion time. */
  function NovaLinha(id: int, d: Dados, agora: Timestamp): (c: Colaborador)
    ensures c.id == id && c.Campos() == d && c.dataCadastro == agora
  {
    Colaborador(id, d.nomeCompleto, d.endereco, d.bairro, d.cidade, d.estado, d.cep,
                d.telefone, d.dataNascimento, d.cargo, agora)
  }

  /** The row an UPDATE leaves: the nine columns replaced, id and `data_cadastro` kept. */
  function ComCampos(c: Colaborador, d: Dados): (c': Colaborador)
    ensures c'.id == c.id && c'.dataCadastro == c.dataCadastro && c'.Campos() == d
  {
    NovaLinha(c.id, d, c.dataCadastro)
  }

  /** The table: its rows by id, and the AUTOINCREMENT counter. */
  datatype Tabela = Tabela(linhas: map<int, Colaborador>, sequencia: int)

  /**
   * Every row sits under its own id, ids are positive, and no id exceeds the
   * counter: the counter is at least every id the table ever assigned.
   */
  ghost predicate Valida(t: Tabela) {
    && 0 <= t.sequencia <= MaxRowId
    && forall id :: id in t.linhas ==> t.linhas[id].id == id && 1 <= id <= t.sequencia
  }

  /**
   * `create_table`: `CREATE TABLE IF NOT EXISTS`. `banco` is the table the
   * database file already holds, if any; an existing table is left as it is.
   */
  function CreateTable(banco: Option<Tabela>): (t: Tabela)
    ensures banco.Some? ==> t == banco.value
    ensures banco.None? ==> t.linhas == map[] && t.sequencia == 0 && Valida(t)
  {
    match banco
    case Some(existente) => existente
    case None => Tabela(map[], 0)
  }

  /** Running `create_table` again keeps every row, so it is idempotent. */
  lemma CreateTableIdempotente(banco: Option<Tabela>)
    ensures CreateTable(Some(CreateTable(banco))) == CreateTable(banco)
    ensures banco.Some? ==> CreateTable(banco).linhas == banco.value.linhas
  {
  }

  /** SQLITE_FULL: AUTOINCREMENT has handed out the largest rowid. */
  datatype ErroBanco = BancoCheio

  datatype Insercao = Insercao(tabela: Tabela, id: int)

  /**
   * `inserir_colaborador`: inserts one row and returns `cursor.lastrowid`.
   * AUTOINCREMENT picks one more than the largest id ever assigned, so the new
   * id is fresh and larger than every earlier one, including deleted ones.
   */
  function InserirColaborador(t: Tabela, dados: Dados, agora: Timestamp): (r: Result<Insercao, ErroBanco>)
    requires Valida(t)
    ensures r.Failure? <==> t.sequencia == MaxRowId
    ensures r.Success? ==>
      var id, t' := r.value.id, r.value.tabela;
      && id !in t.linhas
      && id > t.sequencia
      && (forall k :: k in t.linhas ==> k < id)
      && t'.linhas == t.linhas[id := NovaLinha(id, dados, agora)]
      && |t'.linhas| == |t.linhas| + 1
      && t'.sequencia == id
      && Valida(t')
  {
    if t.sequencia == MaxRowId then Failure(BancoCheio)
    else
      var id := t.sequencia + 1;
      Success(Insercao(Tabela(t.linhas[id := NovaLinha(id, dados, agora)], id), id))
  }

  /** `buscar_colaborador_por_id`: the row with that id, or `None`; a missing id is not an error. */
  function BuscarColaboradorPorId(t: Tabela, id: int): (r: Option<Colaborador>)
    requires Valida(t)
    ensures r.Some? <==> id in t.linhas
    ensures r.Some? ==> r.value.id == id && r.value == t.linhas[id]
  {
    if id in t.linhas then Some(t.linhas[id]) else None
  }

  /** Reading back a just-inserted row gives the inserted values under the returned id. */
  lemma InserirEntaoBuscar(t: Tabela, dados: Dados, agora: Timestamp)
    requires Valida(t)
    requires InserirColaborador(t, dados, agora).Success?
    ensures var ins := InserirColaborador(t, dados, agora).value;
      && BuscarColaboradorPorId(ins.tabela, ins.id).Some?
      && var c := BuscarColaboradorPorId(ins.tabela, ins.id).value;
      && c.id == ins.id && c.Campos() == dados && c.dataCadastro == agora
  {
  }

  /** The table after a write, and whether the write affected a row (`cursor.rowcount > 0`). */
  datatype Escrita = Escrita(tabela: Tabela, afetou: bool)

  /**
   * `atualizar_colaborador`: replaces the nine mutable columns of the row with
   * that id. It reports a change exactly when the id exists; no other row changes.
   */
  function AtualizarColaborador(t: Tabela, id: int, dados: Dados): (r: Escrita)
    requires Valida(t)
    ensures r.afetou <==> id in t.linhas
    ensures r.afetou ==> r.tabela.linhas == t.linhas[id := ComCampos(t.linhas[id], dados)]
    ensures !r.afetou ==> r.tabela == t
    ensures r.tabela.linhas.Keys == t.linhas.Keys && r.tabela.sequencia == t.sequencia
    ensures forall k :: k in t.linhas && k != id ==> r.tabela.linhas[k] == t.linhas[k]
    ensures Valida(r.tabela)
  {
    if id in t.linhas then
      Escrita(Tabela(t.linhas[id := ComCampos(t.linhas[id], dados)], t.sequencia), true)
    else
      Escrita(t, false)
  }

  /**
   * `excluir_colaborador`: deletes the row with that id. It reports a change
   * exactly when the id existed; the other rows and the counter stay.
   */
  function ExcluirColaborador(t: Tabela, id: int): (r: Escrita)
    requires Valida(t)
    ensures r.afetou <==> id in t.linhas
    ensures r.tabela.linhas.Keys == t.linhas.Keys - {id}
    ensures forall k :: k in r.tabela.linhas ==> r.tabela.linhas[k] == t.linhas[k]
    ensures r.afetou ==> |r.tabela.linhas| == |t.linhas| - 1
    ensures !r.afetou ==> r.tabela == t
    ensures r.tabela.sequencia == t.sequencia
    ensures Valida(r.tabela)
  {
    if id in t.linhas then
      Escrita(Tabela(t.linhas - {id}, t.sequencia), true)
    else
      Escrita(t, false)
  }

  /** `contar_colaboradores`: `SELECT COUNT(*)`. */
  function ContarColaboradores(t: Tabela): nat {
    |t.linhas|
  }

  /** A write the application can issue against the table. */
  datatype Operacao =
    | Inserir(dados: Dados, agora: Timestamp)
    | Atualizar(id: int, dados: Dados)
    | Excluir(id: int)

  /** The table after one write; a failed insert leaves it as it was. */
  function Aplicar(t: Tabela, op: Operacao): (t': Tabela)
    requires Valida(t)
    ensures Valida(t') && t'.sequencia >= t.sequencia
  {
    match op
    case Inserir(d, agora) =>
      (match InserirColaborador(t, d, agora)
       case Success(ins) => ins.tabela
       case Failure(_) => t)
    case Atualizar(id, d) => AtualizarColaborador(t, id, d).tabela
    case Excluir(id) => ExcluirColaborador(t, id).tabela
  }

  /** The table after a run of writes. */
  function Executar(t: Tabela, ops: seq<Operacao>): (t': Tabela)
    requires Valida(t)
    ensures Valida(t') && t'.sequencia >= t.sequencia
    decreases |ops|
  {
    if ops == [] then t else Executar(Aplicar(t, ops[0]), ops[1..])
  }

  /** The id one write returns, if it is an insert that succeeds. */
  function IdInserido(t: Tabela, op: Operacao): (r: seq<int>)
    requires Valida(t)
    ensures |r| <= 1
    ensures r != [] ==> t.sequencia < r[0] == Aplicar(t, op).sequencia
  {
    match op
    case Inserir(d, agora) =>
      (match InserirColaborador(t, d, agora)
       case Success(ins) => [ins.id]
       case Failure(_) => [])
    case _ => []
  }

  /** `contar_colaboradores` follows the writes: up by one per successful insert, down by one per effective delete. */
  lemma ContagemDasEscritas(t: Tabela, op: Operacao)
    requires Valida(t)
    ensures ContarColaboradores(Aplicar(t, op))
      == ContarColaboradores(t) + |IdInserido(t, op)| - (if op.Excluir? && op.id in t.linhas then 1 else 0)
  {
    match op
    case Inserir(d, agora) =>
    case Atualizar(id, d) =>
      assert Aplicar(t, op).linhas.Keys == t.linhas.Keys;
    case Excluir(id) =>
  }

  /** The ids the successful inserts of a run return, in order. */
  function IdsAtribuidos(t: Tabela, ops: seq<Operacao>): (ids: seq<int>)
    requires Valida(t)
    ensures forall i :: 0 <= i < |ids| ==> t.sequencia < ids[i] <= Executar(t, ops).sequencia
    decreases |ops|
  {
    if ops == [] then [] else IdInserido(t, ops[0]) + IdsAtribuidos(Aplicar(t, ops[0]), ops[1..])
  }

  /** Strictly increasing. */
  predicate Crescente(xs: seq<int>) {
    forall i, j :: 0 <= i < j < |xs| ==> xs[i] < xs[j]
  }

  lemma ConcatCrescente(p: seq<int>, r: seq<int>, limite: int)
    requires |p| <= 1 && (p != [] ==> p[0] <= limite)
    requires Crescente(r) && forall j :: 0 <= j < |r| ==> r[j] > limite
    ensures Crescente(p + r)
  {
    var xs := p + r;
    forall i, j | 0 <= i < j < |xs|
      ensures xs[i] < xs[j]
    {
      assert xs[j] == r[j - |p|];
      if i >= |p| {
        assert xs[i] == r[i - |p|];
      }
    }
  }

  /**
   * AUTOINCREMENT never reuses an id: whatever updates and deletes come in
   * between, the inserts of a run return strictly increasing ids, all above
   * every id the table had assigned before the run.
   */
  lemma {:induction false} AutoincrementNuncaReutiliza(t: Tabela, ops: seq<Operacao>)
    requires Valida(t)
    ensures forall i :: 0 <= i < |IdsAtribuidos(t, ops)| ==> IdsAtribuidos(t, ops)[i] !in t.linhas
    ensures Crescente(IdsAtribuidos(t, ops))
    decreases |ops|
  {
    if ops != [] {
      var t1 := Aplicar(t, ops[0]);
      AutoincrementNuncaReutiliza(t1, ops[1..]);
      ConcatCrescente(IdInserido(t, ops[0]), IdsAtribuidos(t1, ops[1..]), t1.sequencia);
    }
  }

  /** Strictly decreasing. */
  predicate Decrescente(xs: seq<int>) {
    forall i, j :: 0 <= i < j < |xs| ==> xs[i] > xs[j]
  }

  /** `rs` holds every row of `t` exactly once, in strictly decreasing id order. */
  ghost predicate EhListagem(t: Tabela, rs: seq<Colaborador>) {
    && |rs| == |t.linhas|
    && (forall i :: 0 <= i < |rs| ==> rs[i].id in t.linhas && t.linhas[rs[i].id] == rs[i])
    && Cobre(t, rs)
    && Decrescente(Ids(rs))
  }

  /** The ids of the table up to `id`. */
  ghost function IdsAte(t: Tabela, id: int): set<int> {
    set k | k in t.linhas && k <= id
  }

  /**
   * The rows whose id is at most `id`, largest id first: what a scan of the
   * ids from `id` down to 1 collects.
   */
  function LinhasAte(t: Tabela, id: int): (rs: seq<Colaborador>)
    requires Valida(t)
    ensures forall i :: 0 <= i < |rs| ==> rs[i].id in t.linhas && t.linhas[rs[i].id] == rs[i] && rs[i].id <= id
    decreases id
  {
    if id <= 0 then []
    else (if id in t.linhas then [t.linhas[id]] else []) + LinhasAte(t, id - 1)
  }

  /** The scan lists its rows largest id first. */
  lemma {:induction false} LinhasAteOrdenadas(t: Tabela, id: int)
    requires Valida(t)
    ensures forall i, j :: 0 <= i < j < |LinhasAte(t, id)| ==> LinhasAte(t, id)[i].id > LinhasAte(t, id)[j].id
    decreases id
  {
    if id > 0 {
      LinhasAteOrdenadas(t, id - 1);
    }
  }

  /** The scan meets every row whose id is at most `id`. */
  lemma {:induction false} LinhasAteCobrem(t: Tabela, id: int)
    requires Valida(t)
    ensures forall k :: k in t.linhas && k <= id ==> k in Ids(LinhasAte(t, id))
    decreases id
  {
    if id > 0 {
      LinhasAteCobrem(t, id - 1);
      var primeira := if id in t.linhas then [t.linhas[id]] else [];
      var resto := LinhasAte(t, id - 1);
      assert Ids(LinhasAte(t, id)) == Ids(primeira) + Ids(resto);
      forall k | k in t.linhas && k <= id
        ensures k in Ids(primeira) + Ids(resto)
      {
        if k == id {
          assert Ids(primeira)[0] == k;
        } else {
          assert k in Ids(resto);
        }
      }
    }
  }

  /** The scan lists exactly as many rows as there are ids up to `id`. */
  lemma {:induction false} LinhasAteContam(t: Tabela, id: int)
    requires Valida(t)
    ensures |LinhasAte(t, id)| == |IdsAte(t, id)|
    decreases id
  {
    if id <= 0 {
      assert IdsAte(t, id) == {};
    } else {
      LinhasAteContam(t, id - 1);
      if id in t.linhas {
        assert IdsAte(t, id) == IdsAte(t, id - 1) + {id};
      } else {
        assert IdsAte(t, id) == IdsAte(t, id - 1);
      }
    }
  }

  /**
   * `listar_colaboradores`: `SELECT * FROM colaboradores ORDER BY id DESC`,
   * every row exactly once, largest id first.
   */
  function ListarColaboradores(t: Tabela): (rs: seq<Colaborador>)
    requires Valida(t)
    ensures EhListagem(t, rs)
    ensures |rs| == ContarColaboradores(t)
  {
    var rs := LinhasAte(t, t.sequencia);
    LinhasAteOrdenadas(t, t.sequencia);
    ScanCobreATabela(t);
    ScanContaATabela(t);
    rs
  }

  /** Every row of `t` appears in `rs`. */
  ghost predicate Cobre(t: Tabela, rs: seq<Colaborador>) {
    forall k :: k in t.linhas ==> exists i :: 0 <= i < |rs| && rs[i].id == k
  }

  /** The scan from the sequence down meets every row of the table. */
  lemma ScanCobreATabela(t: Tabela)
    requires Valida(t)
    ensures Cobre(t, LinhasAte(t, t.sequencia))
  {
    var rs := LinhasAte(t, t.sequencia);
    LinhasAteCobrem(t, t.sequencia);
    forall k | k in t.linhas
      ensures exists i :: 0 <= i < |rs| && rs[i].id == k
    {
      assert k <= t.sequencia;
      var i :| 0 <= i < |Ids(rs)| && Ids(rs)[i] == k;
      assert rs[i].id == k;
    }
    assert Cobre(t, rs);
  }

  /** The scan from the sequence down lists as many rows as the table holds. */
  lemma ScanContaATabela(t: Tabela)
    requires Valida(t)
    ensures |LinhasAte(t, t.sequencia)| == |t.linhas|
  {
    LinhasAteContam(t, t.sequencia);
    assert IdsAte(t, t.sequencia) == t.linhas.Keys;
  }


  /** Two strictly decreasing sequences with the same elements are equal. */
  lemma {:induction false} DecrescentesIguais(xs: seq<int>, ys: seq<int>)
    requires Decrescente(xs) && Decrescente(ys)
    requires forall x :: x in xs <==> x in ys
    ensures xs == ys
    decreases |xs|
  {
    forall i | 0 <= i < |ys|
      ensures ys[i] in xs
    {
      assert ys[i] in ys;
    }
    forall i | 0 <= i < |xs|
      ensures xs[i] in ys
    {
      assert xs[i] in xs;
    }
    assert |xs| == 0 <==> |ys| == 0 by {
      if |ys| > 0 {
        assert ys[0] in xs;
      }
      if |xs| > 0 {
        assert xs[0] in ys;
      }
    }
    if xs != [] && ys != [] {
      assert xs[0] in ys && ys[0] in xs;
      assert xs[0] == ys[0];
      forall x
        ensures x in xs[1..] <==> x in ys[1..]
      {
        if x in xs[1..] {
          assert x in ys;
          assert x != ys[0];
        }
        if x in ys[1..] {
          assert x in xs;
          assert x != xs[0];
        }
      }
      DecrescentesIguais(xs[1..], ys[1..]);
    }
  }

  /** The ids of a run of rows, in order. */
  function Ids(rs: seq<Colaborador>): (xs: seq<int>)
    ensures |xs| == |rs| && forall i :: 0 <= i < |rs| ==> xs[i] == rs[i].id
  {
    seq(|rs|, i requires 0 <= i < |rs| => rs[i].id)
  }

  /** A listing's ids are the table's keys, strictly decreasing. */
  lemma IdsDaListagem(t: Tabela, rs: seq<Colaborador>)
    requires EhListagem(t, rs)
    ensures Decrescente(Ids(rs))
    ensures forall x :: x in Ids(rs) <==> x in t.linhas
  {
    var xs := Ids(rs);
    forall x
      ensures x in xs <==> x in t.linhas
    {
      if x in xs {
        var i :| 0 <= i < |xs| && xs[i] == x;
        assert rs[i].id in t.linhas;
      }
      if x in t.linhas {
        var i :| 0 <= i < |rs| && rs[i].id == x;
        assert xs[i] == x;
      }
    }
  }

  /** `ORDER BY id DESC` leaves no choice: a table has exactly one listing. */
  lemma ListagemUnica(t: Tabela, a: seq<Colaborador>, b: seq<Colaborador>)
    requires EhListagem(t, a) && EhListagem(t, b)
    ensures a == b
  {
    IdsDaListagem(t, a);
    IdsDaListagem(t, b);
    DecrescentesIguais(Ids(a), Ids(b));
    forall i | 0 <= i < |a|
      ensures a[i] == b[i]
    {
      assert Ids(a)[i] == Ids(b)[i];
    }
  }


  /** The three columns the statistics look at. */
  datatype Coluna = Cidade | Estado | Cargo

  function Valor(c: Colaborador, col: Coluna): Option<string> {
    match col
    case Cidade => c.cidade
    case Estado => c.estado
    case Cargo => c.cargo
  }

  /** One column of the listing, as `df['cidade']` selects it. */
  function ColunaDe(rs: seq<Colaborador>, col: Coluna): (xs: seq<Option<string>>)
    ensures |xs| == |rs| && forall i :: 0 <= i < |rs| ==> xs[i] == Valor(rs[i], col)
  {
    seq(|rs|, i requires 0 <= i < |rs| => Valor(rs[i], col))
  }

  /** The non-null values stored in a column of the table. */
  ghost function ValoresDistintos(t: Tabela, col: Coluna): set<string> {
    set id | id in t.linhas && Valor(t.linhas[id], col).Some? :: Valor(t.linhas[id], col).value
  }

  /** How many rows of the table hold `v` in the column. */
  ghost function Frequencia(t: Tabela, col: Coluna, v: string): nat {
    |set id | id in t.linhas && Valor(t.linhas[id], col) == Some(v)|
  }

  /** The non-null values of a column, as a set. */
  ghost function NaoNulos(xs: seq<Option<string>>): set<string> {
    set i | 0 <= i < |xs| && xs[i].Some? :: xs[i].value
  }

  /** `Series.nunique()`: how many distinct non-null values the column holds. */
  method ContarDistintos(xs: seq<Option<string>>) returns (n: nat)
    ensures n == |NaoNulos(xs)|
  {
    var vistos: set<string> := {};
    var i := 0;
    while i < |xs|
      invariant 0 <= i <= |xs|
      invariant vistos == NaoNulos(xs[..i])
    {
      assert xs[..i + 1] == xs[..i] + [xs[i]];
      if xs[i].Some? {
        vistos := vistos + {xs[i].value};
      }
      i := i + 1;
    }
    assert xs[..i] == xs;
    n := |vistos|;
  }

  /**
   * `Series.mode().iloc[0]`: a non-null value no other value outnumbers, or
   * `None` when the column holds only nulls.
   */
  method Moda(xs: seq<Option<string>>) returns (m: Option<string>)
    ensures m.None? <==> forall i :: 0 <= i < |xs| ==> xs[i].None?
    ensures m.Some? ==> m in xs && forall v :: multiset(xs)[Some(v)] <= multiset(xs)[m]
  {
    m := None;
    var melhor := 0;
    var i := 0;
    while i < |xs|
      invariant 0 <= i <= |xs|
      invariant m.None? <==> forall j :: 0 <= j < i ==> xs[j].None?
      invariant m.Some? ==> m in xs && melhor == multiset(xs)[m]
      invariant forall j :: 0 <= j < i && xs[j].Some? ==> multiset(xs)[xs[j]] <= melhor
    {
      if xs[i].Some? && (m.None? || multiset(xs)[xs[i]] > melhor) {
        m := xs[i];
        melhor := multiset(xs)[xs[i]];
      }
      i := i + 1;
    }
    if m.Some? {
      forall v
        ensures multiset(xs)[Some(v)] <= multiset(xs)[m]
      {
        if Some(v) in xs {
          var j :| 0 <= j < |xs| && xs[j] == Some(v);
        }
      }
    }
  }

  /** The sentinel `obter_estatisticas` reports for a mode that does not exist. */
  const NA: string := "N/A"

  /** The dictionary `obter_estatisticas` returns. */
  datatype Estatisticas = Estatisticas(
    totalColaboradores: nat,
    totalCidades: nat,
    totalEstados: nat,
    totalCargos: nat,
    cargoMaisComum: string,
    estadoMaisComum: string)

  /** The listing's column holds the same non-null values as the table. */
  lemma ValoresDaListagem(t: Tabela, rs: seq<Colaborador>, col: Coluna)
    requires EhListagem(t, rs)
    ensures NaoNulos(ColunaDe(rs, col)) == ValoresDistintos(t, col)
  {
    var xs := ColunaDe(rs, col);
    forall v | v in ValoresDistintos(t, col)
      ensures v in NaoNulos(xs)
    {
      var id :| id in t.linhas && Valor(t.linhas[id], col) == Some(v);
      var i :| 0 <= i < |rs| && rs[i].id == id;
      assert xs[i] == Some(v);
    }
  }

  /** The ids up to `id` whose row holds `v` in the column. */
  ghost function IdsAteCom(t: Tabela, col: Coluna, v: string, id: int): set<int> {
    set k | k in t.linhas && k <= id && Valor(t.linhas[k], col) == Some(v)
  }

  /** Whether the row with id `id` exists and holds `v` in the column. */
  function Conta(t: Tabela, col: Coluna, v: string, id: int): nat {
    if id in t.linhas && Valor(t.linhas[id], col) == Some(v) then 1 else 0
  }

  /** How many ids from 1 to `id` belong to rows holding `v`, counted one id at a time. */
  function ContaAte(t: Tabela, col: Coluna, v: string, id: int): nat
    decreases id
  {
    if id <= 0 then 0 else Conta(t, col, v, id) + ContaAte(t, col, v, id - 1)
  }

  /** The id-by-id count is the size of the set of matching ids. */
  lemma {:induction false} ContaAteConjunto(t: Tabela, col: Coluna, v: string, id: int)
    requires Valida(t)
    ensures ContaAte(t, col, v, id) == |IdsAteCom(t, col, v, id)|
    decreases id
  {
    if id <= 0 {
      NadaAteZero(t, col, v, id);
    } else {
      ContaAteConjunto(t, col, v, id - 1);
      IdsAteComPasso(t, col, v, id);
    }
  }

  /** Counting `v` in the column of the scan up to `id` gives the id-by-id count. */
  lemma {:induction false} ContaAteColuna(t: Tabela, col: Coluna, v: string, id: int)
    requires Valida(t)
    ensures multiset(ColunaDe(LinhasAte(t, id), col))[Some(v)] == ContaAte(t, col, v, id)
    decreases id
  {
    if id <= 0 {
      NadaAteZero(t, col, v, id);
    } else {
      ContaAteColuna(t, col, v, id - 1);
      ContagemPasso(t, col, v, id);
    }
  }

  /** Counting `v` along the scan up to `id` counts the rows up to `id` that hold it. */
  lemma ContagemAte(t: Tabela, col: Coluna, v: string, id: int)
    requires Valida(t)
    ensures multiset(ColunaDe(LinhasAte(t, id), col))[Some(v)] == |IdsAteCom(t, col, v, id)|
  {
    ContaAteColuna(t, col, v, id);
    ContaAteConjunto(t, col, v, id);
  }

  /** Ids start at 1: the scan below 1 is empty. */
  lemma NadaAteZero(t: Tabela, col: Coluna, v: string, id: int)
    requires Valida(t) && id <= 0
    ensures LinhasAte(t, id) == [] && IdsAteCom(t, col, v, id) == {}
  {
    assert forall k :: k in IdsAteCom(t, col, v, id) ==> k in t.linhas && k <= 0;
  }

  /** One more step of the scan adds one occurrence exactly when row `id` holds `v`. */
  lemma ContagemPasso(t: Tabela, col: Coluna, v: string, id: int)
    requires Valida(t) && id > 0
    ensures multiset(ColunaDe(LinhasAte(t, id), col))[Some(v)]
      == Conta(t, col, v, id) + multiset(ColunaDe(LinhasAte(t, id - 1), col))[Some(v)]
  {
    var primeira := if id in t.linhas then [t.linhas[id]] else [];
    var resto := LinhasAte(t, id - 1);
    assert LinhasAte(t, id) == primeira + resto;
    assert ColunaDe(primeira + resto, col) == ColunaDe(primeira, col) + ColunaDe(resto, col);
    assert multiset(ColunaDe(primeira, col))[Some(v)] == Conta(t, col, v, id);
  }

  /** One more id adds itself to the matching ids exactly when its row holds `v`. */
  lemma IdsAteComPasso(t: Tabela, col: Coluna, v: string, id: int)
    ensures |IdsAteCom(t, col, v, id)| == Conta(t, col, v, id) + |IdsAteCom(t, col, v, id - 1)|
  {
    if Conta(t, col, v, id) == 1 {
      assert IdsAteCom(t, col, v, id) == IdsAteCom(t, col, v, id - 1) + {id};
    } else {
      assert IdsAteCom(t, col, v, id) == IdsAteCom(t, col, v, id - 1);
    }
  }

  /** Counting `v` in the listing's column counts the rows of the table that hold it. */
  lemma FrequenciaDaListagem(t: Tabela, rs: seq<Colaborador>, col: Coluna, v: string)
    requires Valida(t) && EhListagem(t, rs)
    ensures multiset(ColunaDe(rs, col))[Some(v)] == Frequencia(t, col, v)
  {
    ListagemUnica(t, rs, ListarColaboradores(t));
    assert rs == LinhasAte(t, t.sequencia);
    ContagemAte(t, col, v, t.sequencia);
    FrequenciaAteOFim(t, col, v);
  }

  /** No id is above the sequence, so counting up to it counts the whole table. */
  lemma FrequenciaAteOFim(t: Tabela, col: Coluna, v: string)
    requires Valida(t)
    ensures Frequencia(t, col, v) == |IdsAteCom(t, col, v, t.sequencia)|
  {
    assert IdsAteCom(t, col, v, t.sequencia) == set id | id in t.linhas && Valor(t.linhas[id], col) == Some(v);
  }

  /** The column's mode as the statistics report it, with what it means for the table. */
  method ModaDaTabela(t: Tabela, rs: seq<Colaborador>, col: Coluna) returns (s: string)
    requires Valida(t) && EhListagem(t, rs)
    ensures ValoresDistintos(t, col) == {} ==> s == NA
    ensures ValoresDistintos(t, col) != {} ==>
      && s in ValoresDistintos(t, col)
      && forall v :: Frequencia(t, col, v) <= Frequencia(t, col, s)
  {
    var xs := ColunaDe(rs, col);
    var m := Moda(xs);
    ValoresDaListagem(t, rs, col);
    if m.None? {
      assert NaoNulos(xs) == {};
      s := NA;
    } else {
      var j :| 0 <= j < |xs| && xs[j] == m;
      assert m.value in NaoNulos(xs);
      s := m.value;
      forall v
        ensures Frequencia(t, col, v) <= Frequencia(t, col, s)
      {
        FrequenciaDaListagem(t, rs, col, v);
        FrequenciaDaListagem(t, rs, col, s);
      }
    }
  }

  /**
   * `obter_estatisticas`: an empty table gives zeros and `'N/A'`; otherwise
   * the row count, the number of distinct non-null cities, states and roles,
   * and for roles and states a value of maximal frequency (`'N/A'` when the
   * column is all null).
   */
  method ObterEstatisticas(t: Tabela) returns (e: Estatisticas)
    requires Valida(t)
    ensures t.linhas == map[] ==> e == Estatisticas(0, 0, 0, 0, NA, NA)
    ensures e.totalColaboradores == ContarColaboradores(t)
    ensures e.totalCidades == |ValoresDistintos(t, Cidade)|
    ensures e.totalEstados == |ValoresDistintos(t, Estado)|
    ensures e.totalCargos == |ValoresDistintos(t, Cargo)|
    ensures ValoresDistintos(t, Cargo) == {} ==> e.cargoMaisComum == NA
    ensures ValoresDistintos(t, Cargo) != {} ==>
      && e.cargoMaisComum in ValoresDistintos(t, Cargo)
      && forall v :: Frequencia(t, Cargo, v) <= Frequencia(t, Cargo, e.cargoMaisComum)
    ensures ValoresDistintos(t, Estado) == {} ==> e.estadoMaisComum == NA
    ensures ValoresDistintos(t, Estado) != {} ==>
      && e.estadoMaisComum in ValoresDistintos(t, Estado)
      && forall v :: Frequencia(t, Estado, v) <= Frequencia(t, Estado, e.estadoMaisComum)
  {
    var rs := ListarColaboradores(t);
    if |rs| == 0 {
      assert t.linhas == map[];
      return Estatisticas(0, 0, 0, 0, NA, NA);
    }
    var cidades := ContarDistintos(ColunaDe(rs, Cidade));
    var estados := ContarDistintos(ColunaDe(rs, Estado));
    var cargos := ContarDistintos(ColunaDe(rs, Cargo));
    ValoresDaListagem(t, rs, Cidade);
    ValoresDaListagem(t, rs, Estado);
    ValoresDaListagem(t, rs, Cargo);
    var cargoMaisComum := ModaDaTabela(t, rs, Cargo);
    var estadoMaisComum := ModaDaTabela(t, rs, Estado);
    e := Estatisticas(|rs|, cidades, estados, cargos, cargoMaisComum, estadoMaisComum);
  }
}
