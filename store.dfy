/** The record store: the three SQLite tables of igreja.db as the rows each
    holds in rowid order, with the per-table sqlite_sequence counter that
    AUTOINCREMENT draws fresh ids from. Each method is one of the source's
    connect / execute / commit / close functions; the carregar_* reads are
    functions of the state. */
module Store {
  import opened Ordering
  import opened Bracket
  import opened Tables

  /** The closed set of tables limpar_tabela can be given. */
  datatype Tabela = Membros | AjudaPastoral | Financeiro

  /** The ORDER BY column of each read. */
  function DataCadastro(m: Member): string { m.fields.dataCadastro }
  function DataPedido(a: Request): string { a.fields.dataPedido }
  function Data(f: Movement): string { f.fields.data }

  class Database {
    var membros: seq<Member>
    var ajudas: seq<Request>
    var financeiro: seq<Movement>
    /** sqlite_sequence: the largest id each table has ever handed out. */
    var seqMembros: int
    var seqAjudas: int
    var seqFinanceiro: int

    ghost predicate Valid()
      reads this
    {
      && WellKeyed(membros, seqMembros)
      && WellKeyed(ajudas, seqAjudas)
      && WellKeyed(financeiro, seqFinanceiro)
    }

    /** init_db on a fresh file: three empty tables, no id handed out yet. */
    constructor ()
      ensures Valid()
      ensures membros == [] && ajudas == [] && financeiro == []
      ensures seqMembros == 0 && seqAjudas == 0 && seqFinanceiro == 0
    {
      membros, ajudas, financeiro := [], [], [];
      seqMembros, seqAjudas, seqFinanceiro := 0, 0, 0;
    }

    /** INSERT INTO membros: the row gets the next id, larger than any before. */
    method SalvarMembro(dados: MemberFields)
      requires Valid()
      modifies this
      ensures Valid()
      ensures seqMembros == old(seqMembros) + 1 && seqMembros !in Ids(old(membros))
      ensures membros == old(membros) + [Row(seqMembros, dados)]
      ensures ajudas == old(ajudas) && seqAjudas == old(seqAjudas)
      ensures financeiro == old(financeiro) && seqFinanceiro == old(seqFinanceiro)
    {
      AppendWellKeyed(membros, seqMembros, dados);
      seqMembros := seqMembros + 1;
      membros := membros + [Row(seqMembros, dados)];
    }

    /** The registration form's submit: with a name and a residence given, the
        bracket is computed from the age and the row inserted with the given
        timestamp; otherwise nothing is stored. Inserting this way keeps every
        member row's bracket consistent with its age. */
    method CadastrarMembro(nome: string, estadoCivil: string, idade: int, residencia: string,
                           batizado: string, anosIgreja: int, agora: string) returns (ok: bool)
      requires Valid()
      modifies this
      ensures Valid()
      ensures ok <==> nome != [] && residencia != []
      ensures ok ==> membros == old(membros) + [Row(seqMembros, MemberFields(nome, estadoCivil, idade,
                       DefinirFaixaEtaria(idade), residencia, batizado, anosIgreja, agora))]
      ensures ok ==> seqMembros == old(seqMembros) + 1
      ensures !ok ==> membros == old(membros) && seqMembros == old(seqMembros)
      ensures old(BracketsConsistent(membros)) ==> BracketsConsistent(membros)
      ensures ajudas == old(ajudas) && seqAjudas == old(seqAjudas)
      ensures financeiro == old(financeiro) && seqFinanceiro == old(seqFinanceiro)
    {
      ok := nome != [] && residencia != [];
      if ok {
        var faixa := DefinirFaixaEtaria(idade);
        SalvarMembro(MemberFields(nome, estadoCivil, idade, faixa, residencia, batizado, anosIgreja, agora));
      }
    }

    /** INSERT INTO ajuda_pastoral with status 'Pendente' and the given time. */
    method SalvarAjuda(nome: string, descricao: string, agora: string)
      requires Valid()
      modifies this
      ensures Valid()
      ensures seqAjudas == old(seqAjudas) + 1 && seqAjudas !in Ids(old(ajudas))
      ensures ajudas == old(ajudas) + [Row(seqAjudas, RequestFields(nome, descricao, agora, Pendente))]
      ensures membros == old(membros) && seqMembros == old(seqMembros)
      ensures financeiro == old(financeiro) && seqFinanceiro == old(seqFinanceiro)
    {
      AppendWellKeyed(ajudas, seqAjudas, RequestFields(nome, descricao, agora, Pendente));
      seqAjudas := seqAjudas + 1;
      ajudas := ajudas + [Row(seqAjudas, RequestFields(nome, descricao, agora, Pendente))];
    }

    /** UPDATE ajuda_pastoral SET status = ? WHERE id = ?: only the status of the
        row with that id changes; with no such row nothing changes. */
    method AtualizarStatusAjuda(ajudaId: int, status: string)
      requires Valid()
      modifies this
      ensures Valid()
      ensures ajudas == UpdateStatus(old(ajudas), ajudaId, status)
      ensures Ids(ajudas) == Ids(old(ajudas))
      ensures ajudaId !in Ids(old(ajudas)) ==> ajudas == old(ajudas)
      ensures seqAjudas == old(seqAjudas)
      ensures membros == old(membros) && seqMembros == old(seqMembros)
      ensures financeiro == old(financeiro) && seqFinanceiro == old(seqFinanceiro)
    {
      UpdateStatusWellKeyed(ajudas, ajudaId, status, seqAjudas);
      if ajudaId !in Ids(ajudas) {
        UpdateStatusAbsent(ajudas, ajudaId, status);
      }
      ajudas := UpdateStatus(ajudas, ajudaId, status);
    }

    /** INSERT INTO financeiro. */
    method SalvarMovimentacao(tipo: string, categoria: string, valor: real, data: string, observacao: string)
      requires Valid()
      modifies this
      ensures Valid()
      ensures seqFinanceiro == old(seqFinanceiro) + 1 && seqFinanceiro !in Ids(old(financeiro))
      ensures financeiro == old(financeiro) + [Row(seqFinanceiro, MovementFields(tipo, categoria, valor, data, observacao))]
      ensures membros == old(membros) && seqMembros == old(seqMembros)
      ensures ajudas == old(ajudas) && seqAjudas == old(seqAjudas)
    {
      AppendWellKeyed(financeiro, seqFinanceiro, MovementFields(tipo, categoria, valor, data, observacao));
      seqFinanceiro := seqFinanceiro + 1;
      financeiro := financeiro + [Row(seqFinanceiro, MovementFields(tipo, categoria, valor, data, observacao))];
    }

    /** SELECT * FROM membros ORDER BY data_cadastro DESC */
    function CarregarMembros(): (r: seq<Member>)
      reads this
      ensures multiset(r) == multiset(membros)
      ensures SortedDesc(r, DataCadastro)
    {
      SortDesc(membros, DataCadastro)
    }

    /** SELECT * FROM ajuda_pastoral ORDER BY data_pedido DESC */
    function CarregarAjudas(): (r: seq<Request>)
      reads this
      ensures multiset(r) == multiset(ajudas)
      ensures SortedDesc(r, DataPedido)
    {
      SortDesc(ajudas, DataPedido)
    }

    /** SELECT * FROM financeiro ORDER BY data DESC */
    function CarregarFinanceiro(): (r: seq<Movement>)
      reads this
      ensures multiset(r) == multiset(financeiro)
      ensures SortedDesc(r, Data)
    {
      SortDesc(financeiro, Data)
    }

    /** DELETE FROM membros WHERE id = ? */
    method DeletarMembro(idMembro: int)
      requires Valid()
      modifies this
      ensures Valid()
      ensures membros == DeleteId(old(membros), idMembro)
      ensures idMembro !in Ids(membros)
      ensures old(BracketsConsistent(membros)) ==> BracketsConsistent(membros)
      ensures seqMembros == old(seqMembros)
      ensures ajudas == old(ajudas) && seqAjudas == old(seqAjudas)
      ensures financeiro == old(financeiro) && seqFinanceiro == old(seqFinanceiro)
    {
      DeleteIdWellKeyed(membros, idMembro, seqMembros);
      if BracketsConsistent(membros) {
        DeletePreservesBrackets(membros, idMembro);
      }
      membros := DeleteId(membros, idMembro);
    }

    /** DELETE FROM ajuda_pastoral WHERE id = ? */
    method DeletarAjuda(idAjuda: int)
      requires Valid()
      modifies this
      ensures Valid()
      ensures ajudas == DeleteId(old(ajudas), idAjuda)
      ensures idAjuda !in Ids(ajudas)
      ensures seqAjudas == old(seqAjudas)
      ensures membros == old(membros) && seqMembros == old(seqMembros)
      ensures financeiro == old(financeiro) && seqFinanceiro == old(seqFinanceiro)
    {
      DeleteIdWellKeyed(ajudas, idAjuda, seqAjudas);
      ajudas := DeleteId(ajudas, idAjuda);
    }

    /** DELETE FROM financeiro WHERE id = ? */
    method DeletarMovimentacao(idMov: int)
      requires Valid()
      modifies this
      ensures Valid()
      ensures financeiro == DeleteId(old(financeiro), idMov)
      ensures idMov !in Ids(financeiro)
      ensures seqFinanceiro == old(seqFinanceiro)
      ensures membros == old(membros) && seqMembros == old(seqMembros)
      ensures ajudas == old(ajudas) && seqAjudas == old(seqAjudas)
    {
      DeleteIdWellKeyed(financeiro, idMov, seqFinanceiro);
      financeiro := DeleteId(financeiro, idMov);
    }

    /** DELETE FROM <tabela>: the named table is emptied; its sqlite_sequence
        value stays, so ids are not reused afterwards. */
    method LimparTabela(tabela: Tabela)
      requires Valid()
      modifies this
      ensures Valid()
      ensures membros == (if tabela == Membros then [] else old(membros))
      ensures ajudas == (if tabela == AjudaPastoral then [] else old(ajudas))
      ensures financeiro == (if tabela == Financeiro then [] else old(financeiro))
      ensures seqMembros == old(seqMembros) && seqAjudas == old(seqAjudas)
      ensures seqFinanceiro == old(seqFinanceiro)
    {
      match tabela
      case Membros => membros := [];
      case AjudaPastoral => ajudas := [];
      case Financeiro => financeiro := [];
    }
  }

  /** After an insert, the table's read lists exactly one row with the new id,
      and it is the inserted row. */
  lemma InsertedRowListedOnce<T>(t: seq<Row<T>>, last: int, fields: T, key: Row<T> -> string)
    requires WellKeyed(t, last)
    ensures forall x: Row<T> | x.id == last + 1 ::
      multiset(SortDesc(t + [Row(last + 1, fields)], key))[x] == (if x == Row(last + 1, fields) then 1 else 0)
  {
    var added := Row(last + 1, fields);
    forall x: Row<T> | x.id == last + 1
      ensures multiset(SortDesc(t + [added], key))[x] == (if x == added then 1 else 0)
    {
      assert forall k | 0 <= k < |t| :: t[k] != x;
      assert x !in t;
      assert multiset(t)[x] == 0;
    }
  }

  /** Whatever order the rows were inserted in, two tables holding the same
      rows read back with the same sequence of ORDER BY keys. */
  lemma {:induction false} ReadOrderIndependent<T>(a: seq<T>, b: seq<T>, key: T -> string)
    requires SortedDesc(a, key) && SortedDesc(b, key)
    requires multiset(a) == multiset(b)
    ensures |a| == |b|
    ensures forall k | 0 <= k < |a| :: key(a[k]) == key(b[k])
  {
    assert |a| == |multiset(a)| == |b|;
    if a != [] {
      var i := HeadOfPermutation(a, b, key);
      var a' := RemoveAt(a, i, key);
      assert b == [b[0]] + b[1..];
      MultisetCancel(multiset(a'), multiset(b[1..]), b[0]);
      ReadOrderIndependent(a', b[1..], key);
      LeadingKeysEqual(a, i, key);
      forall k | 0 <= k < |a| ensures key(a[k]) == key(b[k]) {
        if 0 < k <= i {
          assert a'[k - 1] == a[k - 1];
        } else if k > i {
          assert a'[k - 1] == a[k];
        }
      }
    }
  }

  /** The first element of one descending arrangement sits somewhere in the
      other, and the two first elements carry the same key. */
  lemma HeadOfPermutation<T>(a: seq<T>, b: seq<T>, key: T -> string) returns (i: nat)
    requires SortedDesc(a, key) && SortedDesc(b, key)
    requires multiset(a) == multiset(b) && b != []
    ensures i < |a| && a[i] == b[0] && key(a[0]) == key(b[0])
  {
    assert b[0] in multiset(a);
    i :| 0 <= i < |a| && a[i] == b[0];
    assert a[0] in multiset(b);
    var j :| 0 <= j < |b| && b[j] == a[0];
    LexLeReflexive(key(a[0]));
    LexLeReflexive(key(b[0]));
    assert LexLe(key(a[0]), key(b[0])) by {
      if j > 0 {
        assert LexLe(key(b[j]), key(b[0]));
      }
    }
    assert LexLe(key(b[0]), key(a[0])) by {
      if i > 0 {
        assert LexLe(key(a[i]), key(a[0]));
      }
    }
    LexLeAntisymmetric(key(a[0]), key(b[0]));
  }

  /** a without its element at i, still sorted. */
  function RemoveAt<T>(a: seq<T>, i: nat, key: T -> string): (r: seq<T>)
    requires i < |a| && SortedDesc(a, key)
    ensures |r| == |a| - 1
    ensures multiset(r) + multiset{a[i]} == multiset(a)
    ensures forall k | 0 <= k < i :: r[k] == a[k]
    ensures forall k | i <= k < |r| :: r[k] == a[k + 1]
    ensures SortedDesc(r, key)
  {
    assert a == a[..i] + [a[i]] + a[i + 1..];
    a[..i] + a[i + 1..]
  }

  /** In a descending sequence, every element up to one that ties with the
      first carries the first element's key. */
  lemma LeadingKeysEqual<T>(a: seq<T>, i: nat, key: T -> string)
    requires i < |a| && SortedDesc(a, key) && key(a[i]) == key(a[0])
    ensures forall k | 0 <= k <= i :: key(a[k]) == key(a[0])
  {
    forall k | 0 < k < i ensures key(a[k]) == key(a[0]) {
      LexLeAntisymmetric(key(a[k]), key(a[0]));
    }
  }

  /** Two requests 17 days apart, written the way dadabase.py:51 writes them. */
  const PedidoJaneiro: Request := Row(1, RequestFields("Ana", "Visita", "15/01/2024 09:00", Pendente))
  const PedidoFevereiro: Request := Row(2, RequestFields("Rui", "Oração", "01/02/2024 09:00", Pendente))

  /** The reads order by the date text, not by the date: every answer the
      read may give lists the January request before the later February one,
      because "15/..." is the greater string. */
  lemma TextOrderIsNotRecency(r: seq<Request>)
    requires multiset(r) == multiset{PedidoJaneiro, PedidoFevereiro}
    requires SortedDesc(r, DataPedido)
    ensures r == [PedidoJaneiro, PedidoFevereiro]
  {
    assert |r| == 2 by {
      assert |multiset(r)| == 2;
    }
    assert r[0] in multiset(r) && r[1] in multiset(r);
    assert PedidoJaneiro != PedidoFevereiro;
    assert !LexLe(DataPedido(PedidoJaneiro), DataPedido(PedidoFevereiro));
  }
}
