/** The rows of the three tables created by init_db (membros, ajuda_pastoral,
    financeiro) and the statements that change a table, as functions on the
    sequence of its rows in rowid order. */
module Tables {
  import opened Bracket

  /** A row: the INTEGER PRIMARY KEY AUTOINCREMENT id and the other columns. */
  datatype Row<T> = Row(id: int, fields: T)

  /** The columns of membros after id. */
  datatype MemberFields = MemberFields(
    nome: string,
    estadoCivil: string,
    idade: int,
    faixaEtaria: string,
    residencia: string,
    batizado: string,
    anosIgreja: int,
    dataCadastro: string)

  /** The columns of ajuda_pastoral after id. */
  datatype RequestFields = RequestFields(
    nome: string,
    descricao: string,
    dataPedido: string,
    status: string)

  /** The columns of financeiro after id; valor is an exact decimal here. */
  datatype MovementFields = MovementFields(
    tipo: string,
    categoria: string,
    valor: real,
    data: string,
    observacao: string)

  type Member = Row<MemberFields>
  type Request = Row<RequestFields>
  type Movement = Row<MovementFields>

  /** The status every new pastoral request is inserted with. */
  const Pendente: string := "Pendente"

  function Ids<T>(t: seq<Row<T>>): set<int>
  {
    set i | 0 <= i < |t| :: t[i].id
  }

  /** The ids of a table are at least 1, strictly increasing in rowid order, and
      no larger than the table's sqlite_sequence value (the last id handed out). */
  predicate WellKeyed<T>(t: seq<Row<T>>, last: int)
  {
    && 0 <= last
    && (forall i | 0 <= i < |t| :: 1 <= t[i].id <= last)
    && (forall i, j | 0 <= i < j < |t| :: t[i].id < t[j].id)
  }

  /** An insert under AUTOINCREMENT: the new row takes the id after the last
      one handed out, which no row of the table has. */
  lemma AppendWellKeyed<T>(t: seq<Row<T>>, last: int, fields: T)
    requires WellKeyed(t, last)
    ensures last + 1 !in Ids(t)
    ensures WellKeyed(t + [Row(last + 1, fields)], last + 1)
  {
    var r := t + [Row(last + 1, fields)];
    assert forall i | 0 <= i < |t| :: r[i] == t[i];
  }

  /** DELETE FROM t WHERE id = ? */
  function DeleteId<T(==)>(t: seq<Row<T>>, id: int): (r: seq<Row<T>>)
    ensures forall x | x in r :: x in t && x.id != id
    ensures forall x | x in t && x.id != id :: x in r
  {
    if t == [] then []
    else
      assert t == [t[0]] + t[1..];
      var rest := DeleteId(t[1..], id);
      if t[0].id == id then rest else [t[0]] + rest
  }

  /** A delete keeps the ids of the remaining rows ascending and bounded. */
  lemma {:induction false} DeleteIdWellKeyed<T>(t: seq<Row<T>>, id: int, last: int)
    requires WellKeyed(t, last)
    ensures WellKeyed(DeleteId(t, id), last)
  {
    if t != [] {
      TailWellKeyed(t, last);
      DeleteIdWellKeyed(t[1..], id, last);
      if t[0].id != id {
        DeleteIdIdsWithin(t[1..], id, t[0].id + 1, last);
        ConsWellKeyed(t[0], DeleteId(t[1..], id), last);
      }
    }
  }

  /** Dropping the first row keeps a table well keyed, and every later id
      exceeds the first. */
  lemma TailWellKeyed<T>(t: seq<Row<T>>, last: int)
    requires WellKeyed(t, last) && t != []
    ensures WellKeyed(t[1..], last)
    ensures forall k | 0 <= k < |t[1..]| :: t[0].id + 1 <= t[1..][k].id <= last
  {
    assert forall i | 0 <= i < |t[1..]| :: t[1..][i] == t[i + 1];
  }

  /** A row in front of a well-keyed table with larger ids keeps it well keyed. */
  lemma ConsWellKeyed<T>(x: Row<T>, rest: seq<Row<T>>, last: int)
    requires WellKeyed(rest, last) && 1 <= x.id <= last
    requires forall k | 0 <= k < |rest| :: x.id < rest[k].id
    ensures WellKeyed([x] + rest, last)
  {
    var r := [x] + rest;
    assert forall p | 0 < p < |r| :: r[p] == rest[p - 1];
  }

  /** A delete keeps every id inside a range that held all ids before. */
  lemma {:induction false} DeleteIdIdsWithin<T>(t: seq<Row<T>>, id: int, lo: int, hi: int)
    requires forall k | 0 <= k < |t| :: lo <= t[k].id <= hi
    ensures forall k | 0 <= k < |DeleteId(t, id)| :: lo <= DeleteId(t, id)[k].id <= hi
  {
    if t != [] {
      DeleteIdIdsWithin(t[1..], id, lo, hi);
    }
  }

  /** Deleting an id no row has changes nothing. */
  lemma {:induction false} DeleteIdAbsent<T>(t: seq<Row<T>>, id: int)
    requires id !in Ids(t)
    ensures DeleteId(t, id) == t
  {
    if t != [] {
      assert t[0].id in Ids(t);
      assert id !in Ids(t[1..]) by {
        forall k | 0 <= k < |t[1..]| ensures t[1..][k].id != id {
          assert t[k + 1].id in Ids(t);
        }
      }
      DeleteIdAbsent(t[1..], id);
    }
  }

  /** Deleting an id a second time changes nothing. */
  lemma {:induction false} DeleteIdIdempotent<T>(t: seq<Row<T>>, id: int)
    ensures DeleteId(DeleteId(t, id), id) == DeleteId(t, id)
  {
    if t != [] {
      DeleteIdIdempotent(t[1..], id);
    }
  }

  /** The rows a delete keeps stay in the order they were in. */
  lemma {:induction false} DeleteIdKeepsOrder<T>(t: seq<Row<T>>, id: int, i: nat, j: nat)
    requires i < j < |t| && t[i].id != id && t[j].id != id
    ensures exists i', j' :: 0 <= i' < j' < |DeleteId(t, id)| && DeleteId(t, id)[i'] == t[i] && DeleteId(t, id)[j'] == t[j]
  {
    var rest := DeleteId(t[1..], id);
    if i == 0 {
      DeleteIdKeepsIndex(t[1..], id, j - 1);
      var j' :| 0 <= j' < |rest| && rest[j'] == t[j];
      assert DeleteId(t, id) == [t[0]] + rest;
      assert DeleteId(t, id)[0] == t[i] && DeleteId(t, id)[j' + 1] == t[j];
    } else {
      DeleteIdKeepsOrder(t[1..], id, i - 1, j - 1);
      var i', j' :| 0 <= i' < j' < |rest| && rest[i'] == t[i] && rest[j'] == t[j];
      if t[0].id == id {
        assert DeleteId(t, id) == rest;
      } else {
        assert DeleteId(t, id) == [t[0]] + rest;
        assert DeleteId(t, id)[i' + 1] == t[i] && DeleteId(t, id)[j' + 1] == t[j];
      }
    }
  }

  lemma DeleteIdKeepsIndex<T>(t: seq<Row<T>>, id: int, j: nat)
    requires j < |t| && t[j].id != id
    ensures exists j' :: 0 <= j' < |DeleteId(t, id)| && DeleteId(t, id)[j'] == t[j]
  {
    assert t[j] in t;
    assert t[j] in DeleteId(t, id);
  }

  /** UPDATE ajuda_pastoral SET status = ? WHERE id = ? */
  function UpdateStatus(t: seq<Request>, id: int, status: string): (r: seq<Request>)
    ensures |r| == |t|
    ensures forall i | 0 <= i < |t| ::
      && r[i].id == t[i].id
      && r[i].fields == (if t[i].id == id then t[i].fields.(status := status) else t[i].fields)
  {
    if t == [] then []
    else
      var first := if t[0].id == id then Row(t[0].id, t[0].fields.(status := status)) else t[0];
      [first] + UpdateStatus(t[1..], id, status)
  }

  /** An update keeps every id, so it keeps the table's key invariant. */
  lemma UpdateStatusWellKeyed(t: seq<Request>, id: int, status: string, last: int)
    requires WellKeyed(t, last)
    ensures WellKeyed(UpdateStatus(t, id, status), last)
    ensures Ids(UpdateStatus(t, id, status)) == Ids(t)
  {
    var r := UpdateStatus(t, id, status);
    forall x | x in Ids(r) ensures x in Ids(t) {
      var k :| 0 <= k < |r| && r[k].id == x;
      assert t[k] in t;
    }
    forall x | x in Ids(t) ensures x in Ids(r) {
      var k :| 0 <= k < |t| && t[k].id == x;
      assert r[k] in r;
    }
  }

  /** An update of an id no row has leaves the table as it was. */
  lemma UpdateStatusAbsent(t: seq<Request>, id: int, status: string)
    requires id !in Ids(t)
    ensures UpdateStatus(t, id, status) == t
  {
    var r := UpdateStatus(t, id, status);
    forall i | 0 <= i < |t| ensures r[i] == t[i] {
      assert t[i] in t;
    }
  }

  /** Repeating an update changes nothing more. */
  lemma UpdateStatusIdempotent(t: seq<Request>, id: int, status: string)
    ensures UpdateStatus(UpdateStatus(t, id, status), id, status) == UpdateStatus(t, id, status)
  {
    var r := UpdateStatus(t, id, status);
    var r2 := UpdateStatus(r, id, status);
    forall i | 0 <= i < |t| ensures r2[i] == r[i] {
    }
  }

  /** Every row of a member table carries the bracket of its own age. */
  predicate BracketsConsistent(t: seq<Member>)
  {
    forall i | 0 <= i < |t| :: t[i].fields.faixaEtaria == DefinirFaixaEtaria(t[i].fields.idade)
  }

  /** Deleting members keeps every remaining bracket consistent. */
  lemma DeletePreservesBrackets(t: seq<Member>, id: int)
    requires BracketsConsistent(t)
    ensures BracketsConsistent(DeleteId(t, id))
  {
    var r := DeleteId(t, id);
    forall i | 0 <= i < |r| ensures r[i].fields.faixaEtaria == DefinirFaixaEtaria(r[i].fields.idade) {
      assert r[i] in r;
      var k :| 0 <= k < |t| && t[k] == r[i];
    }
  }
}
