/** The financial report over a snapshot of the financeiro table: the three
    totals, the per-category income distribution and the month-by-type pivot
    the bar chart is drawn from. Amounts are exact reals. */
module Finance {
  import opened Ordering
  import opened Tables
  import opened Dates

  const Entrada: string := "Entrada"
  const Saida: string := "Saída"

  /** What a row adds to the sum of its type: df[df['tipo'] == tipo]['valor']. */
  function Contribution(r: Movement, tipo: string): real
  {
    if r.fields.tipo == tipo then r.fields.valor else 0.0
  }

  /** df[df['tipo'] == tipo]['valor'].sum(): 0 on no matching rows. */
  function SumTipo(rows: seq<Movement>, tipo: string): real
  {
    if rows == [] then 0.0 else Contribution(rows[0], tipo) + SumTipo(rows[1..], tipo)
  }

  datatype Totals = Totals(entradas: real, saidas: real, saldo: real)

  /** entradas, saidas and saldo = entradas - saidas. */
  function Resumo(rows: seq<Movement>): (r: Totals)
    ensures r.entradas == SumTipo(rows, Entrada) && r.saidas == SumTipo(rows, Saida)
    ensures r.saldo == r.entradas - r.saidas
  {
    var e := SumTipo(rows, Entrada);
    var s := SumTipo(rows, Saida);
    Totals(e, s, e - s)
  }

  /** All three totals are 0 on an empty snapshot. */
  lemma ResumoEmpty()
    ensures Resumo([]) == Totals(0.0, 0.0, 0.0)
  {
  }

  lemma {:induction false} SumTipoAppend(a: seq<Movement>, b: seq<Movement>, tipo: string)
    ensures SumTipo(a + b, tipo) == SumTipo(a, tipo) + SumTipo(b, tipo)
  {
    if a == [] {
      assert a + b == b;
    } else {
      assert (a + b)[1..] == a[1..] + b;
      SumTipoAppend(a[1..], b, tipo);
    }
  }

  /** The totals do not depend on the order the rows come in, so the
      ORDER BY of the read does not change them. */
  lemma {:induction false} SumTipoPermutation(a: seq<Movement>, b: seq<Movement>, tipo: string)
    requires multiset(a) == multiset(b)
    ensures SumTipo(a, tipo) == SumTipo(b, tipo)
  {
    if a == [] {
      assert |b| == |multiset(b)| == 0;
    } else {
      var k := MatchHead(a, b);
      SumTipoPermutation(a[1..], b[..k] + b[k + 1..], tipo);
      SumTipoAppend(b[..k], b[k + 1..], tipo);
      SumTipoAppend(b[..k], [b[k]] + b[k + 1..], tipo);
      assert ([b[k]] + b[k + 1..])[1..] == b[k + 1..];
      assert b[..k] + ([b[k]] + b[k + 1..]) == b;
    }
  }

  lemma ResumoPermutation(a: seq<Movement>, b: seq<Movement>)
    requires multiset(a) == multiset(b)
    ensures Resumo(a) == Resumo(b)
  {
    SumTipoPermutation(a, b, Entrada);
    SumTipoPermutation(a, b, Saida);
  }

  /** Recording one movement (salvar_movimentacao) and the balance moves by its
      amount: up for an 'Entrada', down for a 'Saída', not at all otherwise. */
  lemma SaldoAfterInsert(rows: seq<Movement>, m: Movement)
    ensures Resumo(rows + [m]).saldo ==
      Resumo(rows).saldo + (if m.fields.tipo == Entrada then m.fields.valor
                            else if m.fields.tipo == Saida then -m.fields.valor else 0.0)
  {
    SumTipoAppend(rows, [m], Entrada);
    SumTipoAppend(rows, [m], Saida);
  }

  /** The worked example: two incomes of 100 and 25 and one expense of 40. */
  lemma ResumoExample()
    ensures Resumo([Row(1, MovementFields(Entrada, "Dízimo", 100.0, "01/03/2024", "")),
                    Row(2, MovementFields(Saida, "Luz", 40.0, "02/03/2024", "")),
                    Row(3, MovementFields(Entrada, "Oferta", 25.0, "03/03/2024", ""))])
            == Totals(125.0, 40.0, 85.0)
  {
    var rows := [Row(1, MovementFields(Entrada, "Dízimo", 100.0, "01/03/2024", "")),
                 Row(2, MovementFields(Saida, "Luz", 40.0, "02/03/2024", "")),
                 Row(3, MovementFields(Entrada, "Oferta", 25.0, "03/03/2024", ""))];
    assert Entrada != Saida by {
      assert Entrada[0] == 'E' && Saida[0] == 'S';
    }
    assert rows[1..][1..][1..] == [];
    assert SumTipo(rows[1..][1..], Entrada) == 25.0 && SumTipo(rows[1..][1..], Saida) == 0.0;
    assert SumTipo(rows[1..], Entrada) == 25.0 && SumTipo(rows[1..], Saida) == 40.0;
  }

  // ---------------------------------------------------------------------
  // Grouped sums

  /** A row's group under a grouping column, None when it is in no group
      (pandas drops NaN keys from a groupby). */
  function MonthOf(r: Movement): Option<string> { MonthKey(r.fields.data) }
  function CategoryOf(r: Movement): Option<string> { Some(r.fields.categoria) }

  /** The sum of valor over the rows of one type in group k. */
  function GroupSum(rows: seq<Movement>, tipo: string, key: Movement -> Option<string>, k: string): real
  {
    if rows == [] then 0.0
    else (if key(rows[0]) == Some(k) then Contribution(rows[0], tipo) else 0.0)
         + GroupSum(rows[1..], tipo, key, k)
  }

  /** The sum of valor over the rows of one type whose group is one of ks. */
  function KeyedSum(rows: seq<Movement>, tipo: string, key: Movement -> Option<string>, ks: seq<string>): real
  {
    if rows == [] then 0.0
    else (if key(rows[0]).Some? && key(rows[0]).value in ks then Contribution(rows[0], tipo) else 0.0)
         + KeyedSum(rows[1..], tipo, key, ks)
  }

  /** The group sums of ks, added up. */
  function SumOverKeys(rows: seq<Movement>, tipo: string, key: Movement -> Option<string>, ks: seq<string>): real
  {
    if ks == [] then 0.0 else GroupSum(rows, tipo, key, ks[0]) + SumOverKeys(rows, tipo, key, ks[1..])
  }

  predicate Distinct(ks: seq<string>)
  {
    forall i, j | 0 <= i < j < |ks| :: ks[i] != ks[j]
  }

  lemma {:induction false} KeyedSumCons(rows: seq<Movement>, tipo: string, key: Movement -> Option<string>, ks: seq<string>)
    requires ks != [] && ks[0] !in ks[1..]
    ensures KeyedSum(rows, tipo, key, ks) == GroupSum(rows, tipo, key, ks[0]) + KeyedSum(rows, tipo, key, ks[1..])
  {
    if rows != [] {
      KeyedSumCons(rows[1..], tipo, key, ks);
      assert forall v :: v in ks <==> v == ks[0] || v in ks[1..] by {
        assert ks == [ks[0]] + ks[1..];
      }
    }
  }

  /** Group sums over distinct keys add up to the sum over the rows in those
      groups: no row is counted twice. */
  lemma {:induction false} SumOverKeysIsKeyedSum(rows: seq<Movement>, tipo: string, key: Movement -> Option<string>, ks: seq<string>)
    requires Distinct(ks)
    ensures SumOverKeys(rows, tipo, key, ks) == KeyedSum(rows, tipo, key, ks)
  {
    if ks == [] {
      KeyedSumNone(rows, tipo, key);
    } else {
      assert ks[0] !in ks[1..] by {
        forall j | 0 <= j < |ks[1..]| ensures ks[1..][j] != ks[0] {
          assert ks[1..][j] == ks[j + 1];
        }
      }
      KeyedSumCons(rows, tipo, key, ks);
      SumOverKeysIsKeyedSum(rows, tipo, key, ks[1..]);
    }
  }

  lemma {:induction false} KeyedSumNone(rows: seq<Movement>, tipo: string, key: Movement -> Option<string>)
    ensures KeyedSum(rows, tipo, key, []) == 0.0
  {
    if rows != [] {
      KeyedSumNone(rows[1..], tipo, key);
    }
  }

  /** When every row of the type has a group among ks, the keyed sum is the
      whole total of the type. */
  lemma {:induction false} KeyedSumCoversAll(rows: seq<Movement>, tipo: string, key: Movement -> Option<string>, ks: seq<string>)
    requires forall i | 0 <= i < |rows| && rows[i].fields.tipo == tipo :: key(rows[i]).Some? && key(rows[i]).value in ks
    ensures KeyedSum(rows, tipo, key, ks) == SumTipo(rows, tipo)
  {
    if rows != [] {
      assert forall i | 0 <= i < |rows[1..]| :: rows[1..][i] == rows[i + 1];
      KeyedSumCoversAll(rows[1..], tipo, key, ks);
    }
  }

  /** The group of every row that has one, in row order. */
  function Observed(rows: seq<Movement>, key: Movement -> Option<string>): (ks: seq<string>)
    ensures forall k :: k in ks <==> exists i | 0 <= i < |rows| :: key(rows[i]) == Some(k)
  {
    if rows == [] then []
    else
      var rest := Observed(rows[1..], key);
      assert forall k :: (exists i | 0 <= i < |rows[1..]| :: key(rows[1..][i]) == Some(k))
                         <==> (exists i | 1 <= i < |rows| :: key(rows[i]) == Some(k)) by {
        forall k, i | 1 <= i < |rows| && key(rows[i]) == Some(k)
          ensures exists i' | 0 <= i' < |rows[1..]| :: key(rows[1..][i']) == Some(k) {
          assert rows[1..][i - 1] == rows[i];
        }
      }
      if key(rows[0]).Some? then [key(rows[0]).value] + rest else rest
  }

  // ---------------------------------------------------------------------
  // Income by category (dadabase.py:341)

  /** An income row's category; other rows are in no group. */
  function IncomeCategoryOf(r: Movement): Option<string>
  {
    if r.fields.tipo == Entrada then Some(r.fields.categoria) else None
  }

  /** The categories of the income rows, sorted and each once: the index of
      df[df['tipo'] == 'Entrada'].groupby('categoria'). */
  function Categorias(rows: seq<Movement>): (cs: seq<string>)
    ensures StrictlyAscending(cs)
    ensures forall c :: c in cs <==> exists i | 0 <= i < |rows| :: rows[i].fields.tipo == Entrada && rows[i].fields.categoria == c
  {
    SortedKeys(Observed(rows, IncomeCategoryOf))
  }

  /** df[df['tipo'] == 'Entrada'].groupby('categoria')['valor'].sum() as a
      list of (category, total) in index order. */
  function EntradasPorCategoria(rows: seq<Movement>): (r: seq<(string, real)>)
    ensures |r| == |Categorias(rows)|
    ensures forall i | 0 <= i < |r| :: r[i].0 == Categorias(rows)[i]
    ensures forall i | 0 <= i < |r| :: r[i].1 == GroupSum(rows, Entrada, CategoryOf, r[i].0)
  {
    var cs := Categorias(rows);
    seq(|cs|, i requires 0 <= i < |cs| => (cs[i], GroupSum(rows, Entrada, CategoryOf, cs[i])))
  }

  function SumValues(ps: seq<(string, real)>): real
  {
    if ps == [] then 0.0 else ps[0].1 + SumValues(ps[1..])
  }

  lemma {:induction false} SumValuesIsSumOverKeys(rows: seq<Movement>, ps: seq<(string, real)>, ks: seq<string>)
    requires |ps| == |ks|
    requires forall i | 0 <= i < |ps| :: ps[i].0 == ks[i] && ps[i].1 == GroupSum(rows, Entrada, CategoryOf, ks[i])
    ensures SumValues(ps) == SumOverKeys(rows, Entrada, CategoryOf, ks)
  {
    if ps != [] {
      SumValuesIsSumOverKeys(rows, ps[1..], ks[1..]);
    }
  }

  lemma StrictlyAscendingDistinct(ks: seq<string>)
    requires StrictlyAscending(ks)
    ensures Distinct(ks)
  {
  }

  /** The category totals add up to entradas: every income row is in exactly
      one category. */
  lemma CategoriasSumToEntradas(rows: seq<Movement>)
    ensures SumValues(EntradasPorCategoria(rows)) == Resumo(rows).entradas
  {
    var cs := Categorias(rows);
    SumValuesIsSumOverKeys(rows, EntradasPorCategoria(rows), cs);
    StrictlyAscendingDistinct(cs);
    SumOverKeysIsKeyedSum(rows, Entrada, CategoryOf, cs);
    forall i | 0 <= i < |rows| && rows[i].fields.tipo == Entrada
      ensures CategoryOf(rows[i]).value in cs
    {
    }
    KeyedSumCoversAll(rows, Entrada, CategoryOf, cs);
  }
}
