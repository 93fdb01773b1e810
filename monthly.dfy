/** The month-by-type table behind the "Entradas x Saídas por Mês" chart:
    group the movements by (month, type), sum valor, unstack the type into
    columns with 0 for a missing pair, then add whichever of the 'Entrada' and
    'Saída' columns is still missing, filled with 0. */
module Monthly {
  import opened Ordering
  import opened Tables
  import opened Dates
  import opened Finance

  /** A movement's type as a grouping value, for rows that have a month. */
  function DatedTipoOf(r: Movement): Option<string>
  {
    if MonthOf(r).Some? then Some(r.fields.tipo) else None
  }

  /** The row labels: every month some movement falls in, ascending. */
  function Meses(rows: seq<Movement>): (ms: seq<string>)
    ensures StrictlyAscending(ms)
    ensures forall m :: m in ms <==> exists i | 0 <= i < |rows| :: MonthOf(rows[i]) == Some(m)
  {
    SortedKeys(Observed(rows, MonthOf))
  }

  /** The columns unstack produces: every type that some movement with a
      month has, ascending. */
  function Tipos(rows: seq<Movement>): (ts: seq<string>)
    ensures StrictlyAscending(ts)
    ensures forall t :: t in ts <==> exists i | 0 <= i < |rows| :: MonthOf(rows[i]).Some? && rows[i].fields.tipo == t
  {
    SortedKeys(Observed(rows, DatedTipoOf))
  }

  /** The sum of valor of type tipo over the movements dated in month m. */
  function MonthSum(rows: seq<Movement>, tipo: string, m: string): real
  {
    GroupSum(rows, tipo, MonthOf, m)
  }

  /** A data frame with row labels, column labels and a cell per pair. */
  datatype Frame = Frame(index: seq<string>, columns: seq<string>, cell: map<(string, string), real>)

  /** Every (month, type) cell is present and holds that month's sum. */
  ghost predicate Dense(f: Frame, rows: seq<Movement>)
  {
    forall m, t | m in f.index && t in f.columns :: (m, t) in f.cell && f.cell[(m, t)] == MonthSum(rows, t, m)
  }

  /** df.groupby(['mês', 'tipo'])['valor'].sum().unstack(fill_value=0): a pair
      no row has gets the fill value 0, which is also its (empty) sum. */
  function Unstack(rows: seq<Movement>): (f: Frame)
    ensures f.index == Meses(rows) && f.columns == Tipos(rows)
    ensures Dense(f, rows)
  {
    var ms := Meses(rows);
    var ts := Tipos(rows);
    Frame(ms, ts, SumCells(rows, ms, ts))
  }

  /** The cells of the (month, type) pairs ms x ts, each holding its sum. */
  function SumCells(rows: seq<Movement>, ms: seq<string>, ts: seq<string>): (cell: map<(string, string), real>)
    ensures forall m, t | m in ms && t in ts :: (m, t) in cell && cell[(m, t)] == MonthSum(rows, t, m)
  {
    var pairs := set m, t | m in ms && t in ts :: (m, t);
    assert forall m, t | m in ms && t in ts :: (m, t) in pairs;
    map p | p in pairs :: MonthSum(rows, p.1, p.0)
  }

  /** A type no dated movement has sums to 0 in every month. */
  lemma {:induction false} AbsentTipoSumsToZero(rows: seq<Movement>, tipo: string, m: string)
    requires forall i | 0 <= i < |rows| :: MonthOf(rows[i]).Some? ==> rows[i].fields.tipo != tipo
    ensures MonthSum(rows, tipo, m) == 0.0
  {
    if rows != [] {
      assert forall i | 0 <= i < |rows[1..]| :: rows[1..][i] == rows[i + 1];
      AbsentTipoSumsToZero(rows[1..], tipo, m);
    }
  }

  /** The monthly table as the report builds it (dadabase.py:327-331). Afterwards it
      has one row per month some movement is dated in, both an 'Entrada' and
      a 'Saída' column after the unstacked ones (each added once, in that
      order, only where unstack did not produce it), and every cell holds the sum
      of its month and type, 0 where there is none. When every date is
      well-formed, each of the two columns adds up to the matching total. */
  method MonthlyPivot(rows: seq<Movement>) returns (mensal: Frame)
    ensures mensal.index == Meses(rows)
    ensures |Tipos(rows)| <= |mensal.columns| && mensal.columns[..|Tipos(rows)|] == Tipos(rows)
    ensures forall t :: t in mensal.columns <==> t in Tipos(rows) || t == Entrada || t == Saida
    ensures mensal.columns == Tipos(rows) + Missing(Tipos(rows), [Entrada, Saida])
    ensures Dense(mensal, rows)
    ensures AllDated(rows) ==> ColumnTotal(mensal, Entrada, mensal.index) == Resumo(rows).entradas
    ensures AllDated(rows) ==> ColumnTotal(mensal, Saida, mensal.index) == Resumo(rows).saidas
  {
    mensal := Unstack(rows);
    ghost var ts := Tipos(rows);
    ghost var added: seq<string> := [];
    var cols := [Entrada, Saida];
    for i := 0 to |cols|
      invariant mensal.index == Meses(rows)
      invariant mensal.columns == ts + added
      invariant added == Missing(ts, cols[..i])
      invariant forall t | t in added :: t in cols[..i]
      invariant forall t | t in cols[..i] :: t in mensal.columns
      invariant Dense(mensal, rows)
    {
      var col := cols[i];
      if col !in mensal.columns {
        mensal := AddZeroColumn(rows, mensal, col);
        added := added + [col];
      }
      assert cols[..i + 1] == cols[..i] + [col];
      MissingSnoc(ts, cols[..i], col);
    }
    assert cols[..|cols|] == cols;
    PivotColumns(rows, mensal, ts, added);
    ColumnAddsUp(rows, mensal, Entrada);
    ColumnAddsUp(rows, mensal, Saida);
  }

  /** The names of cs, in order, that ts does not have, each kept once: the
      columns the loop over cs appends to a table whose columns are ts. */
  function Missing(ts: seq<string>, cs: seq<string>): seq<string>
    decreases |cs|
  {
    if cs == [] then []
    else
      var prev := Missing(ts, cs[..|cs| - 1]);
      var c := cs[|cs| - 1];
      if c in ts + prev then prev else prev + [c]
  }

  lemma MissingSnoc(ts: seq<string>, cs: seq<string>, c: string)
    ensures Missing(ts, cs + [c]) == if c in ts + Missing(ts, cs) then Missing(ts, cs) else Missing(ts, cs) + [c]
  {
    assert (cs + [c])[..|cs|] == cs;
  }

  /** A name is appended exactly when it is in cs and not in ts, and none is
      appended twice. */
  lemma {:induction false} MissingContents(ts: seq<string>, cs: seq<string>)
    ensures forall t :: t in Missing(ts, cs) <==> t in cs && t !in ts
    ensures forall i, j | 0 <= i < j < |Missing(ts, cs)| :: Missing(ts, cs)[i] != Missing(ts, cs)[j]
    decreases |cs|
  {
    if cs != [] {
      var init := cs[..|cs| - 1];
      MissingContents(ts, init);
      assert cs == init + [cs[|cs| - 1]];
      MissingSnoc(ts, init, cs[|cs| - 1]);
    }
  }

  /** The columns of the finished table: the unstacked types, then the added
      ones, which are among 'Entrada' and 'Saída'. */
  lemma PivotColumns(rows: seq<Movement>, f: Frame, ts: seq<string>, added: seq<string>)
    requires ts == Tipos(rows) && f.columns == ts + added
    requires forall t | t in added :: t == Entrada || t == Saida
    requires Entrada in f.columns && Saida in f.columns
    ensures |Tipos(rows)| <= |f.columns| && f.columns[..|Tipos(rows)|] == Tipos(rows)
    ensures forall t :: t in f.columns <==> t in Tipos(rows) || t == Entrada || t == Saida
  {
    assert f.columns[..|ts|] == ts;
  }

  /** df[col] = 0 for a type the table has no column for: since no dated
      movement has that type, 0 is the sum of every one of its cells. */
  function AddZeroColumn(rows: seq<Movement>, f: Frame, col: string): (g: Frame)
    requires Dense(f, rows) && col !in Tipos(rows)
    ensures g.index == f.index && g.columns == f.columns + [col]
    ensures Dense(g, rows)
  {
    assert forall m | m in f.index :: MonthSum(rows, col, m) == 0.0 by {
      forall m | m in f.index ensures MonthSum(rows, col, m) == 0.0 {
        AbsentTipoSumsToZero(rows, col, m);
      }
    }
    Frame(f.index, f.columns + [col], f.cell + map m | m in f.index :: (m, col) := 0.0)
  }

  /** Every movement's date parses to a month. */
  predicate AllDated(rows: seq<Movement>)
  {
    forall i | 0 <= i < |rows| :: MonthOf(rows[i]).Some?
  }

  /** The sum of column t over the rows ms of the table. */
  function ColumnTotal(f: Frame, t: string, ms: seq<string>): real
    requires forall m | m in ms :: (m, t) in f.cell
  {
    if ms == [] then 0.0 else f.cell[(ms[0], t)] + ColumnTotal(f, t, ms[1..])
  }

  lemma {:induction false} ColumnTotalIsSumOverKeys(rows: seq<Movement>, f: Frame, t: string, ms: seq<string>)
    requires forall m | m in ms :: (m, t) in f.cell && f.cell[(m, t)] == MonthSum(rows, t, m)
    ensures ColumnTotal(f, t, ms) == SumOverKeys(rows, t, MonthOf, ms)
  {
    if ms != [] {
      ColumnTotalIsSumOverKeys(rows, f, t, ms[1..]);
    }
  }

  /** A column of the monthly table adds up to the movements of its type that
      have a month; with every date well-formed, to the whole total of the type. */
  lemma ColumnAddsUp(rows: seq<Movement>, f: Frame, t: string)
    requires f.index == Meses(rows) && Dense(f, rows) && t in f.columns
    ensures forall m | m in f.index :: (m, t) in f.cell
    ensures ColumnTotal(f, t, f.index) == KeyedSum(rows, t, MonthOf, f.index)
    ensures AllDated(rows) ==> ColumnTotal(f, t, f.index) == SumTipo(rows, t)
  {
    ColumnTotalIsSumOverKeys(rows, f, t, f.index);
    StrictlyAscendingDistinct(f.index);
    SumOverKeysIsKeyedSum(rows, t, MonthOf, f.index);
    if AllDated(rows) {
      forall i | 0 <= i < |rows| && rows[i].fields.tipo == t
        ensures MonthOf(rows[i]).Some? && MonthOf(rows[i]).value in f.index
      {
      }
      KeyedSumCoversAll(rows, t, MonthOf, f.index);
    }
  }
}
