/** The "Faixa Etária" chart of the Relatórios page: the members as
    carregar_membros reads them, counted by their stored age bracket
    (value_counts of the faixa_etaria column). */
module Relatorios {
  import Ordering
  import opened Bracket
  import opened Tables
  import opened Store

  /** How many of the rows have bracket faixa. */
  function CountFaixa(t: seq<Member>, faixa: string): (n: nat)
    ensures n <= |t|
  {
    if t == [] then 0
    else (if t[0].fields.faixaEtaria == faixa then 1 else 0) + CountFaixa(t[1..], faixa)
  }

  /** A bracket is counted at least once exactly when some row has it. */
  lemma {:induction false} CountFaixaPositive(t: seq<Member>, faixa: string)
    ensures CountFaixa(t, faixa) > 0 <==> exists i | 0 <= i < |t| :: t[i].fields.faixaEtaria == faixa
  {
    if t != [] {
      CountFaixaPositive(t[1..], faixa);
      if exists i | 0 <= i < |t| :: t[i].fields.faixaEtaria == faixa {
        var i :| 0 <= i < |t| && t[i].fields.faixaEtaria == faixa;
        if i > 0 {
          assert t[1..][i - 1] == t[i];
        }
      }
      if exists i | 0 <= i < |t[1..]| :: t[1..][i].fields.faixaEtaria == faixa {
        var i :| 0 <= i < |t[1..]| && t[1..][i].fields.faixaEtaria == faixa;
        assert t[i + 1] == t[1..][i];
      }
    }
  }

  lemma {:induction false} CountFaixaAppend(a: seq<Member>, b: seq<Member>, faixa: string)
    ensures CountFaixa(a + b, faixa) == CountFaixa(a, faixa) + CountFaixa(b, faixa)
  {
    if a == [] {
      assert a + b == b;
    } else {
      assert (a + b)[1..] == a[1..] + b;
      CountFaixaAppend(a[1..], b, faixa);
    }
  }

  /** The count does not depend on the order the members are read in. */
  lemma {:induction false} CountFaixaPermutation(a: seq<Member>, b: seq<Member>, faixa: string)
    requires multiset(a) == multiset(b)
    ensures CountFaixa(a, faixa) == CountFaixa(b, faixa)
  {
    if a == [] {
      assert |b| == |multiset(b)| == 0;
    } else {
      var k := Ordering.MatchHead(a, b);
      CountFaixaPermutation(a[1..], b[..k] + b[k + 1..], faixa);
      CountFaixaAppend(b[..k], b[k + 1..], faixa);
      CountFaixaAppend(b[..k], [b[k]] + b[k + 1..], faixa);
      assert ([b[k]] + b[k + 1..])[1..] == b[k + 1..];
      assert b[..k] + ([b[k]] + b[k + 1..]) == b;
    }
  }

  /** membros['faixa_etaria'].value_counts(): one entry per bracket that occurs,
      holding how many members have it. */
  function ValueCounts(t: seq<Member>): (cont: map<string, nat>)
    ensures forall faixa :: faixa in cont <==> exists i | 0 <= i < |t| :: t[i].fields.faixaEtaria == faixa
    ensures forall faixa | faixa in cont :: cont[faixa] == CountFaixa(t, faixa) && cont[faixa] > 0
  {
    var faixas := set i | 0 <= i < |t| :: t[i].fields.faixaEtaria;
    assert forall faixa | faixa in faixas :: CountFaixa(t, faixa) > 0 by {
      forall faixa | faixa in faixas ensures CountFaixa(t, faixa) > 0 {
        CountFaixaPositive(t, faixa);
      }
    }
    map faixa | faixa in faixas :: CountFaixa(t, faixa)
  }

  /** The chart's data: the value counts of the rows carregar_membros returns,
      which are those of the table itself, whatever order the read has. */
  lemma ContagemIgnoresReadOrder(db: Database)
    ensures ValueCounts(db.CarregarMembros()) == ValueCounts(db.membros)
  {
    var a, b := db.CarregarMembros(), db.membros;
    forall faixa ensures CountFaixa(a, faixa) == CountFaixa(b, faixa) {
      CountFaixaPermutation(a, b, faixa);
    }
    forall faixa ensures (faixa in ValueCounts(a)) == (faixa in ValueCounts(b)) {
      CountFaixaPositive(a, faixa);
      CountFaixaPositive(b, faixa);
    }
  }

  /** With every stored bracket computed from the stored age, the four
      brackets are the only slices of the chart and together count every
      member once. */
  lemma {:induction false} BracketCountsCoverMembers(t: seq<Member>)
    requires BracketsConsistent(t)
    ensures CountFaixa(t, Criancas) + CountFaixa(t, Jovens) + CountFaixa(t, PaisMaes) + CountFaixa(t, Idosos) == |t|
  {
    if t != [] {
      assert BracketsConsistent(t[1..]) by {
        forall i | 0 <= i < |t[1..]| ensures t[1..][i].fields.faixaEtaria == DefinirFaixaEtaria(t[1..][i].fields.idade) {
          assert t[1..][i] == t[i + 1];
        }
      }
      BracketCountsCoverMembers(t[1..]);
      assert Criancas[0] == 'C' && Jovens[0] == 'J' && PaisMaes[0] == 'P' && Idosos[0] == 'I';
    }
  }

  lemma BracketSlicesAreLabels(t: seq<Member>)
    requires BracketsConsistent(t)
    ensures forall faixa | faixa in ValueCounts(t) :: faixa in Labels
  {
  }

  /** Registering a member adds one to the slice of the new member's bracket
      and leaves the others as they were. */
  lemma CountAfterInsert(t: seq<Member>, m: Member, faixa: string)
    ensures CountFaixa(t + [m], faixa) == CountFaixa(t, faixa) + (if m.fields.faixaEtaria == faixa then 1 else 0)
  {
    CountFaixaAppend(t, [m], faixa);
  }
}
