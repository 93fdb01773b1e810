/** The age-bracket classifier (definir_faixa_etaria): a member's age decides
    which of four fixed labels is stored in the faixa_etaria column. */
module Bracket {

  const Criancas: string := "Crianças"
  const Jovens: string := "Jovens"
  const PaisMaes: string := "Pais/Mães"
  const Idosos: string := "Idosos"

  /** The four labels the classifier can produce. */
  const Labels: set<string> := {Criancas, Jovens, PaisMaes, Idosos}

  /** The thresholds 13, 18 and 60 are tested in that order, each bracket
      including its lower bound; the function is total on all integers
      (negative ages are not rejected here). */
  function DefinirFaixaEtaria(idade: int): (r: string)
    ensures r in Labels
    ensures r == Criancas <==> idade < 13
    ensures r == Jovens <==> 13 <= idade < 18
    ensures r == PaisMaes <==> 18 <= idade < 60
    ensures r == Idosos <==> 60 <= idade
  {
    if idade < 13 then Criancas
    else if idade < 18 then Jovens
    else if idade < 60 then PaisMaes
    else Idosos
  }

  /** Position of a label in age order. */
  function Rank(faixa: string): (k: nat)
    requires faixa in Labels
    ensures k < 4
  {
    if faixa == Criancas then 0
    else if faixa == Jovens then 1
    else if faixa == PaisMaes then 2
    else 3
  }

  /** An older member never falls in a younger bracket. */
  lemma BracketMonotone(a: int, b: int)
    requires a <= b
    ensures Rank(DefinirFaixaEtaria(a)) <= Rank(DefinirFaixaEtaria(b))
  {
  }

  /** The brackets change exactly at 13, 18 and 60. */
  lemma BracketBoundaries()
    ensures DefinirFaixaEtaria(12) == Criancas && DefinirFaixaEtaria(13) == Jovens
    ensures DefinirFaixaEtaria(17) == Jovens && DefinirFaixaEtaria(18) == PaisMaes
    ensures DefinirFaixaEtaria(59) == PaisMaes && DefinirFaixaEtaria(60) == Idosos
  {
  }
}
