/**
  The classification table `CLASSIFICACOES`, the first-match lookup
  `CLASSIFICACOES.find(item => imc < item.max)`, and the labels of the
  reference table shown under the result.
 */
module Bands {
  import opened Wrappers
  import opened Decimal
  import opened Sanitizer

  /** An exclusive upper bound: a finite number or JavaScript's `Infinity`. */
  datatype Bound = Finite(value: real) | Infinity

  /** `x < max` for a finite `x`: always true against `Infinity`. */
  predicate Below(x: real, max: Bound) {
    max.Infinity? || x < max.value
  }

  /** One row of the table: lower and upper bound, label, risk sentence, text and background colour. */
  datatype Band = Band(min: real, max: Bound, classificacao: string, risco: string, cor: string, bg: string)

  const Classificacoes: seq<Band> := [
    Band(0.0, Finite(18.5), "Magreza", "Risco de problemas de saúde", "yellow-600", "yellow-100"),
    Band(18.5, Finite(24.9), "Normal", "Risco baixo", "green-600", "green-100"),
    Band(25.0, Finite(29.9), "Sobrepeso", "Risco moderado de doenças", "orange-600", "orange-100"),
    Band(30.0, Finite(39.9), "Obesidade", "Risco alto de doenças crônicas", "red-600", "red-100"),
    Band(40.0, Infinity, "Obesidade Grave", "Risco muito alto de doenças crônicas", "purple-600", "purple-100")
  ]

  /**
    `Array.prototype.find` with the predicate `imc < item.max`: the index of
    the first row whose upper bound exceeds `x`, or `None` when no row does.
    The rows' lower bounds are never looked at.
   */
  function Find(t: seq<Band>, x: real): (r: Option<nat>)
    ensures r.Some? ==> r.value < |t| && Below(x, t[r.value].max)
    ensures r.Some? ==> forall j :: 0 <= j < r.value ==> !Below(x, t[j].max)
    ensures r.None? ==> forall j :: 0 <= j < |t| ==> !Below(x, t[j].max)
  {
    if t == [] then None
    else if Below(x, t[0].max) then Some(0)
    else match Find(t[1..], x)
      case None => None
      case Some(i) => Some(i + 1)
  }

  /**
    A table fit for the lookup: not empty, every row but the last has a finite
    upper bound, those bounds strictly increase, and the last row's is `Infinity`.
   */
  predicate Ordered(t: seq<Band>) {
    && |t| > 0
    && t[|t| - 1].max.Infinity?
    && (forall i :: 0 <= i < |t| - 1 ==> t[i].max.Finite?)
    && (forall i, j :: 0 <= i < j < |t| - 1 ==> t[i].max.value < t[j].max.value)
  }

  lemma ClassificacoesOrdered()
    ensures Ordered(Classificacoes)
  {
  }

  /** Because the last upper bound is `Infinity`, the lookup never comes back empty. */
  lemma FindTotal(t: seq<Band>, x: real)
    requires |t| > 0 && t[|t| - 1].max.Infinity?
    ensures Find(t, x).Some?
  {
  }

  /**
    On an ordered table the first match is the one row whose bounds enclose
    `x`: row `i` is found exactly when the previous row's upper bound is at
    most `x` and `x` is below row `i`'s own upper bound.
   */
  lemma FindIsEnclosingRow(t: seq<Band>, x: real, i: nat)
    requires Ordered(t) && i < |t|
    ensures Find(t, x) == Some(i) <==> (i == 0 || t[i - 1].max.value <= x) && Below(x, t[i].max)
  {
    FindTotal(t, x);
  }

  /** The row the calculator shows for a BMI value `x`: the lookup's result, which always exists. */
  function Classify(x: real): (i: nat)
    ensures i < |Classificacoes|
    ensures i == 0 || Classificacoes[i - 1].max.value <= x
    ensures Below(x, Classificacoes[i].max)
  {
    ClassificacoesOrdered();
    FindTotal(Classificacoes, x);
    var i := Find(Classificacoes, x).value;
    FindIsEnclosingRow(Classificacoes, x, i);
    i
  }

  /** Row `i` is the calculator's row for `x` exactly when its bounds enclose `x`. */
  lemma ClassifyIff(x: real, i: nat)
    requires i < |Classificacoes|
    ensures Classify(x) == i <==> (i == 0 || Classificacoes[i - 1].max.value <= x) && Below(x, Classificacoes[i].max)
  {
    ClassificacoesOrdered();
    FindIsEnclosingRow(Classificacoes, x, i);
  }

  /** A value exactly on a row's upper bound goes to the next row. */
  lemma BoundGoesToNextRow(i: nat)
    requires 0 < i < |Classificacoes|
    ensures Classify(Classificacoes[i - 1].max.value) == i
  {
    ClassifyIff(Classificacoes[i - 1].max.value, i);
  }

  /**
    The bounds 18.5, 25.0 and 40.0 themselves go to the higher row, and since
    the lower bounds are not consulted, 24.9 is "Sobrepeso" and 39.9 is
    "Obesidade Grave".
   */
  lemma BoundaryValues()
    ensures Classificacoes[Classify(18.5)].classificacao == "Normal"
    ensures Classificacoes[Classify(24.9)].classificacao == "Sobrepeso"
    ensures Classificacoes[Classify(25.0)].classificacao == "Sobrepeso"
    ensures Classificacoes[Classify(39.9)].classificacao == "Obesidade Grave"
    ensures Classificacoes[Classify(40.0)].classificacao == "Obesidade Grave"
  {
    ClassifyIff(18.5, 1);
    ClassifyIff(24.9, 2);
    ClassifyIff(25.0, 2);
    ClassifyIff(39.9, 4);
    ClassifyIff(40.0, 4);
  }

  /**
    Every value in a gap between a row's upper bound and the next row's lower
    bound (24.9 to 25.0, 29.9 to 30.0, 39.9 to 40.0; 24.95 for one) is
    classified into the next row, below that row's own lower bound.
   */
  lemma GapsBelongToNextRow(x: real)
    ensures 24.9 <= x < 25.0 ==> Classify(x) == 2 && x < Classificacoes[2].min
    ensures 29.9 <= x < 30.0 ==> Classify(x) == 3 && x < Classificacoes[3].min
    ensures 39.9 <= x < 40.0 ==> Classify(x) == 4 && x < Classificacoes[4].min
  {
    ClassifyIff(x, 2);
    ClassifyIff(x, 3);
    ClassifyIff(x, 4);
  }

  /** `toFixed(1)` of an upper bound; `Infinity.toFixed(1)` is "Infinity". */
  function BoundToFixed1(b: Bound): string
    requires b.Finite? ==> OneDecimal(b.value)
  {
    match b
    case Finite(v) => ToFixed1(v)
    case Infinity => "Infinity"
  }

  /** The bounds of a row can be printed with one decimal. */
  predicate Printable(b: Band) {
    OneDecimal(b.min) && (b.max.Finite? ==> OneDecimal(b.max.value))
  }

  /**
    The first cell of a reference-table row: "Abaixo de 18.5" for a row
    starting below 18.5, "Acima de 40.0" for a row starting at 40 or more, and
    otherwise the lower bound with one decimal, " - ", and the upper bound.
    Since both numerals are at least three characters long, the middle label
    is never shorter than nine.
   */
  function RowLabel(b: Band): (s: string)
    requires Printable(b)
    ensures b.min < 18.5 ==> s == "Abaixo de 18.5"
    ensures b.min >= 40.0 ==> s == "Acima de 40.0"
    ensures 18.5 <= b.min < 40.0 ==>
      var lo := ToFixed1(b.min);
      && |lo| + 3 <= |s|
      && s[..|lo|] == lo
      && s[|lo|..|lo| + 3] == " - "
      && s[|lo| + 3..] == BoundToFixed1(b.max)
  {
    if b.min < 18.5 then "Abaixo de 18.5"
    else if b.min >= 40.0 then "Acima de 40.0"
    else
      var lo, hi := ToFixed1(b.min), BoundToFixed1(b.max);
      var s := lo + " - " + hi;
      assert s[..|lo|] == lo && s[|lo|..|lo| + 3] == " - " && s[|lo| + 3..] == hi;
      s
  }

  /**
    A middle row's label reads back as the row's bounds: the text before
    " - " passes the keystroke filter and `parseFloat` gives the lower bound,
    and the text after it gives the upper bound.
   */
  lemma RowLabelReadsBack(b: Band)
    requires Printable(b) && 18.5 <= b.min < 40.0 && b.max.Finite?
    ensures var s, n := RowLabel(b), |ToFixed1(b.min)|;
      && n + 3 <= |s| && s[n..n + 3] == " - "
      && Matches(s[..n]) && ParseFloat(s[..n]) == Some(b.min)
      && Matches(s[n + 3..]) && ParseFloat(s[n + 3..]) == Some(b.max.value)
  {
    ToFixed1RoundTrip(b.min);
    ToFixed1RoundTrip(b.max.value);
  }

  lemma NormalRowLabel()
    ensures RowLabel(Classificacoes[1]) == "18.5 - 24.9"
  {
    ToFixed1TwoDigits(18.5, 1, 8, 5);
    ToFixed1TwoDigits(24.9, 2, 4, 9);
  }

  lemma SobrepesoRowLabel()
    ensures RowLabel(Classificacoes[2]) == "25.0 - 29.9"
  {
    ToFixed1TwoDigits(25.0, 2, 5, 0);
    ToFixed1TwoDigits(29.9, 2, 9, 9);
  }

  lemma ObesidadeRowLabel()
    ensures RowLabel(Classificacoes[3]) == "30.0 - 39.9"
  {
    ToFixed1TwoDigits(30.0, 3, 0, 0);
    ToFixed1TwoDigits(39.9, 3, 9, 9);
  }

  /** The reference table as the page shows it, row by row. */
  lemma ReferenceLabels()
    ensures forall i :: 0 <= i < |Classificacoes| ==> Printable(Classificacoes[i])
    ensures RowLabel(Classificacoes[0]) == "Abaixo de 18.5"
    ensures RowLabel(Classificacoes[1]) == "18.5 - 24.9"
    ensures RowLabel(Classificacoes[2]) == "25.0 - 29.9"
    ensures RowLabel(Classificacoes[3]) == "30.0 - 39.9"
    ensures RowLabel(Classificacoes[4]) == "Acima de 40.0"
  {
    NormalRowLabel();
    SobrepesoRowLabel();
    ObesidadeRowLabel();
  }
}
