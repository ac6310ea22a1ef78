/**
  `calcularResultado(peso, altura)`: read both fields, reject missing or
  non-positive values with a placeholder result, otherwise compute the BMI
  and copy the classification, risk and colours from the matching row.
 */
module Calculator {
  import opened Wrappers
  import opened Sanitizer
  import opened Decimal
  import opened Bands

  /**
    The result record. `imc` is `None` for the placeholder (`null` in the
    page); otherwise it is the unrounded BMI the classification was made on.
   */
  datatype Resultado = Resultado(imc: Option<real>, classificacao: string, risco: string, cor: string, bg: string)

  /** The result shown while either field is missing or not positive. */
  const Aguardando: Resultado :=
    Resultado(None, "Aguardando dados...", "Preencha os campos com valores válidos.", "gray-500", "gray-100")

  /** Conversion of the height from centimetres to metres; `NaN / 100` stays `NaN`. */
  function CentimetresToMetres(cm: Option<real>): (m: Option<real>)
    ensures m.None? <==> cm.None?
  {
    match cm
    case None => None
    case Some(v) => Some(v / 100.0)
  }

  /**
    The calculator's result for the weight field `p` (kg) and the height field
    `a` (cm). When either value is missing or not positive the result is the
    placeholder; otherwise the BMI is positive, times the squared height in
    metres it gives back the weight, and the label, risk sentence and colours
    all come from the one row whose bounds enclose it.
   */
  function CalcularResultado(p: string, a: string): (r: Resultado)
    requires Matches(p) && Matches(a)
    ensures r.imc.None? <==>
      ParseFloat(p).None? || ParseFloat(a).None? || ParseFloat(p).value <= 0.0 || ParseFloat(a).value <= 0.0
    ensures r.imc.None? ==> r == Aguardando
    ensures r.imc.Some? ==> r.imc.value == Bmi(ParseFloat(p).value, ParseFloat(a).value / 100.0)
    ensures r.imc.Some? ==>
      var row := Classificacoes[Classify(r.imc.value)];
      r == Resultado(r.imc, row.classificacao, row.risco, row.cor, row.bg)
  {
    var pesoKg := ParseFloat(p);
    var alturaMetros := CentimetresToMetres(ParseFloat(a));
    if pesoKg.None? || alturaMetros.None? || pesoKg.value <= 0.0 || alturaMetros.value <= 0.0 then
      Aguardando
    else
      var imc := Bmi(pesoKg.value, alturaMetros.value);
      var row := Classificacoes[Classify(imc)];
      Resultado(Some(imc), row.classificacao, row.risco, row.cor, row.bg)
  }

  /** `pesoKg / (alturaMetros * alturaMetros)`: positive, and times the squared height it is the weight. */
  function Bmi(pesoKg: real, alturaMetros: real): (imc: real)
    requires pesoKg > 0.0 && alturaMetros > 0.0
    ensures imc > 0.0
    ensures imc * (alturaMetros * alturaMetros) == pesoKg
  {
    var square := alturaMetros * alturaMetros;
    assert square > 0.0;
    pesoKg / square
  }

  /**
    In terms of the typed text: the calculator shows a BMI exactly when each
    field holds a digit other than '0'. "", ".", "0", "0.0" and "00." in either
    field all give the placeholder.
   */
  lemma ResultIffNonZeroDigits(p: string, a: string)
    requires Matches(p) && Matches(a)
    ensures CalcularResultado(p, a).imc.Some? <==> HasNonZeroDigit(p) && HasNonZeroDigit(a)
  {
    ParsePositiveIff(p);
    ParsePositiveIff(a);
  }

  /** The label shown is row `i`'s exactly when the BMI lies between row `i - 1`'s upper bound and row `i`'s. */
  lemma ResultBand(p: string, a: string, i: nat)
    requires Matches(p) && Matches(a) && i < |Classificacoes|
    requires CalcularResultado(p, a).imc.Some?
    ensures CalcularResultado(p, a).classificacao == Classificacoes[i].classificacao <==>
      var imc := CalcularResultado(p, a).imc.value;
      (i == 0 || Classificacoes[i - 1].max.value <= imc) && Below(imc, Classificacoes[i].max)
  {
    var imc := CalcularResultado(p, a).imc.value;
    ClassifyIff(imc, i);
  }

  /** A height of 175 cm and a weight of 70 kg give 70 / 1.75² ≈ 22.86, "Normal". */
  lemma Example175cm70kg()
    ensures CalcularResultado("70", "175") ==
      Resultado(Some(70.0 / 3.0625), "Normal", "Risco baixo", "green-600", "green-100")
  {
    ParseWholeNumbers();
    assert Bmi(70.0, 175.0 / 100.0) == 70.0 / 3.0625 by {
      assert 175.0 / 100.0 == 1.75 && 1.75 * 1.75 == 3.0625;
    }
    ClassifyIff(70.0 / 3.0625, 1);
  }

  /** A height of "0" is a number, but not a positive one: the placeholder is shown. */
  lemma ExampleZeroHeight()
    ensures CalcularResultado("70", "0") == Aguardando
  {
    ParseWholeNumbers();
  }

  /** Exactly 24.9 kg/m² (24.9 kg at 100 cm) falls in the gap after "Normal" and is shown as "Sobrepeso". */
  lemma ExampleGap()
    ensures CalcularResultado("24.9", "100").classificacao == "Sobrepeso"
  {
    ToFixed1TwoDigits(24.9, 2, 4, 9);
    ToFixed1RoundTrip(24.9);
    ParseWholeNumbers();
    assert Bmi(24.9, 100.0 / 100.0) == 24.9;
    ClassifyIff(24.9, 2);
  }
}
