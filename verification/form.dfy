/**
  The component's state: the two text fields `altura` (cm) and `peso` (kg),
  both starting empty, changed only through the keystroke handler, and the
  result recomputed from them after every change.
 */
module Form {
  import opened Sanitizer
  import opened Decimal
  import opened Calculator

  /** The field a keystroke arrived at; it stands for the setter passed to the handler. */
  datatype Field = Altura | Peso

  class IMCCalculator {
    var altura: string
    var peso: string

    /** Every value either field ever holds passes the keystroke filter. */
    ghost predicate Valid()
      reads this
    {
      Matches(altura) && Matches(peso)
    }

    /** `useState('')` for both fields. */
    constructor ()
      ensures Valid()
      ensures altura == "" && peso == ""
    {
      altura := "";
      peso := "";
    }

    /**
      `handleInputChange`: the new text replaces the chosen field when it
      passes the filter, and is dropped otherwise; the other field never
      changes.
     */
    method HandleInputChange(value: string, field: Field)
      requires Valid()
      modifies this
      ensures Valid()
      ensures field == Altura ==> altura == (if Matches(value) then value else old(altura))
      ensures field == Peso ==> peso == (if Matches(value) then value else old(peso))
      ensures field == Altura ==> peso == old(peso)
      ensures field == Peso ==> altura == old(altura)
    {
      if Accepted(value) {
        match field
        case Altura => altura := value;
        case Peso => peso := value;
      }
    }

    /**
      The result shown for the current fields, recomputed from scratch: it
      carries a BMI exactly when both fields hold a digit other than '0'.
     */
    function Shown(): (r: Resultado)
      reads this
      requires Valid()
      ensures r.imc.Some? <==> HasNonZeroDigit(peso) && HasNonZeroDigit(altura)
    {
      ResultIffNonZeroDigits(peso, altura);
      CalcularResultado(peso, altura)
    }
  }
}
