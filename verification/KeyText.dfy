/**
 The text of a `(key)` field, as `flatbuffers_reflection::get_any_field_string` renders it.

 That function is library code, so two choices are left open: what it returns for an absent field (the
 repository's comments say both "" and the schema default) and how it prints a float. Every result
 holds for every choice.
 */
module KeyText {
  import opened Wrappers
  import opened Floats
  import opened Schema
  import opened Scalars
  import Text

  datatype KeyReader = KeyReader(defaultWhenAbsent: bool, floatText: F64 -> string)

  function ScalarText(sc: Scalar, rd: KeyReader): string {
    match sc
    case I(n) => Text.Dec(n)
    case F4(b) => rd.floatText(Widen(b))
    case F8(b) => rd.floatText(b)
  }

  function AbsentText(kf: Field, rd: KeyReader): string {
    if !rd.defaultWhenAbsent || !kf.typ.Scalar? then ""
    else if kf.typ.st.Float? || kf.typ.st.Double? then rd.floatText(kf.defaultReal)
    else Text.Dec(kf.defaultInt)
  }

  /** A key's text is that of the value that `to_json` shows, a bool's that of 1 or 0. */
  lemma {:induction false} TextOfShown(st: ScalarType, sc: Scalar, rd: KeyReader)
    requires Fits(st, sc) && ScalarJson(st, None, sc).Ok?
    ensures var (j, text) := (ScalarJson(st, None, sc).value, ScalarText(sc, rd));
            if j.Bool? then text == if j.b then "1" else "0"
            else j.Num? && text == match j.num
              case Int(n) => Text.Dec(n)
              case Float(f) => rd.floatText(f)
  {
    hide Text.Dec, Widen, WrapI64;
    Text.DecBits();
  }
}
