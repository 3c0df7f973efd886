/** The scalar values a sheet row carries, as the JSON decoder hands them over. */
module Cells {
  import opened Text

  datatype Scalar =
    | Null                      // JSON null, Python None
    | Str(text: string)         // a JSON string
    | Other(rendering: string)  // a number or boolean, carried as the text `str()` gives for it

  /** Python's `str(value)`. */
  function Render(v: Scalar): string {
    match v
    case Null => "None"
    case Str(s) => s
    case Other(s) => s
  }

  /** `value is None or str(value).strip() == ""` */
  predicate IsBlank(v: Scalar) {
    v.Null? || Strip(Render(v)) == []
  }
}
