/** The vehicle records of the dataset, as the bot reads them out of the
    downloaded JSON: each field is what `vehicle.get(key)` would see. */
module Records {
  import opened Text

  datatype Option<+T> = None | Some(value: T)

  /** One value of a JSON object under a key. `Missing` is an absent key,
      `Null` a present JSON null; numbers are integers. */
  datatype Field = Missing | Null | Str(s: string) | Num(n: int) | Bool(b: bool)

  /** A vehicle object. Keys other than these six are never read. */
  datatype Record = Record(id: Field, hex: Field, name: Field, model: Field, gxt: Field, notes: Field)

  /** Python truthiness of `vehicle.get(key)`: an absent key and null give
      `None`; the empty string, zero and `false` are falsy too. */
  predicate Truthy(f: Field)
    ensures Truthy(f) ==> Present(f) && !f.Null?
    ensures f.Str? ==> (Truthy(f) <==> f.s != "")
  {
    match f
    case Missing => false
    case Null => false
    case Str(s) => s != ""
    case Num(n) => n != 0
    case Bool(b) => b
  }

  /** `str(vehicle.get(key))` inside an f-string, for the value found under
      the key; an absent key reads as `None` like a null. */
  function Display(f: Field): string {
    match f
    case Missing => "None"
    case Null => "None"
    case Str(s) => s
    case Num(n) => IntToString(n)
    case Bool(b) => if b then "True" else "False"
  }

  /** `str(vehicle.get(key, 'N/A'))`: the default replaces an absent key only. */
  function DisplayOrNA(f: Field): (r: string)
    ensures f.Missing? ==> r == "N/A"
    ensures f.Null? ==> r == "None"
    ensures f.Str? ==> r == f.s
    ensures f.Num? ==> r == IntToString(f.n)
  {
    if f.Missing? then "N/A" else Display(f)
  }

  /** A key that is present: the record is not an empty dict when one of
      its fields has this. */
  predicate Present(f: Field) {
    !f.Missing?
  }
}
