/** Cell values of the lead table and the error values of the pipeline. */
module Cells {

  /** One cell as the CSV reader delivers it. `Missing` is pandas' NaN:
      an empty cell, or one the reader recognises as not available. */
  datatype Cell = Missing | Text(s: string) | Boolean(b: bool) | Number(n: int)

  datatype Option<T> = None | Some(value: T)

  /** A column lookup on a frame that lacks the column raises KeyError. */
  datatype Error = MissingColumn(name: string)

  datatype Result<T> = Ok(value: T) | Err(error: Error)

  /** pandas `notna()` on one cell. */
  predicate NotNa(c: Cell) {
    !c.Missing?
  }

  /** Python's `cell == True` / `cell == False`: a bool compares equal to the
      same bool, and also to the integer 1 (True) or 0 (False); NaN and
      text compare unequal to both. */
  predicate EqualsBool(c: Cell, b: bool) {
    match c
    case Boolean(x) => x == b
    case Number(n) => n == (if b then 1 else 0)
    case _ => false
  }

  /** No cell equals both True and False, and a missing cell equals neither. */
  lemma EqualsBoolExclusive(c: Cell)
    ensures !(EqualsBool(c, true) && EqualsBool(c, false))
    ensures c.Missing? ==> !EqualsBool(c, true) && !EqualsBool(c, false)
  {
  }
}
