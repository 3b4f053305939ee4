/** Values shared by every part of the cleaning script: table cells, optional
    values (pandas' NaN as a statistic) and the errors the script can raise. */
module Common {

  datatype Option<T> = None | Some(value: T)

  /** One cell of the product table: missing (NaN), a number, or a text. */
  datatype Cell = Null | Num(x: real) | Text(s: string)

  /** What makes a cleaning or aggregation step abort: a column looked up by
      name that the table does not have (pandas' KeyError), or a quantile asked
      of a column that holds text (pandas' TypeError). */
  datatype Error = MissingColumn(name: string) | NotNumeric(name: string)

  datatype Result<T> = Ok(value: T) | Err(error: Error)

  datatype Outcome = Pass | Fail(error: Error)

  /** The cell pandas writes for a statistic: NaN when it is undefined. */
  function AsCell(v: Option<real>): (c: Cell)
    ensures c.Null? <==> v.None?
    ensures v.Some? ==> c == Num(v.value)
  {
    match v
    case None => Null
    case Some(x) => Num(x)
  }

  /** A column pandas can take quantiles of: numbers and missing cells only. */
  predicate IsNumeric(column: seq<Cell>)
  {
    forall i :: 0 <= i < |column| ==> !column[i].Text?
  }

  /** Number of missing cells (`isnull().sum()`). */
  function NullCount(column: seq<Cell>): (n: nat)
    ensures n <= |column|
    ensures n == 0 <==> forall i :: 0 <= i < |column| ==> !column[i].Null?
  {
    if column == [] then 0
    else NullCount(column[..|column| - 1]) + (if column[|column| - 1].Null? then 1 else 0)
  }
}
