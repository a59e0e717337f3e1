/** JavaScript values as the session store sees them: the cells of a row that
    the SQL client returns, their truthiness and their `String(...)` rendering. */
module JsValues {

  datatype Option<+T> = None | Some(value: T)

  /** One column value of a returned row: SQL NULL, text or an integer. */
  datatype Cell = Null | Text(s: string) | Integer(n: int)

  /** A row as the client returns it: column name to value. A column the row
      does not carry reads as `undefined`. */
  type Row = map<string, Cell>

  /** A property of a record handed back to the auth plugin: a copied cell, or
      the `Date` object built by `new Date(source)`. */
  datatype Field = Stored(cell: Cell) | DateFrom(source: string)

  type Record = map<string, Field>

  /** `row?.[column]`: `None` stands for `undefined` (no row, or no such column). */
  function Get(row: Option<Row>, column: string): (c: Option<Cell>)
    ensures c.Some? <==> row.Some? && column in row.value
    ensures c.Some? ==> c.value == row.value[column]
  {
    if row.Some? && column in row.value then Some(row.value[column]) else None
  }

  /** JavaScript truthiness of a property that may be `undefined`. */
  predicate Truthy(c: Option<Cell>) {
    match c
    case None => false
    case Some(Null) => false
    case Some(Text(s)) => s != ""
    case Some(Integer(n)) => n != 0
  }

  /** `x ?? fallback` reaches the fallback exactly for `undefined` and `null`. */
  predicate Nullish(c: Option<Cell>) {
    c.None? || c.value.Null?
  }

  function DigitChar(d: nat): (ch: char)
    requires d < 10
    ensures '0' <= ch <= '9'
  {
    "0123456789"[d]
  }

  /** Decimal digits of a natural number, most significant first, no leading zero. */
  function NatDigits(n: nat): (s: string)
    ensures |s| > 0
    ensures forall i :: 0 <= i < |s| ==> '0' <= s[i] <= '9'
    ensures (s[0] == '0') <==> n == 0
    decreases n
  {
    if n < 10 then [DigitChar(n)] else NatDigits(n / 10) + [DigitChar(n % 10)]
  }

  /** `String(n)` for an integer `n`. */
  function Decimal(n: int): (s: string)
    ensures |s| > 0
    ensures (s[0] == '-') <==> n < 0
    ensures s != "0" <==> n != 0
  {
    if n < 0 then "-" + NatDigits(-n) else NatDigits(n)
  }

  /** `String(x)` for a property that may be `undefined`. */
  function ToStr(c: Option<Cell>): (s: string)
    ensures c.Some? && c.value.Text? ==> s == c.value.s
    ensures Truthy(c) ==> s != ""
  {
    match c
    case None => "undefined"
    case Some(Null) => "null"
    case Some(Text(t)) => t
    case Some(Integer(n)) => Decimal(n)
  }

  /** `{ ...row }`: every column of the row copied into a record; spreading
      `undefined` gives the empty record. */
  function Spread(row: Option<Row>): (r: Record)
    ensures row.None? ==> r == map[]
    ensures row.Some? ==> r.Keys == row.value.Keys
    ensures forall k :: k in r ==> row.Some? && k in row.value && r[k] == Stored(row.value[k])
  {
    if row.None? then map[] else map k | k in row.value :: Stored(row.value[k])
  }
}
