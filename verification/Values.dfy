/** Column values as drivers hand them over, the JSON an object holds, and the conversion between them. */
module Values {
  import opened Decimals
  import opened Results

  /** The Go type an integer arrives as. */
  datatype Width = Int64 | Int32 | Int | Uint64 | Uint32 | Uint

  /** A value in a row. */
  datatype Cell = Null | Whole(width: Width, n: int) | Text(s: string) | Bytes(s: string) | Bool(b: bool)

  type Row = map<string, Cell>

  /** What a mapped field can hold. */
  datatype Scalar = Str(s: string) | Num(n: int) | Flag(b: bool)

  datatype Json = Nil | Scalar(value: Scalar) | List(items: seq<Json>) | Object(fields: map<string, Json>)

  datatype FieldType = StringField | IntegerField | BooleanField

  const MAX_INT64 := 0x7fff_ffff_ffff_ffff
  const MIN_INT64 := -0x8000_0000_0000_0000

  predicate IsSpace(c: char) {
    c in " \t\n\r" || c == '\U{0b}' || c == '\U{0c}'
  }

  function Trim(s: string): string {
    TrimRight(TrimLeft(s))
  }

  function TrimLeft(s: string): string {
    if s != "" && IsSpace(s[0]) then TrimLeft(s[1..]) else s
  }

  function TrimRight(s: string): string {
    if s != "" && IsSpace(s[|s| - 1]) then TrimRight(s[..|s| - 1]) else s
  }

  predicate IsDigits(s: string) {
    s != "" && forall k :: 0 <= k < |s| ==> '0' <= s[k] <= '9'
  }

  /** A sign, or none, and digits, within the range of a 64-bit integer. */
  function ParseInt(s: string): Option<int> {
    var digits := if s != "" && (s[0] == '+' || s[0] == '-') then s[1..] else s;
    if !IsDigits(digits) then None
    else
      var size: int := Number(digits);
      var n := if s[0] == '-' then -size else size;
      if MIN_INT64 <= n <= MAX_INT64 then Some(n) else None
  }

  function ParseBool(s: string): Option<bool> {
    if s in ["1", "t", "T", "TRUE", "true", "True"] then Some(true)
    else if s in ["0", "f", "F", "FALSE", "false", "False"] then Some(false)
    else None
  }

  /** `coerce`, for the three scalar types. */
  function Coerce(raw: Cell, t: FieldType): Option<Scalar> {
    var plain := if raw.Bytes? then Text(raw.s) else raw;
    match t
    case StringField =>
      (match plain
       case Text(s) => Some(Str(s))
       case Whole(_, n) => Some(Str(Signed(n)))
       case Bool(b) => Some(Str(if b then "true" else "false"))
       case _ => None)
    case IntegerField =>
      (match plain
       case Whole(width, n) => if (width.Uint64? || width.Uint?) && n > MAX_INT64 then None else Some(Num(n))
       case Text(s) => (match ParseInt(Trim(s)) case Some(n) => Some(Num(n)) case None => None)
       case _ => None)
    case BooleanField =>
      (match plain
       case Bool(b) => Some(Flag(b))
       case Whole(width, n) => if width.Int64? then Some(Flag(n != 0)) else None
       case Text(s) => (match ParseBool(Trim(s)) case Some(b) => Some(Flag(b)) case None => None)
       case _ => None)
  }

  /** A scalar as a value a driver takes. */
  function CellOf(value: Scalar): Cell {
    match value
    case Str(s) => Text(s)
    case Num(n) => Whole(Int64, n)
    case Flag(b) => Bool(b)
  }

  /** Coercing what has been coerced changes nothing. */
  lemma CoerceIdempotent(raw: Cell, t: FieldType)
    requires Coerce(raw, t).Some?
    ensures Coerce(CellOf(Coerce(raw, t).value), t) == Coerce(raw, t)
  {
  }
}
