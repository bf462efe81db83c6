/**
 * Cell values as the engine sees them (the `interface{}` values of a row map),
 * the row map itself, and Go's `%v` text of a value.
 */
module Values {

  /** A driver-sourced cell. `VOther` stands for any other value encoding/json
      marshals (a finite float, a timestamp, a byte slice, a driver type with its
      own JSON encoding): it carries its `%v` text and its JSON text.
      `VUnmarshalable` stands for a value encoding/json rejects (a NaN or infinite
      float, a channel, a function): it carries its `%v` text only. */
  datatype Value =
    | VNull
    | VBool(b: bool)
    | VInt(i: int)
    | VStr(s: string)
    | VOther(text: string, json: string)
    | VUnmarshalable(text: string)

  /** One database row: column name to value (a record's `Data`). */
  type Row = map<string, Value>

  /** Go's map index: a missing column reads as the nil interface. */
  function Lookup(row: Row, column: string): Value
  {
    if column in row then row[column] else VNull
  }

  /** Outcome of comparing a source value with a target value; the comparison
      itself is foreign (reflection-based) and may fail. */
  datatype Comparison = Equal | Unequal | Incomparable(msg: string)

  predicate IsDigit(c: char)
  {
    '0' <= c <= '9'
  }

  /** Decimal text of a natural number, most significant digit first. */
  function Digits(n: nat): (r: string)
    ensures |r| >= 1
    ensures forall k :: 0 <= k < |r| ==> IsDigit(r[k])
    ensures n < 10 <==> |r| == 1
    decreases n
  {
    if n < 10 then [('0' as int + n) as char]
    else Digits(n / 10) + [('0' as int + n % 10) as char]
  }

  /** Reads a run of decimal digits back as a number. */
  function ParseDigits(s: string): int
    requires forall k :: 0 <= k < |s| ==> IsDigit(s[k])
    decreases |s|
  {
    if s == [] then 0
    else 10 * ParseDigits(s[..|s| - 1]) + (s[|s| - 1] as int - '0' as int)
  }

  /** The decimal text of a number reads back as that number. */
  lemma {:induction false} DigitsRoundTrip(n: nat)
    ensures ParseDigits(Digits(n)) == n
    decreases n
  {
    var d := Digits(n);
    if n >= 10 {
      DigitsRoundTrip(n / 10);
      assert d[..|d| - 1] == Digits(n / 10);
    }
  }

  /** Go's `%v` text of a value: `<nil>` for the nil interface, `true`/`false`,
      signed decimal integers, strings as they are. */
  function Show(v: Value): (r: string)
    ensures v.VNull? ==> r == "<nil>"
    ensures v.VBool? ==> r == if v.b then "true" else "false"
    ensures v.VStr? ==> r == v.s
    ensures v.VOther? || v.VUnmarshalable? ==> r == v.text
    ensures v.VInt? ==> |r| >= 1 && (r[0] == '-' <==> v.i < 0)
    ensures v.VInt? && v.i >= 0 ==> (forall k :: 0 <= k < |r| ==> IsDigit(r[k])) && ParseDigits(r) == v.i
    ensures v.VInt? && v.i < 0 ==> (forall k :: 1 <= k < |r| ==> IsDigit(r[k])) && ParseDigits(r[1..]) == -v.i
  {
    match v
    case VNull => "<nil>"
    case VBool(b) => if b then "true" else "false"
    case VInt(i) =>
      if i < 0 then
        DigitsRoundTrip(-i);
        assert ("-" + Digits(-i))[1..] == Digits(-i);
        "-" + Digits(-i)
      else
        DigitsRoundTrip(i);
        Digits(i)
    case VStr(s) => s
    case VOther(t, _) => t
    case VUnmarshalable(t) => t
  }
}
