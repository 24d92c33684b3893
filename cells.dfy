/**
 * Spreadsheet cell values and the JavaScript objects built from them.
 *
 * A cell is what the spreadsheet reader hands back for one position of a
 * row: a string, a number, or nothing (a hole / undefined).  Numbers are
 * modelled as integers.
 */
module Cells {
  import opened Wrappers

  datatype Cell = Str(s: string) | Num(n: int) | Empty

  /** JavaScript truthiness of a cell: "", 0 and undefined are falsy. */
  predicate Truthy(c: Cell)
  {
    match c
    case Str(s) => s != ""
    case Num(n) => n != 0
    case Empty => false
  }

  /** The JavaScript expression `a || b`. */
  function Or(a: Cell, b: Cell): (r: Cell)
    ensures Truthy(r) <==> Truthy(a) || Truthy(b)
    ensures r == a || r == b
  {
    if Truthy(a) then a else b
  }

  predicate IsDigit(c: char)
  {
    '0' <= c <= '9'
  }

  function DigitChar(d: nat): (c: char)
    requires d < 10
    ensures IsDigit(c)
  {
    ('0' as int + d) as char
  }

  /** Decimal spelling of a natural number, as `String(n)` gives it below 10^21. */
  function NatToString(n: nat): (r: string)
    ensures |r| >= 1
    ensures forall i :: 0 <= i < |r| ==> IsDigit(r[i])
    decreases n
  {
    if n < 10 then [DigitChar(n)] else NatToString(n / 10) + [DigitChar(n % 10)]
  }

  /** Decimal spelling of an integer, with a leading '-' when negative. */
  function IntToString(n: int): (r: string)
    ensures |r| >= 1
    ensures forall i :: 0 <= i < |r| ==> IsDigit(r[i]) || (i == 0 && r[i] == '-')
  {
    if n < 0 then "-" + NatToString(-n) else NatToString(n)
  }

  /**
   * The property key a header cell yields in `obj[key] = ...`: strings are
   * used as they are, numbers are spelled in decimal, and a hole yields no
   * key at all because `forEach` skips holes.
   */
  function KeyOf(c: Cell): Option<string>
  {
    match c
    case Str(s) => Some(s)
    case Num(n) => Some(IntToString(n))
    case Empty => None
  }

  /** One own property of a JavaScript object, in `Object.keys` order. */
  datatype Field = Field(key: string, value: Cell)

  /** A plain JavaScript object: its own properties in key order. */
  type Record = seq<Field>

  function Keys(r: Record): seq<string>
  {
    seq(|r|, i requires 0 <= i < |r| => r[i].key)
  }

  /** `obj[k]`: the value of the property named k, or None for undefined. */
  function Lookup(r: Record, k: string): (v: Option<Cell>)
    ensures v.None? <==> forall i :: 0 <= i < |r| ==> r[i].key != k
    ensures v.Some? ==> exists i :: 0 <= i < |r| && r[i] == Field(k, v.value) &&
                                    forall j :: 0 <= j < i ==> r[j].key != k
  {
    if |r| == 0 then None
    else if r[0].key == k then Some(r[0].value)
    else
      var v := Lookup(r[1..], k);
      assert forall i :: 1 <= i < |r| ==> r[i] == r[1..][i - 1];
      v
  }
}
