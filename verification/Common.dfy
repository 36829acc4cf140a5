// Result types and rounding that several components share.
module Common {

  datatype Option<+T> = None | Some(value: T)

  datatype Result<+T, +E> = Ok(value: T) | Err(error: E)

  /** Python's `round`: to the nearest integer, halves to the even one. */
  function RoundHalfEven(x: real): (n: int)
    ensures -0.5 <= x - n as real <= 0.5
    ensures x - n as real == 0.5 || x - n as real == -0.5 ==> n % 2 == 0
  {
    var below := x.Floor;
    var part := x - below as real;
    if part < 0.5 then below
    else if part > 0.5 then below + 1
    else if below % 2 == 0 then below else below + 1
  }

  /** `abs(a - b)` */
  function Distance(a: real, b: real): (d: real)
    ensures d >= a - b && d >= b - a
    ensures d == a - b || d == b - a
  {
    if a < b then b - a else a - b
  }

  /** `min(max(v, low), high)` */
  function Clamp(v: real, low: real, high: real): (r: real)
    ensures v >= high || low > high ==> r == high
    ensures v <= low <= high ==> r == low
    ensures low <= v <= high ==> r == v
  {
    var raised := if v < low then low else v;
    if raised > high then high else raised
  }
}
