/** Small shared datatypes: optional values and the outcome of code that may throw. */
module Prelude {

  datatype Option<+T> = None | Some(value: T)

  /** The value a call returns, or the error it throws. */
  datatype Result<+T, +E> = Ok(value: T) | Err(error: E)

  function Map<A, B>(f: A -> B, xs: seq<A>): (ys: seq<B>)
    ensures |ys| == |xs|
    ensures forall i :: 0 <= i < |xs| ==> ys[i] == f(xs[i])
  {
    seq(|xs|, i requires 0 <= i < |xs| => f(xs[i]))
  }

  /** Where a character first occurs, or the length of the text. */
  function IndexOf(ch: char, s: string): (i: nat)
    ensures i <= |s|
    ensures i < |s| ==> s[i] == ch
    ensures forall k :: 0 <= k < i ==> s[k] != ch
  {
    if s == "" || s[0] == ch then 0 else 1 + IndexOf(ch, s[1..])
  }

  // ---------- Filter and sum over rows ----------

  function Filter<T>(keep: T -> bool, rows: seq<T>): seq<T> {
    if rows == [] then []
    else
      var last := rows[|rows| - 1];
      Filter(keep, rows[..|rows| - 1]) + if keep(last) then [last] else []
  }

  function SumOver<T>(amount: T -> int, rows: seq<T>): int {
    if rows == [] then 0 else SumOver(amount, rows[..|rows| - 1]) + amount(rows[|rows| - 1])
  }

  function SumWhere<T>(keep: T -> bool, amount: T -> int, rows: seq<T>): int {
    if rows == [] then 0
    else
      var last := rows[|rows| - 1];
      SumWhere(keep, amount, rows[..|rows| - 1]) + if keep(last) then amount(last) else 0
  }

  function CountWhere<T>(keep: T -> bool, rows: seq<T>): nat {
    if rows == [] then 0
    else CountWhere(keep, rows[..|rows| - 1]) + if keep(rows[|rows| - 1]) then 1 else 0
  }
}
