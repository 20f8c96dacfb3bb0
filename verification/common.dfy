/** Shared result shapes.

    `Option` is the language's `Option`; `Outcome` models a computation that
    either produces a value or aborts the task (`fail!`, `sess.bug`,
    `sess.unimpl`, a failed `assert!`, `panic!`), carrying the abort message. */
module Common {

  datatype Option<+T> = None | Some(value: T)

  datatype Outcome<+T> = Done(value: T) | Panic(message: string)
  {
    predicate IsFailure() { Panic? }

    function PropagateFailure<U>(): Outcome<U>
      requires Panic?
    {
      Panic(message)
    }

    function Extract(): T
      requires Done?
    {
      value
    }
  }

  /** Decimal rendering of a natural number, as `to_string()` prints it. */
  function NatToString(n: nat): (s: string)
    ensures |s| >= 1
    decreases n
  {
    if n < 10 then [DigitChar(n)] else NatToString(n / 10) + [DigitChar(n % 10)]
  }

  function DigitChar(d: nat): char
    requires d < 10
  {
    ['0', '1', '2', '3', '4', '5', '6', '7', '8', '9'][d]
  }

  function Pow10(k: nat): (r: nat)
    ensures r >= 1
  {
    if k == 0 then 1 else 10 * Pow10(k - 1)
  }

  /** The number of decimal digits `NatToString` uses is the least `d >= 1`
      with `n < 10^d`. */
  lemma {:induction false} NatToStringLength(n: nat)
    ensures n < Pow10(|NatToString(n)|)
    ensures |NatToString(n)| == 1 || Pow10(|NatToString(n)| - 1) <= n
    decreases n
  {
    if n >= 10 {
      NatToStringLength(n / 10);
    }
  }

  function Max(a: nat, b: nat): nat
  {
    if a > b then a else b
  }

  function Repeat<T>(x: T, n: nat): (r: seq<T>)
    ensures |r| == n
    ensures forall i :: 0 <= i < n ==> r[i] == x
  {
    if n == 0 then [] else [x] + Repeat(x, n - 1)
  }

  lemma RepeatAdd<T>(x: T, m: nat, n: nat)
    ensures Repeat(x, m) + Repeat(x, n) == Repeat(x, m + n)
  {
    var a, b := Repeat(x, m) + Repeat(x, n), Repeat(x, m + n);
    assert forall i :: 0 <= i < |a| ==> a[i] == x == b[i];
  }

  /** The empty sequence is a unit of concatenation. */
  lemma ConcatEmpty<T>(s: seq<T>)
    ensures [] + s == s && s + [] == s
  {
  }

  lemma ConcatAssoc<T>(a: seq<T>, b: seq<T>, c: seq<T>)
    ensures a + b + c == a + (b + c)
  {
  }
}
