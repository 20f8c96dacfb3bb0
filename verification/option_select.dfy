/** The borrowed-pointer pattern test: `select` picks one of two borrowed
    options, preferring the first unless only the second holds a value.
    The result is one of the two borrowed arguments; `Which` records which. */
module OptionSelect {
  import opened Common

  datatype Which = First | Second

  /** `select(x, y)`: `(None, None)` and `(Some, _)` answer `x`,
      `(None, Some)` answers `y`. */
  function Select(x: Option<int>, y: Option<int>): (r: (Which, Option<int>))
    ensures r.0 == First ==> r.1 == x
    ensures r.0 == Second ==> r.1 == y
    ensures r.0 == Second <==> x.None? && y.Some?
  {
    match (x, y)
    case (None, None) => (First, x)
    case (Some(_), _) => (First, x)
    case (None, Some(_)) => (Second, y)
  }

  /** The selected option holds a value exactly when either argument does,
      and a value in `x` always wins. */
  lemma SelectPrefersFirstValue(x: Option<int>, y: Option<int>)
    ensures Select(x, y).1.Some? <==> x.Some? || y.Some?
    ensures x.Some? ==> Select(x, y).1 == x
    ensures x.None? ==> Select(x, y).1 == y
  {
  }

  /** `Option::get`: the held value; `None` fails. */
  function Get(o: Option<int>): (r: Outcome<int>)
    ensures r.Done? <==> o.Some?
    ensures o.Some? ==> r.value == o.value
  {
    match o
    case Some(v) => Done(v)
    case None => Panic("option::get none")
  }

  /** The test program's `main`: selecting from `None` and `Some(3)` yields
      the second option, whose `get` is 3 rather than a failure. */
  lemma MainAssertionHolds()
    ensures Select(None, Some(3)).0 == Second
    ensures Get(Select(None, Some(3)).1) == Done(3)
  {
  }
}
