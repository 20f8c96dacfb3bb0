/** The `kitties::cat` test crate: a cat that counts its meows and gets one
    unit hungrier on every fifth meow, and that eats two units at a time
    while it is hungry.

    `meows` is a 64-bit `uint` and `how_hungry` a 64-bit `int`; arithmetic
    on both wraps around, as the unchecked `+=`/`-=` of the source do. The
    logging calls (`error2!`) are output only and are not modelled. */
module Kitties {

  const U64Modulus: int := 0x1_0000_0000_0000_0000
  const I64Min: int := -0x8000_0000_0000_0000
  const I64Max: int := 0x7fff_ffff_ffff_ffff

  type U64 = x: int | 0 <= x < U64Modulus
  type I64 = x: int | I64Min <= x <= I64Max

  function WrapU64(x: int): U64 { x % U64Modulus }

  function WrapI64(x: int): I64 { (x - I64Min) % U64Modulus + I64Min }

  datatype Cat = Cat(meows: U64, howHungry: I64, name: string)

  /** The constructor function `cat(in_x, in_y, in_name)`. */
  function NewCat(inX: U64, inY: I64, inName: string): (c: Cat)
    ensures c.meows == inX && c.howHungry == inY && c.name == inName
  {
    Cat(inX, inY, inName)
  }

  /** `meow`: one more meow; every fifth meow (by the counter's new value)
      makes the cat one unit hungrier. */
  function Meow(c: Cat): (r: Cat)
    ensures r.name == c.name
    ensures c.meows < U64Modulus - 1 ==> r.meows == c.meows + 1
    ensures r.meows % 5 == 0 && c.howHungry < I64Max ==> r.howHungry == c.howHungry + 1
    ensures r.meows % 5 != 0 ==> r.howHungry == c.howHungry
  {
    var meows := WrapU64(c.meows + 1);
    var hungry := if meows % 5 == 0 then WrapI64(c.howHungry + 1) else c.howHungry;
    c.(meows := meows, howHungry := hungry)
  }

  /** `speak` is a meow. */
  function Speak(c: Cat): (r: Cat)
    ensures r == Meow(c)
  {
    Meow(c)
  }

  /** `eat`: a hungry cat (hunger above zero) eats two units and answers
      `true`; otherwise nothing changes and the answer is `false`. */
  function Eat(c: Cat): (r: (Cat, bool))
    ensures r.1 <==> c.howHungry > 0
    ensures r.1 ==> r.0 == c.(howHungry := c.howHungry - 2)
    ensures !r.1 ==> r.0 == c
  {
    if c.howHungry > 0 then (c.(howHungry := WrapI64(c.howHungry - 2)), true)
    else (c, false)
  }

  /** `n` meows in a row. */
  function MeowTimes(c: Cat, n: nat): Cat
    decreases n
  {
    if n == 0 then c else MeowTimes(Meow(c), n - 1)
  }

  /** While neither counter overflows, `n` meows add `n` to the meow count
      and one unit of hunger per multiple of five passed. */
  lemma {:induction false} MeowTimesEffect(c: Cat, n: nat)
    requires c.meows + n < U64Modulus
    requires c.howHungry + n <= I64Max
    ensures MeowTimes(c, n).meows == c.meows + n
    ensures MeowTimes(c, n).howHungry == c.howHungry + (c.meows + n) / 5 - c.meows / 5
    ensures MeowTimes(c, n).name == c.name
    decreases n
  {
    if n > 0 {
      var c' := Meow(c);
      assert c'.meows == c.meows + 1;
      assert c'.howHungry == c.howHungry + (c.meows + 1) / 5 - c.meows / 5;
      MeowTimesEffect(c', n - 1);
    }
  }

  /** `n` meals in a row, each one's cat fed to the next. */
  function EatTimes(c: Cat, n: nat): Cat
    decreases n
  {
    if n == 0 then c else EatTimes(Eat(c).0, n - 1)
  }

  /** A cat with hunger `h > 0` accepts exactly `(h + 1) / 2` meals and is
      then left at hunger `-1` (odd `h`) or `0` (even `h`), where it refuses
      the next. */
  lemma {:induction false} EatUntilFull(c: Cat)
    requires c.howHungry > 0
    ensures var full := EatTimes(c, (c.howHungry + 1) / 2);
            full.howHungry == -(c.howHungry % 2) && !Eat(full).1 && full.meows == c.meows
    decreases c.howHungry
  {
    var next := Eat(c).0;
    if next.howHungry > 0 {
      EatUntilFull(next);
      assert (c.howHungry + 1) / 2 == (next.howHungry + 1) / 2 + 1;
    } else {
      assert (c.howHungry + 1) / 2 == 1;
      assert EatTimes(c, 1) == EatTimes(next, 0);
    }
  }

  /** The 64-bit counters wrap: a meow at count `2^64 - 1` restarts the
      count at zero, which is a multiple of five, and a hunger of `2^63 - 1`
      then wraps to the least 64-bit value. */
  lemma MeowWrapsAround()
    ensures Meow(Cat(U64Modulus - 1, 0, "")).meows == 0
    ensures Meow(Cat(U64Modulus - 1, I64Max, "")).howHungry == I64Min
  {
  }
}
