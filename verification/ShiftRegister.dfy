/** Shift registers over an arbitrary word type: what follows from the linearity and the injectivity of
    one shift. */
module ShiftRegister {

  function Iterate<T>(f: T -> T, x: T, n: nat): T
    decreases n
  {
    if n == 0 then x else Iterate(f, f(x), n - 1)
  }

  lemma {:induction false} IterateTwice<T>(f: T -> T, x: T, m: nat, n: nat)
    ensures Iterate(f, Iterate(f, x, m), n) == Iterate(f, x, m + n)
    decreases m
  {
    if m > 0 {
      IterateTwice(f, f(x), m - 1, n);
    }
  }

  /** A register of words `T` that takes symbols `S`: `shift` moves it by one place, `load` puts a
      symbol in the first `width` places and `up` moves a word away from them. */
  datatype Register<!S(!new), !T(!new)> =
    Register(shift: T -> T, xor: (T, T) -> T, zero: T, load: S -> T, up: T -> T, width: nat)
  {
    ghost predicate Injective() {
      forall x, y :: shift(x) == shift(y) ==> x == y
    }

    ghost predicate Linear() {
      forall x, y :: shift(xor(x, y)) == xor(shift(x), shift(y))
    }

    ghost predicate Associative() {
      forall x, y, z :: xor(xor(x, y), z) == xor(x, xor(y, z))
    }

    ghost predicate Neutral() {
      forall x :: xor(x, zero) == x
    }

    ghost predicate Cancels() {
      && (forall x, y, z :: xor(x, y) == xor(x, z) ==> y == z)
      && (forall x, y, z :: xor(x, z) == xor(y, z) ==> x == y)
    }

    ghost predicate Lawful() {
      Injective() && Linear() && Associative() && Neutral() && Cancels()
    }

    function Shift(x: T, n: nat): T {
      Iterate(shift, x, n)
    }

    /** The register after it has absorbed `message`, one symbol at a time. */
    function Feed(x: T, message: seq<S>): T {
      if message == [] then x else Feed(Shift(xor(x, load(message[0])), width), message[1..])
    }

    /** `message` laid out in one word, its first symbol in the places that are shifted out first. */
    function Pack(message: seq<S>): T {
      if message == [] then zero else xor(load(message[0]), up(Pack(message[1..])))
    }

    /** `message` has room in a word: moving any proper rest of it up loses nothing. */
    ghost predicate Fits(message: seq<S>) {
      message != [] ==>
        Shift(up(Pack(message[1..])), width) == Pack(message[1..]) && Fits(message[1..])
    }

    lemma {:induction false} ShiftLinear(x: T, y: T, n: nat)
      requires Linear()
      ensures Shift(xor(x, y), n) == xor(Shift(x, n), Shift(y, n))
      decreases n
    {
      if n > 0 {
        ShiftLinear(shift(x), shift(y), n - 1);
      }
    }

    lemma {:induction false} ShiftInjective(x: T, y: T, n: nat)
      requires Injective() && Shift(x, n) == Shift(y, n)
      ensures x == y
      decreases n
    {
      if n > 0 {
        ShiftInjective(shift(x), shift(y), n - 1);
      }
    }

    lemma {:induction false} FeedConcat(x: T, a: seq<S>, b: seq<S>)
      ensures Feed(x, a + b) == Feed(Feed(x, a), b)
      decreases |a|
    {
      if a == [] {
        assert a + b == b;
      } else {
        assert (a + b)[1..] == a[1..] + b;
        FeedConcat(Shift(xor(x, load(a[0])), width), a[1..], b);
      }
    }

    /** The same message never brings two different registers together. */
    lemma {:induction false} FeedInjective(x: T, y: T, message: seq<S>)
      requires Injective() && Cancels() && Feed(x, message) == Feed(y, message)
      ensures x == y
      decreases |message|
    {
      if message != [] {
        var b := load(message[0]);
        FeedInjective(Shift(xor(x, b), width), Shift(xor(y, b), width), message[1..]);
        ShiftInjective(xor(x, b), xor(y, b), width);
      }
    }

    function Places(symbols: nat): nat {
      if symbols == 0 then 0 else width + Places(symbols - 1)
    }

    lemma FirstPacked(x: T, b: T, rest: T, n: nat)
      requires Linear() && Associative() && Shift(up(rest), width) == rest
      ensures Shift(xor(Shift(xor(x, b), width), rest), n) == Shift(xor(x, xor(b, up(rest))), width + n)
    {
      ShiftLinear(xor(x, b), up(rest), width);
      IterateTwice(shift, xor(xor(x, b), up(rest)), width, n);
    }

    /** A message that fits in a word can be absorbed all at once, before the shifts. */
    lemma {:induction false} FeedPacked(x: T, message: seq<S>)
      requires Linear() && Associative() && Neutral() && Fits(message)
      ensures Feed(x, message) == Shift(xor(x, Pack(message)), Places(|message|))
      decreases |message|
    {
      if message != [] {
        var b, rest := load(message[0]), message[1..];
        FeedPacked(Shift(xor(x, b), width), rest);
        FirstPacked(x, b, Pack(rest), Places(|rest|));
      }
    }

    /** Messages that differ only inside a stretch that fits in a word leave different registers. */
    lemma Burst(x: T, prefix: seq<S>, a: seq<S>, b: seq<S>, suffix: seq<S>)
      requires Lawful() && Fits(a) && Fits(b) && |a| == |b| && Pack(a) != Pack(b)
      ensures Feed(x, prefix + a + suffix) != Feed(x, prefix + b + suffix)
    {
      var y := Feed(x, prefix);
      FeedConcat(x, prefix, a);
      FeedConcat(x, prefix + a, suffix);
      FeedConcat(x, prefix, b);
      FeedConcat(x, prefix + b, suffix);
      if Feed(x, prefix + a + suffix) == Feed(x, prefix + b + suffix) {
        FeedInjective(Feed(y, a), Feed(y, b), suffix);
        SameLength(y, a, b);
      }
    }

    lemma SameLength(x: T, a: seq<S>, b: seq<S>)
      requires Lawful() && Fits(a) && Fits(b) && |a| == |b| && Feed(x, a) == Feed(x, b)
      ensures Pack(a) == Pack(b)
    {
      FeedPacked(x, a);
      FeedPacked(x, b);
      ShiftInjective(xor(x, Pack(a)), xor(x, Pack(b)), Places(|a|));
    }

    /** A table of the shifted low parts does the work of `width` shifts, given that the high part of a
        word only moves (`top` is where it ends) and that a symbol does not reach it. */
    lemma TableStep(table: T -> T, low: T -> T, high: T -> T, top: T -> T, x: T, b: S)
      requires Linear()
      requires forall y :: y == xor(low(y), high(y)) && Shift(high(y), width) == top(y)
      requires forall y :: table(low(y)) == Shift(low(y), width)
      requires forall y, s :: top(xor(y, load(s))) == top(y)
      ensures xor(table(low(xor(x, load(b)))), top(x)) == Shift(xor(x, load(b)), width)
    {
      var y := xor(x, load(b));
      ShiftLinear(low(y), high(y), width);
    }

    /** The register as a checksum, masked before and after. */
    function Checksum(mask: T, initial: T, message: seq<S>): T {
      xor(Feed(xor(initial, mask), message), mask)
    }

    lemma ChecksumConcat(mask: T, initial: T, a: seq<S>, b: seq<S>)
      requires forall x :: xor(xor(x, mask), mask) == x
      ensures Checksum(mask, Checksum(mask, initial, a), b) == Checksum(mask, initial, a + b)
    {
      FeedConcat(xor(initial, mask), a, b);
    }

    lemma ChecksumBurst(mask: T, initial: T, prefix: seq<S>, a: seq<S>, b: seq<S>, suffix: seq<S>)
      requires Lawful() && Fits(a) && Fits(b) && |a| == |b| && Pack(a) != Pack(b)
      ensures Checksum(mask, initial, prefix + a + suffix) != Checksum(mask, initial, prefix + b + suffix)
    {
      Burst(xor(initial, mask), prefix, a, b, suffix);
    }
  }
}
