/** Codes that turn every three values into four symbols and pad the last group, over arbitrary values
    and symbols. */
module GroupCode {

  datatype Status = Ok | BadParameter | InvalidInput | BufferTooSmall

  /** What the caller stored in the length; `NoPointer` when the pointer to it is null. */
  datatype Capacity = NoPointer | Room(size: nat)

  /** `first` to `fourth` give the symbols of a group, `left` to `right` the values of four symbols;
      `clean2` and `clean3` tell whether a last symbol holds nothing that decoding drops. */
  datatype Code<!A(!new), !B(!new, ==)> = Code(
      first: A -> B, second: (A, A) -> B, third: (A, A) -> B, fourth: A -> B,
      left: (B, B) -> A, middle: (B, B) -> A, right: (B, B) -> A,
      zero: A, pad: B, isSymbol: B -> bool, clean2: B -> bool, clean3: B -> bool)
  {
    // ---------------------------------------------------------------- the laws of one group

    /** Encoding gives symbols, and clean ones at the end. */
    ghost predicate Spells() {
      && (forall a :: isSymbol(first(a)) && isSymbol(fourth(a)))
      && (forall a, b :: isSymbol(second(a, b)) && isSymbol(third(a, b)))
      && (forall a :: clean2(second(a, zero)) && clean3(third(a, zero)))
      && !isSymbol(pad)
    }

    /** Decoding a group undoes encoding it. */
    ghost predicate Undoes() {
      && (forall a, b :: left(first(a), second(a, b)) == a)
      && (forall a, b, c :: middle(second(a, b), third(b, c)) == b)
      && (forall b, c :: right(third(b, c), fourth(c)) == c)
    }

    /** Encoding a group undoes decoding it. */
    ghost predicate Redoes() {
      && (forall p, q {:trigger left(p, q)} | isSymbol(p) && isSymbol(q) :: first(left(p, q)) == p)
      && (forall p, q, r {:trigger left(p, q), middle(q, r)} | isSymbol(q) && isSymbol(r) ::
            second(left(p, q), middle(q, r)) == q)
      && (forall q, r, t {:trigger middle(q, r), right(r, t)} | isSymbol(r) && isSymbol(t) ::
            third(middle(q, r), right(r, t)) == r)
      && (forall r, t {:trigger right(r, t)} | isSymbol(r) && isSymbol(t) :: fourth(right(r, t)) == t)
      && (forall p, q {:trigger left(p, q)} | isSymbol(q) && clean2(q) :: second(left(p, q), zero) == q)
      && (forall q, r {:trigger middle(q, r)} | isSymbol(r) && clean3(r) :: third(middle(q, r), zero) == r)
    }

    ghost predicate Lawful() {
      Spells() && Undoes() && Redoes()
    }

    // ---------------------------------------------------------------- whole texts

    function Encoded(x: seq<A>): seq<B> {
      if |x| == 0 then []
      else if |x| == 1 then [first(x[0]), second(x[0], zero), pad, pad]
      else if |x| == 2 then [first(x[0]), second(x[0], x[1]), third(x[1], zero), pad]
      else [first(x[0]), second(x[0], x[1]), third(x[1], x[2]), fourth(x[2])] + Encoded(x[3..])
    }

    /** The values of unpadded text. */
    function Plain(s: seq<B>): seq<A> {
      if |s| < 2 then []
      else if |s| == 2 then [left(s[0], s[1])]
      else if |s| == 3 then [left(s[0], s[1]), middle(s[1], s[2])]
      else [left(s[0], s[1]), middle(s[1], s[2]), right(s[2], s[3])] + Plain(s[4..])
    }

    function StripOne(s: seq<B>): seq<B> {
      if s != [] && s[|s| - 1] == pad then s[..|s| - 1] else s
    }

    /** Removes up to two padding symbols from the end. */
    function Strip(s: seq<B>): seq<B> {
      StripOne(StripOne(s))
    }

    /** Text the decoder takes at all. */
    predicate Decodable(s: seq<B>) {
      |s| >= 2 && |Strip(s)| % 4 != 1
    }

    function Decoded(s: seq<B>): seq<A> {
      Plain(Strip(s))
    }

    /** Full groups of symbols, padding only to complete the last one, and nothing in what it drops. */
    predicate Canonical(s: seq<B>) {
      if s == [] then true
      else if |s| < 4 then false
      else if |s| == 4 && s[2] == pad && s[3] == pad then
        isSymbol(s[0]) && isSymbol(s[1]) && clean2(s[1])
      else if |s| == 4 && s[3] == pad then
        isSymbol(s[0]) && isSymbol(s[1]) && isSymbol(s[2]) && clean3(s[2])
      else
        isSymbol(s[0]) && isSymbol(s[1]) && isSymbol(s[2]) && isSymbol(s[3]) && Canonical(s[4..])
    }

    lemma {:induction false} EncodedLength(x: seq<A>)
      ensures |Encoded(x)| == 4 * ((|x| + 2) / 3)
      decreases |x|
    {
      if |x| >= 3 {
        EncodedLength(x[3..]);
      }
    }

    lemma {:induction false} PlainLength(s: seq<B>)
      requires |s| % 4 != 1
      ensures |Plain(s)| == 3 * |s| / 4
      decreases |s|
    {
      if |s| >= 4 {
        PlainLength(s[4..]);
      }
    }

    lemma StripBehind(p: seq<B>, s: seq<B>)
      requires p != [] && p[|p| - 1] != pad
      ensures Strip(p + s) == p + Strip(s)
    {
    }

    lemma PlainGroup(p: B, q: B, r: B, t: B, rest: seq<B>)
      ensures Plain([p, q, r, t] + rest) == [left(p, q), middle(q, r), right(r, t)] + Plain(rest)
    {
    }

    lemma EncodedGroup(a: A, b: A, c: A, rest: seq<A>)
      ensures Encoded([a, b, c] + rest)
           == [first(a), second(a, b), third(b, c), fourth(c)] + Encoded(rest)
    {
    }

    lemma StripLast(x: seq<A>)
      requires Spells() && 1 <= |x| <= 2
      ensures Strip(Encoded(x)) == Encoded(x)[..|x| + 1]
    {
    }

    lemma DecodeOfGroup(x: seq<A>)
      requires Spells() && Undoes() && |x| >= 3
      ensures Decoded(Encoded(x)) == x[..3] + Decoded(Encoded(x[3..]))
    {
      var p, q, r, t := first(x[0]), second(x[0], x[1]), third(x[1], x[2]), fourth(x[2]);
      StripBehind([p, q, r, t], Encoded(x[3..]));
      PlainGroup(p, q, r, t, Strip(Encoded(x[3..])));
    }

    /** Decoding undoes encoding. */
    lemma {:induction false} DecodeOfEncode(x: seq<A>)
      requires Spells() && Undoes()
      ensures Decoded(Encoded(x)) == x
      decreases |x|
    {
      if |x| >= 3 {
        DecodeOfGroup(x);
        DecodeOfEncode(x[3..]);
      } else if |x| >= 1 {
        StripLast(x);
      }
    }

    lemma {:induction false} EncodedCanonical(x: seq<A>)
      requires Spells()
      ensures Canonical(Encoded(x))
      decreases |x|
    {
      if |x| >= 3 {
        EncodedCanonical(x[3..]);
        assert Encoded(x)[4..] == Encoded(x[3..]);
      }
    }

    lemma CanonicalTwo(s: seq<B>)
      requires Redoes() && |s| == 4 && s[2] == pad && s[3] == pad
      requires isSymbol(s[0]) && isSymbol(s[1]) && clean2(s[1]) && s[1] != pad
      ensures |Strip(s)| == 2 && Encoded(Decoded(s)) == s
    {
    }

    lemma CanonicalThree(s: seq<B>)
      requires Redoes() && |s| == 4 && s[2] != pad && s[3] == pad
      requires isSymbol(s[0]) && isSymbol(s[1]) && isSymbol(s[2]) && clean3(s[2])
      ensures |Strip(s)| == 3 && Encoded(Decoded(s)) == s
    {
    }

    lemma CanonicalFour(s: seq<B>)
      requires Redoes() && |s| >= 4 && s[3] != pad
      requires isSymbol(s[0]) && isSymbol(s[1]) && isSymbol(s[2]) && isSymbol(s[3])
      ensures |Strip(s)| == 4 + |Strip(s[4..])|
      ensures Encoded(Decoded(s)) == s[..4] + Encoded(Decoded(s[4..]))
    {
      var p, q, r, t := s[0], s[1], s[2], s[3];
      assert s == [p, q, r, t] + s[4..];
      StripBehind([p, q, r, t], s[4..]);
      PlainGroup(p, q, r, t, Strip(s[4..]));
      EncodedGroup(left(p, q), middle(q, r), right(r, t), Decoded(s[4..]));
    }

    lemma {:induction false} CanonicalLength(s: seq<B>)
      requires Canonical(s)
      ensures |s| % 4 == 0
      decreases |s|
    {
      if |s| > 4 {
        CanonicalLength(s[4..]);
      }
    }

    lemma {:induction false} EncodeOfCanonical(s: seq<B>)
      requires Spells() && Redoes() && Canonical(s)
      ensures Encoded(Decoded(s)) == s
      decreases |s|
    {
      if s == [] {
      } else if |s| == 4 && s[2] == pad && s[3] == pad {
        CanonicalTwo(s);
      } else if |s| == 4 && s[3] == pad {
        CanonicalThree(s);
      } else {
        EncodeOfCanonical(s[4..]);
        CanonicalFour(s);
      }
    }

    /** A canonical text is decodable unless it is empty: at most two of its symbols are padding. */
    lemma CanonicalDecodable(s: seq<B>)
      requires Canonical(s)
      ensures Decodable(s) <==> s != []
    {
      CanonicalLength(s);
    }

    /** Encoding undoes decoding on exactly the canonical texts. */
    lemma EncodeOfDecode(s: seq<B>)
      requires Lawful()
      ensures Decodable(s) && Encoded(Decoded(s)) == s <==> s != [] && Canonical(s)
    {
      if s != [] && Canonical(s) {
        CanonicalDecodable(s);
        EncodeOfCanonical(s);
      }
      EncodedCanonical(Decoded(s));
    }

    // ---------------------------------------------------------------- the two functions over buffers

    /** Writes a group through the output pointer. */
    method PutFour(output: array<B>, o: nat, a: B, b: B, c: B, d: B)
      requires o + 4 <= output.Length
      modifies output
      ensures output[..o + 4] == old(output[..o]) + [a, b, c, d]
      ensures output[o + 4..] == old(output[o + 4..])
    {
      output[o], output[o + 1], output[o + 2], output[o + 3] := a, b, c, d;
    }

    method PutThree(output: array<A>, o: nat, a: A, b: A, c: A)
      requires o + 3 <= output.Length
      modifies output
      ensures output[..o + 3] == old(output[..o]) + [a, b, c]
      ensures output[o + 3..] == old(output[o + 3..])
    {
      output[o], output[o + 1], output[o + 2] := a, b, c;
    }

    /** The body of the encoding loop. */
    method EncodeGroup(input: array<A>, i: nat, n: nat, output: array<B>, o: nat)
      requires i + 3 <= n <= input.Length && o + 4 <= output.Length && input as object != output
      modifies output
      ensures output[..o + 4] + Encoded(input[i + 3..n]) == old(output[..o]) + Encoded(input[i..n])
      ensures output[o + 4..] == old(output[o + 4..])
    {
      var a, b, c := input[i], input[i + 1], input[i + 2];
      ghost var rest := input[i + 3..n];
      assert input[i..n] == [a, b, c] + rest;
      EncodedGroup(a, b, c, rest);
      PutFour(output, o, first(a), second(a, b), third(b, c), fourth(c));
    }

    /** The loop over whole groups: `k` of them. */
    method EncodeGroups(input: array<A>, n: nat, output: array<B>) returns (i: nat, o: nat, ghost k: nat)
      requires n <= input.Length && 4 * n <= 3 * output.Length && input as object != output
      modifies output
      ensures i == 3 * k && o == 4 * k && i <= n < i + 3
      ensures output[..o] + Encoded(input[i..n]) == Encoded(input[..n])
      ensures output[o..] == old(output[o..])
    {
      i, o, k := 0, 0, 0;
      while i + 3 <= n
        invariant i == 3 * k && o == 4 * k && i <= n
        invariant output[..o] + Encoded(input[i..n]) == Encoded(input[..n])
        invariant output[o..] == old(output[o..])
      {
        EncodeGroup(input, i, n, output, o);
        i, o, k := i + 3, o + 4, k + 1;
      }
    }

    /** The last, incomplete group and its padding. */
    method EncodeLast(input: array<A>, i: nat, n: nat, output: array<B>, o: nat) returns (e: nat)
      requires i <= n <= input.Length && n < i + 3 && input as object != output
      requires o + (if i < n then 4 else 0) <= output.Length
      modifies output
      ensures e == o + if i < n then 4 else 0
      ensures output[..e] == old(output[..o]) + Encoded(input[i..n])
      ensures output[e..] == old(output[e..])
    {
      e := o;
      if n == i + 2 {
        PutFour(output, o, first(input[i]), second(input[i], input[i + 1]), third(input[i + 1], zero), pad);
        e := o + 4;
      } else if n == i + 1 {
        PutFour(output, o, first(input[i]), second(input[i], zero), pad, pad);
        e := o + 4;
      }
    }

    lemma GroupedLength(n: nat, k: nat)
      requires 3 * k <= n < 3 * k + 3
      ensures 4 * ((n + 2) / 3) == 4 * k + if 3 * k < n then 4 else 0
    {
    }

    method EncodeAll(input: array<A>, n: nat, output: array<B>)
      requires n <= input.Length && 4 * ((n + 2) / 3) <= output.Length && input as object != output
      modifies output
      ensures var length := 4 * ((n + 2) / 3);
              output[..length] == Encoded(input[..n]) && output[length..] == old(output[length..])
    {
      var i, o, k := EncodeGroups(input, n, output);
      ghost var behind := output[o..];
      GroupedLength(n, k);
      var e := EncodeLast(input, i, n, output, o);
      assert output[e..] == behind[e - o..];
    }

    lemma PaddedLength(n: nat, padding: nat)
      requires padding == if n % 3 == 0 then 0 else 3 - n % 3
      ensures 4 * (n + padding) / 3 == 4 * ((n + 2) / 3)
    {
    }

    method Encode(input: array?<A>, n: nat, output: array?<B>, capacity: Capacity)
      returns (status: Status, length: nat)
      requires input != null ==> n <= input.Length
      requires output != null && capacity.Room? ==> capacity.size <= output.Length
      requires output != null ==> input as object? != output
      modifies output
      ensures status in {Ok, BadParameter, BufferTooSmall}
      ensures status == BadParameter <==> input == null || output == null || capacity.NoPointer?
      ensures status == BufferTooSmall <==> status != BadParameter && capacity.size < 4 * ((n + 2) / 3)
      ensures status == Ok ==> length == 4 * ((n + 2) / 3)
      ensures status == Ok ==> output[..length] == Encoded(input[..n])
      ensures status == Ok ==> output[length..] == old(output[length..])
      ensures status != Ok && output != null ==> output[..] == old(output[..])
    {
      if input == null || output == null || capacity.NoPointer? {
        return BadParameter, 0;
      }
      var padding := if n % 3 == 0 then 0 else 3 - n % 3;
      length := 4 * (n + padding) / 3;
      PaddedLength(n, padding);
      if capacity.size < length {
        return BufferTooSmall, 0;
      }
      EncodeAll(input, n, output);
      status := Ok;
    }

    /** The body of the decoding loop. */
    method DecodeGroup(input: array<B>, i: nat, n: nat, output: array<A>, o: nat)
      requires i + 4 <= n <= input.Length && o + 3 <= output.Length && input as object != output
      modifies output
      ensures output[..o + 3] + Plain(input[i + 4..n]) == old(output[..o]) + Plain(input[i..n])
      ensures output[o + 3..] == old(output[o + 3..])
    {
      var p, q, r, t := input[i], input[i + 1], input[i + 2], input[i + 3];
      ghost var rest := input[i + 4..n];
      assert input[i..n] == [p, q, r, t] + rest;
      PlainGroup(p, q, r, t, rest);
      PutThree(output, o, left(p, q), middle(q, r), right(r, t));
    }

    /** The loop over whole groups: `k` of them. */
    method DecodeGroups(input: array<B>, n: nat, output: array<A>) returns (i: nat, o: nat, ghost k: nat)
      requires n <= input.Length && 3 * n / 4 <= output.Length && input as object != output
      modifies output
      ensures i == 4 * k && o == 3 * k && i <= n < i + 4
      ensures output[..o] + Plain(input[i..n]) == Plain(input[..n])
      ensures output[o..] == old(output[o..])
    {
      i, o, k := 0, 0, 0;
      while i + 4 <= n
        invariant i == 4 * k && o == 3 * k && i <= n
        invariant output[..o] + Plain(input[i..n]) == Plain(input[..n])
        invariant output[o..] == old(output[o..])
      {
        DecodeGroup(input, i, n, output, o);
        i, o, k := i + 4, o + 3, k + 1;
      }
    }

    /** The last, incomplete group. */
    method DecodeLast(input: array<B>, i: nat, n: nat, output: array<A>, o: nat) returns (e: nat)
      requires i <= n <= input.Length && n < i + 4 && n != i + 1 && input as object != output
      requires o + (if i < n then n - i - 1 else 0) <= output.Length
      modifies output
      ensures e == o + if i < n then n - i - 1 else 0
      ensures output[..e] == old(output[..o]) + Plain(input[i..n])
      ensures output[e..] == old(output[e..])
    {
      e := o;
      if n == i + 3 {
        output[o], output[o + 1] := left(input[i], input[i + 1]), middle(input[i + 1], input[i + 2]);
        e := o + 2;
      } else if n == i + 2 {
        output[o] := left(input[i], input[i + 1]);
        e := o + 1;
      }
    }

    method DecodeAll(input: array<B>, n: nat, output: array<A>)
      requires n <= input.Length && n % 4 != 1 && 3 * n / 4 <= output.Length && input as object != output
      modifies output
      ensures var length := 3 * n / 4;
              output[..length] == Plain(input[..n]) && output[length..] == old(output[length..])
    {
      var i, o, k := DecodeGroups(input, n, output);
      ghost var behind := output[o..];
      assert 3 * n / 4 == o + if i < n then n - i - 1 else 0;
      var e := DecodeLast(input, i, n, output, o);
      assert output[e..] == behind[e - o..];
    }

    method Decode(input: array?<B>, n: nat, output: array?<A>, capacity: Capacity)
      returns (status: Status, length: nat)
      requires input != null ==> n <= input.Length
      requires output != null && capacity.Room? ==> capacity.size <= output.Length
      requires output != null ==> input as object? != output
      modifies output
      ensures status == BadParameter <==> input == null || output == null || capacity.NoPointer?
      ensures status == InvalidInput <==> status != BadParameter && !Decodable(input[..n])
      ensures status == BufferTooSmall <==>
                status != BadParameter && status != InvalidInput && capacity.size < 3 * |Strip(input[..n])| / 4
      ensures status == Ok ==> length == 3 * |Strip(input[..n])| / 4
      ensures status == Ok ==> output[..length] == Decoded(input[..n])
      ensures status == Ok ==> output[length..] == old(output[length..])
      ensures status != Ok && output != null ==> output[..] == old(output[..])
    {
      if input == null || output == null || capacity.NoPointer? {
        return BadParameter, 0;
      }
      if n < 2 {
        return InvalidInput, 0;
      }
      var m := n;
      if input[m - 1] == pad {
        m := m - 1;
      }
      if input[m - 1] == pad {
        m := m - 1;
      }
      assert Strip(input[..n]) == input[..m];
      if m % 4 == 1 {
        return InvalidInput, 0;
      }
      length := 3 * m / 4;
      if capacity.size < length {
        return BufferTooSmall, 0;
      }
      DecodeAll(input, m, output);
      status := Ok;
    }
  }
}
