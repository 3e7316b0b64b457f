/** Base64 (section 4 of RFC 4648) over buffers. Shifts and masks are written as division, remainder
    and multiplication by powers of two; `char` is unsigned. */
module Base64 {
  import opened Basics
  import opened GroupCode

  type Sextet = n: nat | n < 64

  const PAD: Octet := 61

  // ------------------------------------------------------------------ the alphabet

  const UPPER: string := "ABCDEFGHIJKLMNOPQRSTUVWXYZ"
  const LOWER: string := "abcdefghijklmnopqrstuvwxyz"
  const OTHERS: string := "0123456789+/"
  const ENCODE_TABLE: string := UPPER + LOWER + OTHERS

  const UPPER_VALUES: seq<Sextet> :=
    [0, 1, 2, 3, 4, 5, 6, 7, 8, 9, 10, 11, 12, 13, 14, 15, 16, 17, 18, 19, 20, 21, 22, 23, 24, 25]
  const LOWER_VALUES: seq<Sextet> :=
    [26, 27, 28, 29, 30, 31, 32, 33, 34, 35, 36, 37, 38, 39, 40, 41, 42, 43, 44, 45, 46, 47, 48, 49, 50, 51]
  const OTHER_VALUES: seq<Sextet> := [62, 0, 0, 0, 63, 52, 53, 54, 55, 56, 57, 58, 59, 60, 61]
  const BEFORE_LETTERS: seq<Sextet> := Zeros(43) + OTHER_VALUES + Zeros(7)
  const LETTER_VALUES: seq<Sextet> := UPPER_VALUES + Zeros(6) + LOWER_VALUES
  const DECODE_TABLE: seq<Sextet> := BEFORE_LETTERS + LETTER_VALUES + Zeros(133)

  function Zeros(n: nat): seq<Sextet> {
    seq(n, _ => 0)
  }

  predicate IsSymbol(c: Octet) {
    65 <= c <= 90 || 97 <= c <= 122 || 48 <= c <= 57 || c == 43 || c == 47
  }

  /** The decoding table at `c`: zero for every octet outside the alphabet. */
  function Value(c: Octet): Sextet {
    if 65 <= c <= 90 then c - 65
    else if 97 <= c <= 122 then 26 + (c - 97)
    else if 48 <= c <= 57 then 52 + (c - 48)
    else if c == 43 then 62
    else if c == 47 then 63
    else 0
  }

  /** The encoding table at `d`. */
  function Symbol(d: Sextet): (c: Octet)
    ensures c != PAD && IsSymbol(c) && Value(c) == d
  {
    if d < 26 then 65 + d
    else if d < 52 then 97 + (d - 26)
    else if d < 62 then 48 + (d - 52)
    else if d == 62 then 43 else 47
  }

  lemma UpperAt(i: nat)
    requires i < 26
    ensures UPPER[i] as nat == 65 + i && UPPER_VALUES[i] == i
  {
  }

  lemma LowerAt(i: nat)
    requires i < 26
    ensures LOWER[i] as nat == 97 + i && LOWER_VALUES[i] == 26 + i
  {
  }

  lemma OtherAt(i: nat)
    requires i < 10
    ensures OTHERS[i] as nat == 48 + i && OTHER_VALUES[i + 5] == 52 + i
  {
  }

  /** The two tables of the code. */
  lemma EncodeTable(d: Sextet)
    ensures |ENCODE_TABLE| == 64 && ENCODE_TABLE[d] as nat == Symbol(d)
  {
    if d < 26 { UpperAt(d); } else if d < 52 { LowerAt(d - 26); } else if d < 62 { OtherAt(d - 52); }
  }

  lemma BeforeLetters(c: Octet)
    requires c < 65
    ensures |BEFORE_LETTERS| == 65 && BEFORE_LETTERS[c] == Value(c)
  {
  }

  lemma Letters(c: Octet)
    requires 65 <= c <= 122
    ensures |LETTER_VALUES| == 58 && LETTER_VALUES[c - 65] == Value(c)
  {
    if c <= 90 { UpperAt(c - 65); } else if 97 <= c { LowerAt(c - 97); }
  }

  lemma DecodeTable(c: Octet)
    ensures |DECODE_TABLE| == 256 && DECODE_TABLE[c] == Value(c)
  {
    if c < 65 { BeforeLetters(c); } else if c <= 122 { Letters(c); }
  }

  lemma SymbolOfValue(c: Octet)
    requires IsSymbol(c)
    ensures Symbol(Value(c)) == c
  {
  }

  // ------------------------------------------------------------------ one group

  /** The sextets that straddle two octets, and the octets that join two sextets. */
  function Middle(a: Octet, b: Octet): Sextet {
    (a % 4) * 16 + b / 16
  }

  function Late(b: Octet, c: Octet): Sextet {
    (b % 16) * 4 + c / 64
  }

  function Join0(p: nat, q: nat): Octet
    requires p < 64 && q < 64
  {
    p * 4 + q / 16
  }

  function Join1(q: nat, r: nat): Octet
    requires q < 64 && r < 64
  {
    (q % 16) * 16 + r / 4
  }

  function Join2(r: nat, t: nat): Octet
    requires r < 64 && t < 64
  {
    (r % 4) * 64 + t
  }

  function First(a: Octet): Octet { Symbol(a / 4) }

  function Second(a: Octet, b: Octet): Octet { Symbol(Middle(a, b)) }

  function Third(b: Octet, c: Octet): Octet { Symbol(Late(b, c)) }

  function Fourth(c: Octet): Octet { Symbol(c % 64) }

  function Left(p: Octet, q: Octet): Octet { Join0(Value(p), Value(q)) }

  function Mid(q: Octet, r: Octet): Octet { Join1(Value(q), Value(r)) }

  function Right(r: Octet, t: Octet): Octet { Join2(Value(r), Value(t)) }

  /** The bits of a last symbol that decoding drops are zero. */
  predicate Clean2(q: Octet) { Value(q) % 16 == 0 }

  predicate Clean3(r: Octet) { Value(r) % 4 == 0 }

  const BASE64: Code<Octet, Octet> :=
    Code(First, Second, Third, Fourth, Left, Mid, Right, 0, PAD, IsSymbol, Clean2, Clean3)

  lemma Rejoined(p: Sextet, q: Sextet, r: Sextet, t: Sextet)
    ensures Join0(p, q) / 4 == p && Middle(Join0(p, q), Join1(q, r)) == q
    ensures Late(Join1(q, r), Join2(r, t)) == r && Join2(r, t) % 64 == t
    ensures q % 16 == 0 ==> Middle(Join0(p, q), 0) == q
    ensures r % 4 == 0 ==> Late(Join1(q, r), 0) == r
  {
  }

  lemma Base64Spells()
    ensures BASE64.Spells()
  {
  }

  lemma GroupUndone(a: Octet, b: Octet, c: Octet)
    ensures Left(First(a), Second(a, b)) == a
    ensures Mid(Second(a, b), Third(b, c)) == b
    ensures Right(Third(b, c), Fourth(c)) == c
  {
  }

  lemma Base64Undoes()
    ensures BASE64.Undoes()
  {
    forall a, b ensures Left(First(a), Second(a, b)) == a { GroupUndone(a, b, 0); }
    forall a, b, c ensures Mid(Second(a, b), Third(b, c)) == b { GroupUndone(a, b, c); }
    forall b, c ensures Right(Third(b, c), Fourth(c)) == c { GroupUndone(0, b, c); }
  }

  lemma FirstRedone(p: Octet, q: Octet)
    requires IsSymbol(p)
    ensures First(Left(p, q)) == p
  {
  }

  lemma SecondRedone(p: Octet, q: Octet, r: Octet)
    requires IsSymbol(q)
    ensures Second(Left(p, q), Mid(q, r)) == q
    ensures Clean2(q) ==> Second(Left(p, q), 0) == q
  {
    Rejoined(Value(p), Value(q), Value(r), 0);
    SymbolOfValue(q);
  }

  lemma ThirdRedone(q: Octet, r: Octet, t: Octet)
    requires IsSymbol(r)
    ensures Third(Mid(q, r), Right(r, t)) == r
    ensures Clean3(r) ==> Third(Mid(q, r), 0) == r
  {
    Rejoined(0, Value(q), Value(r), Value(t));
    SymbolOfValue(r);
  }

  lemma FourthRedone(r: Octet, t: Octet)
    requires IsSymbol(t)
    ensures Fourth(Right(r, t)) == t
  {
    Rejoined(0, 0, Value(r), Value(t));
    SymbolOfValue(t);
  }

  lemma Base64Redoes()
    ensures BASE64.Redoes()
  {
    forall p, q | IsSymbol(p) && IsSymbol(q) ensures First(Left(p, q)) == p { FirstRedone(p, q); }
    forall p, q, r | IsSymbol(q) && IsSymbol(r) ensures Second(Left(p, q), Mid(q, r)) == q { SecondRedone(p, q, r); }
    forall q, r, t | IsSymbol(r) && IsSymbol(t) ensures Third(Mid(q, r), Right(r, t)) == r { ThirdRedone(q, r, t); }
    forall r, t | IsSymbol(r) && IsSymbol(t) ensures Fourth(Right(r, t)) == t { FourthRedone(r, t); }
    forall p, q | IsSymbol(q) && Clean2(q) ensures Second(Left(p, q), 0) == q { SecondRedone(p, q, 0); }
    forall q, r | IsSymbol(r) && Clean3(r) ensures Third(Mid(q, r), 0) == r { ThirdRedone(q, r, 0); }
  }

  lemma Divided(v: nat, q: nat, r: nat)
    ensures v == q * 262144 + r && r < 262144 ==> v / 262144 == q
    ensures v == q * 4096 + r && r < 4096 ==> v / 4096 == q
    ensures v == q * 64 + r && r < 64 ==> v / 64 == q && v % 64 == r
  {
  }

  lemma FirstDigit(a: Octet, b: Octet, c: Octet, v: nat)
    requires v == a * 65536 + b * 256 + c
    ensures v / 262144 == a / 4
  {
    Divided(v, a / 4, (a % 4) * 65536 + b * 256 + c);
  }

  lemma SecondDigit(a: Octet, b: Octet, c: Octet, v: nat)
    requires v == a * 65536 + b * 256 + c
    ensures v / 4096 % 64 == Middle(a, b)
  {
    Divided(v, a * 16 + b / 16, (b % 16) * 256 + c);
    Divided(a * 16 + b / 16, a / 4, (a % 4) * 16 + b / 16);
  }

  lemma LastDigits(a: Octet, b: Octet, c: Octet, v: nat)
    requires v == a * 65536 + b * 256 + c
    ensures v / 64 % 64 == Late(b, c) && v % 64 == c % 64
  {
    Divided(v, a * 1024 + b * 4 + c / 64, c % 64);
    Divided(a * 1024 + b * 4 + c / 64, a * 16 + b / 16, (b % 16) * 4 + c / 64);
  }

  /** The sextets of three octets are the base-64 digits of the number whose base-256 digits they are. */
  lemma SlicesAreDigits(a: Octet, b: Octet, c: Octet)
    ensures var v: nat := a * 65536 + b * 256 + c;
            BASE64.Encoded([a, b, c]) ==
              [Symbol(v / 262144), Symbol(v / 4096 % 64), Symbol(v / 64 % 64), Symbol(v % 64)]
  {
    var v: nat := a * 65536 + b * 256 + c;
    FirstDigit(a, b, c, v);
    SecondDigit(a, b, c, v);
    LastDigits(a, b, c, v);
  }

  // ------------------------------------------------------------------ the promises

  function Encoded(x: seq<Octet>): seq<Octet> {
    BASE64.Encoded(x)
  }

  function Decoded(s: seq<Octet>): seq<Octet> {
    BASE64.Decoded(s)
  }

  /** Decoding undoes encoding; only the empty input gives text the decoder refuses. */
  lemma DecodeOfEncode(x: seq<Octet>)
    ensures Decoded(Encoded(x)) == x
    ensures BASE64.Decodable(Encoded(x)) <==> x != []
  {
    Base64Spells();
    Base64Undoes();
    BASE64.DecodeOfEncode(x);
    BASE64.EncodedCanonical(x);
    BASE64.CanonicalDecodable(Encoded(x));
  }

  /** Encoding undoes decoding on exactly the non-empty canonical texts. */
  lemma EncodeOfDecode(s: seq<Octet>)
    ensures BASE64.Decodable(s) && Encoded(Decoded(s)) == s <==> s != [] && BASE64.Canonical(s)
  {
    Base64Spells();
    Base64Undoes();
    Base64Redoes();
    BASE64.EncodeOfDecode(s);
  }
}
