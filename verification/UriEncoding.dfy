/** Percent-encoding (sections 2.1 and 2.3 of RFC 3986) and the credential that is assembled with it; `char` is
    unsigned. */
module UriEncoding {
  import opened Basics

  const PERCENT: Octet := 37
  const SLASH: Octet := 47

  predicate Unreserved(o: Octet) {
    65 <= o <= 90 || 97 <= o <= 122 || 48 <= o <= 57 || o == 95 || o == 45 || o == 126 || o == 46
  }

  function HexDigit(d: nat): Octet
    requires d < 16
  {
    if d < 10 then 48 + d else 55 + d
  }

  function One(o: Octet): seq<Octet> {
    if Unreserved(o) then [o] else [PERCENT, HexDigit(o / 16), HexDigit(o % 16)]
  }

  function Encoded(s: seq<Octet>): seq<Octet> {
    if s == [] then [] else One(s[0]) + Encoded(s[1..])
  }

  // ------------------------------------------------------------------ decoding

  function HexValue(c: Octet): Option<nat> {
    if 48 <= c <= 57 then Some(c - 48)
    else if 65 <= c <= 70 then Some(c - 55)
    else if 97 <= c <= 102 then Some(c - 87)
    else None
  }

  /** Percent-decoding: every `%` starts a pair of hexadecimal digits, anything else stands for itself. */
  function Decoded(t: seq<Octet>): Option<seq<Octet>> {
    if t == [] then Some([])
    else if t[0] != PERCENT then
      var rest := Decoded(t[1..]);
      if rest.None? then None else Some([t[0]] + rest.value)
    else if |t| < 3 || HexValue(t[1]).None? || HexValue(t[2]).None? then None
    else
      var rest := Decoded(t[3..]);
      if rest.None? then None else Some([Byte(HexValue(t[1]).value, HexValue(t[2]).value)] + rest.value)
  }

  function Byte(high: nat, low: nat): Octet {
    if high < 16 && low < 16 then high * 16 + low else 0
  }

  lemma DecodeOne(o: Octet, rest: seq<Octet>)
    ensures Decoded(One(o) + rest) == if Decoded(rest).None? then None else Some([o] + Decoded(rest).value)
  {
  }

  /** Percent-decoding undoes the encoding. */
  lemma {:induction false} DecodeOfEncode(s: seq<Octet>)
    ensures Decoded(Encoded(s)) == Some(s)
  {
    if s != [] {
      var rest := Encoded(s[1..]);
      DecodeOfEncode(s[1..]);
      DecodeOne(s[0], rest);
      assert Encoded(s) == One(s[0]) + rest;
      assert s == [s[0]] + s[1..];
    }
  }

  /** The unreserved characters are the letters, the digits and four marks. */
  lemma UnreservedExactly(o: Octet)
    ensures var c := o as char;
            Unreserved(o) <==>
              'A' <= c <= 'Z' || 'a' <= c <= 'z' || '0' <= c <= '9' || c in {'-', '.', '_', '~'}
  {
  }

  /** Exactly the unreserved texts are left as they are. */
  lemma {:induction false} UnreservedKept(s: seq<Octet>)
    ensures |Encoded(s)| >= |s|
    ensures Encoded(s) == s <==> forall i :: 0 <= i < |s| ==> Unreserved(s[i])
  {
    if s != [] {
      UnreservedKept(s[1..]);
      assert s == [s[0]] + s[1..];
      if Unreserved(s[0]) {
        assert Encoded(s)[1..] == Encoded(s[1..]);
      } else {
        assert |Encoded(s)| > |s|;
      }
    }
  }

  predicate UpperHex(o: Octet) {
    48 <= o <= 57 || 65 <= o <= 70
  }

  /** Two upper-case hexadecimal digits stand behind every percent sign. */
  lemma {:induction false} TripletsUpper(s: seq<Octet>)
    ensures forall i :: 0 <= i < |Encoded(s)| && Encoded(s)[i] == PERCENT ==>
              i + 2 < |Encoded(s)| && UpperHex(Encoded(s)[i + 1]) && UpperHex(Encoded(s)[i + 2])
  {
    if s != [] {
      var one, rest, all := One(s[0]), Encoded(s[1..]), Encoded(s);
      TripletsUpper(s[1..]);
      assert all == one + rest;
      forall i | 0 <= i < |all| && all[i] == PERCENT
        ensures i + 2 < |all| && UpperHex(all[i + 1]) && UpperHex(all[i + 2])
      {
        if i < |one| {
          assert i == 0 && |one| == 3;
        } else {
          assert rest[i - |one|] == PERCENT;
          assert all[i + 1] == rest[i - |one| + 1] && all[i + 2] == rest[i - |one| + 2];
        }
      }
    }
  }

  /** Only unreserved octets and percent signs come out. */
  lemma {:induction false} EncodedIsSafe(s: seq<Octet>)
    ensures forall i :: 0 <= i < |Encoded(s)| ==> Unreserved(Encoded(s)[i]) || Encoded(s)[i] == PERCENT
  {
    if s != [] {
      EncodedIsSafe(s[1..]);
    }
  }

  /** Encoding piece by piece is encoding the whole. */
  lemma {:induction false} EncodedConcat(a: seq<Octet>, b: seq<Octet>)
    ensures Encoded(a + b) == Encoded(a) + Encoded(b)
  {
    if a == [] {
      assert a + b == b;
    } else {
      assert (a + b)[1..] == a[1..] + b;
      EncodedConcat(a[1..], b);
    }
  }

  lemma EncodedNext(s: seq<Octet>, i: nat)
    requires i < |s|
    ensures Encoded(s[..i + 1]) == Encoded(s[..i]) + One(s[i])
  {
    assert s[..i + 1] == s[..i] + [s[i]];
    EncodedConcat(s[..i], [s[i]]);
    assert Encoded([s[i]]) == One(s[i]);
  }

  lemma EncodedPrefix(s: seq<Octet>, i: nat)
    requires i <= |s|
    ensures Encoded(s[..i]) <= Encoded(s)
  {
    assert s == s[..i] + s[i..];
    EncodedConcat(s[..i], s[i..]);
  }

  lemma EncodedStep(s: seq<Octet>, i: nat)
    requires i < |s|
    ensures Encoded(s[..i + 1]) == Encoded(s[..i]) + One(s[i])
    ensures |Encoded(s[..i])| + |One(s[i])| <= |Encoded(s)|
  {
    EncodedNext(s, i);
    EncodedPrefix(s, i + 1);
  }

  // ------------------------------------------------------------------ the encoder

  /** `s` with `t` written over it from `at` on. */
  function Splice<T>(s: seq<T>, at: nat, t: seq<T>): seq<T>
    requires at + |t| <= |s|
  {
    s[..at] + t + s[at + |t|..]
  }

  lemma SpliceTwice<T>(s: seq<T>, at: nat, t: seq<T>, u: seq<T>)
    requires at + |t| + |u| <= |s|
    ensures Splice(Splice(s, at, t), at + |t|, u) == Splice(s, at, t + u)
  {
  }

  /** The body of the loop: one octet at `pos`, of which `remaining` octets may be written. */
  method PutOne(ch: Octet, dst: array<Octet>, pos: nat, remaining: nat) returns (ok: bool, width: nat)
    requires pos + remaining <= dst.Length
    modifies dst
    ensures ok <==> |One(ch)| <= remaining
    ensures ok ==> width == |One(ch)| && dst[..] == Splice(old(dst[..]), pos, One(ch))
    ensures !ok ==> width == 0 && dst[..] == old(dst[..])
  {
    if Unreserved(ch) {
      if remaining < 1 {
        return false, 0;
      }
      dst[pos] := ch;
      return true, 1;
    } else if ch == SLASH {
      if remaining < 3 {
        return false, 0;
      }
      dst[pos], dst[pos + 1], dst[pos + 2] := PERCENT, 50, 70;
      return true, 3;
    } else {
      if remaining < 3 {
        return false, 0;
      }
      dst[pos], dst[pos + 1], dst[pos + 2] := PERCENT, HexDigit(ch / 16), HexDigit(ch % 16);
      return true, 3;
    }
  }

  /** `PutOne` behind the `text` that is already written. */
  method PutNext(ch: Octet, dst: array<Octet>, pos: nat, remaining: nat,
                 ghost before: seq<Octet>, ghost at: nat, ghost text: seq<Octet>)
    returns (ok: bool, width: nat)
    requires pos + remaining <= dst.Length == |before| && pos == at + |text|
    requires dst[..] == Splice(before, at, text)
    modifies dst
    ensures ok <==> |One(ch)| <= remaining
    ensures width == if ok then |One(ch)| else 0
    ensures dst[..] == Splice(before, at, if ok then text + One(ch) else text)
  {
    ok, width := PutOne(ch, dst, pos, remaining);
    if ok {
      SpliceTwice(before, at, text, One(ch));
    }
  }

  /** Encodes `src` into the `capacity` octets of `dst` from `at` on. `text` is what it writes, and
      `length` what it reports. */
  method UriEncode(src: seq<Octet>, dst: array<Octet>, at: nat, capacity: nat)
    returns (ok: bool, length: nat, ghost text: seq<Octet>)
    requires at + capacity <= dst.Length
    modifies dst
    ensures ok <==> |Encoded(src)| <= capacity
    ensures |text| <= capacity && dst[..] == Splice(old(dst[..]), at, text)
    ensures ok ==> text == Encoded(src) && length == |text|
    ensures !ok ==> text <= Encoded(src) && length == capacity
  {
    ok, length, text := true, capacity, [];
    var i, j, remaining := 0, 0, capacity;
    ghost var before := dst[..];
    while i < |src| && ok
      invariant i <= |src| && 0 <= remaining && j + remaining == capacity
      invariant text == Encoded(src[..i]) && |text| == j
      invariant dst[..] == Splice(before, at, text)
      invariant !ok ==> |Encoded(src)| > capacity
      decreases |src| - i, ok
    {
      EncodedStep(src, i);
      var width;
      ok, width := PutNext(src[i], dst, at + j, remaining, before, at, text);
      if ok {
        i, j, remaining, text := i + 1, j + width, remaining - width, text + One(src[i]);
      }
    }
    if ok {
      assert src[..|src|] == src;
      length := j;
    } else {
      EncodedPrefix(src, i);
    }
  }

  // ------------------------------------------------------------------ the credential

  /** `/aws4_request`. */
  const TERMINATOR: seq<Octet> := [47, 97, 119, 115, 52, 95, 114, 101, 113, 117, 101, 115, 116]

  /** The scope that the credential names: key, date, region, service, separated by slashes. */
  function Scope(key: seq<Octet>, date: seq<Octet>, region: seq<Octet>, service: seq<Octet>): seq<Octet> {
    key + [SLASH] + date + [SLASH] + region + [SLASH] + service + TERMINATOR
  }

  /** The fields of a text between slashes. */
  function Fields(s: seq<Octet>): seq<seq<Octet>>
    decreases |s|
  {
    var i := SlashAt(s);
    if i == |s| then [s] else [s[..i]] + Fields(s[i + 1..])
  }

  function SlashAt(s: seq<Octet>): (i: nat)
    ensures i <= |s| && SLASH !in s[..i] && (i < |s| ==> s[i] == SLASH)
  {
    if s == [] || s[0] == SLASH then 0 else
      var i := 1 + SlashAt(s[1..]);
      assert s[..i] == [s[0]] + s[1..][..i - 1];
      i
  }

  lemma FieldsFirst(first: seq<Octet>, rest: seq<Octet>)
    requires SLASH !in first
    ensures Fields(first + [SLASH] + rest) == [first] + Fields(rest)
  {
    var s := first + [SLASH] + rest;
    SlashUnique(s, |first|);
    assert s[..|first|] == first && s[|first| + 1..] == rest;
  }

  lemma {:induction false} SlashUnique(s: seq<Octet>, i: nat)
    requires i < |s| && SLASH !in s[..i] && s[i] == SLASH
    ensures SlashAt(s) == i
  {
    if i > 0 {
      assert s[1..][..i - 1] == s[..i][1..];
      assert s[0] == s[..i][0];
      SlashUnique(s[1..], i - 1);
    }
  }

  /** `aws4_request`. */
  const REQUEST_TYPE: string := "aws4_request"

  function Text(s: seq<Octet>): string {
    seq(|s|, i requires 0 <= i < |s| => s[i] as char)
  }

  /** The scope can be taken apart again: key, date, region, service and request type in this order. */
  lemma ScopeFields(key: seq<Octet>, date: seq<Octet>, region: seq<Octet>, service: seq<Octet>)
    requires SLASH !in key && SLASH !in date && SLASH !in region && SLASH !in service
    ensures var fields := Fields(Scope(key, date, region, service));
            |fields| == 5 && fields[..4] == [key, date, region, service] && Text(fields[4]) == REQUEST_TYPE
  {
    var last := TERMINATOR[1..];
    LastField();
    var parts := [key, date, region, service, last];
    ScopeJoined(key, date, region, service, last);
    FieldsJoined(parts);
  }

  lemma LastField()
    ensures var last := TERMINATOR[1..];
            TERMINATOR == [SLASH] + last && SLASH !in last && Text(last) == REQUEST_TYPE
  {
  }

  function Joined(parts: seq<seq<Octet>>): seq<Octet> {
    if parts == [] then [] else if |parts| == 1 then parts[0] else parts[0] + [SLASH] + Joined(parts[1..])
  }

  lemma {:induction false} FieldsJoined(parts: seq<seq<Octet>>)
    requires parts != [] && forall i :: 0 <= i < |parts| ==> SLASH !in parts[i]
    ensures Fields(Joined(parts)) == parts
  {
    if |parts| == 1 {
      LastOnly(parts[0]);
    } else {
      FieldsFirst(parts[0], Joined(parts[1..]));
      FieldsJoined(parts[1..]);
    }
  }

  lemma Append4(a: seq<Octet>, b: seq<Octet>, c: seq<Octet>, d: seq<Octet>)
    ensures a + b + c + d == a + b + (c + d)
  {
  }

  lemma ScopeJoined(key: seq<Octet>, date: seq<Octet>, region: seq<Octet>, service: seq<Octet>, last: seq<Octet>)
    requires TERMINATOR == [SLASH] + last
    ensures Scope(key, date, region, service) == Joined([key, date, region, service, last])
  {
    var slash := [SLASH];
    var one := Joined([service, last]);
    var two := Joined([region, service, last]);
    var three := Joined([date, region, service, last]);
    assert [region, service, last][1..] == [service, last];
    assert [date, region, service, last][1..] == [region, service, last];
    assert [key, date, region, service, last][1..] == [date, region, service, last];
    assert [service, last][1..] == [last] && Joined([last]) == last;
    assert service + (slash + last) == one;
    Append4(key + slash + date + slash + region, slash, service, TERMINATOR);
    Append4(key + slash + date, slash, region, slash + one);
    Append4(key, slash, date, slash + two);
    assert region + (slash + one) == two && date + (slash + two) == three;
  }

  lemma LastOnly(s: seq<Octet>)
    requires SLASH !in s
    ensures Fields(s) == [s]
  {
  }

  /** Where the source stands in its buffer. */
  datatype Cursor = Cursor(ok: bool, written: nat, remaining: nat)

  /** The buffer before the first piece, and the part of it that may be written. */
  datatype Area = Area(before: seq<Octet>, start: nat, capacity: nat)

  /** The buffer is as before except for `text`, the encoding of the pieces `done` or what fitted of it. */
  ghost predicate Written(area: Area, after: seq<Octet>, cursor: Cursor, done: seq<Octet>, text: seq<Octet>) {
    && area.start + area.capacity <= |area.before| && |text| <= area.capacity
    && after == Splice(area.before, area.start, text)
    && (cursor.ok <==> |Encoded(done)| <= area.capacity)
    && (cursor.ok ==> text == Encoded(done) && cursor.written == area.start + |text|)
    && (cursor.ok ==> cursor.written + cursor.remaining == area.start + area.capacity)
  }

  /** Encodes one more piece behind what is written; does nothing after a failure. */
  method Append(piece: seq<Octet>, dst: array<Octet>, cursor: Cursor, ghost area: Area,
                ghost done: seq<Octet>, ghost text: seq<Octet>)
    returns (cursor': Cursor, ghost done': seq<Octet>, ghost text': seq<Octet>)
    requires Written(area, dst[..], cursor, done, text)
    modifies dst
    ensures done' == done + piece && Written(area, dst[..], cursor', done', text')
  {
    cursor', done', text' := cursor, done + piece, text;
    EncodedConcat(done, piece);
    if cursor.ok {
      ghost var more;
      var ok, length;
      ok, length, more := UriEncode(piece, dst, cursor.written, cursor.remaining);
      SpliceTwice(area.before, area.start, text, more);
      text' := text + more;
      cursor' := if ok then Cursor(true, cursor.written + length, cursor.remaining - length) else cursor.(ok := false);
    }
  }

  /** The eight calls of the source: they succeed exactly when the encoded scope fits, and then write it. */
  method WriteCredential(key: seq<Octet>, time: seq<Octet>, region: seq<Octet>, service: seq<Octet>,
                         dst: array<Octet>, start: nat, capacity: nat)
    returns (cursor: Cursor, ghost text: seq<Octet>)
    requires start + capacity <= dst.Length && |time| >= 8
    modifies dst
    ensures Written(Area(old(dst[..]), start, capacity), dst[..], cursor, Scope(key, time[..8], region, service), text)
  {
    ghost var area, done := Area(dst[..], start, capacity), [];
    cursor, text := Cursor(true, start, capacity), [];
    assert Splice(dst[..], start, []) == dst[..];
    cursor, done, text := Append(key, dst, cursor, area, done, text);
    assert done == key;
    cursor, done, text := Append([SLASH], dst, cursor, area, done, text);
    cursor, done, text := Append(time[..8], dst, cursor, area, done, text);
    cursor, done, text := Append([SLASH], dst, cursor, area, done, text);
    cursor, done, text := Append(region, dst, cursor, area, done, text);
    cursor, done, text := Append([SLASH], dst, cursor, area, done, text);
    cursor, done, text := Append(service, dst, cursor, area, done, text);
    cursor, done, text := Append(TERMINATOR, dst, cursor, area, done, text);
  }
}
