/** `Kim`: strings of 7-bit bytes, one to three to a character, with a Fletcher-style hash.

    A byte is a number below 256 and a UTF-16 unit a number below 65536; the bit operations of
    the source are written as the arithmetic they amount to on such numbers. */
module Kim {

  type Byte = b: nat | b < 256
  type Unit = u: nat | u < 0x10000

  datatype Error = BadUtf16 | BadCharacter | OutOfBounds
  datatype Result<+T> = Ok(value: T) | Err(error: Error)

  /* ---------- one character ---------- */

  predicate IsScalar(c: int) {
    0 <= c <= 0x10FFFF && !(0xD800 <= c <= 0xDFFF)
  }

  // The bytes of a character: all but the last have the top bit set.
  function BytesOf(c: nat): (bs: seq<Byte>)
    requires c <= 0x10FFFF
  {
    if c <= 0x7F then [c]
    else if c <= 0x3FFF then [0x80 + c / 128, c % 128]
    else [0x80 + c / 16384, 0x80 + c / 128 % 128, c % 128]
  }

  function UnitsOf(c: nat): (us: seq<Unit>)
    requires IsScalar(c)
  {
    if c < 0x10000 then [c]
    else [0xD800 + (c - 0x10000) / 1024, 0xDC00 + c % 1024]
  }

  // characterSize
  function SizeOf(c: int): Result<nat> {
    if c < 0 || c > 0x10FFFF then Err(BadCharacter)
    else Ok(if c <= 0x7F then 1 else if c <= 0x3FFF then 2 else 3)
  }

  // get: one position past the end passes the check and then misses the array.
  function Get(bs: seq<Byte>, at: int): Result<Byte> {
    if at < 0 || at > |bs| then Err(BadCharacter)
    else if at == |bs| then Err(OutOfBounds)
    else Ok(bs[at])
  }

  // characterAt
  function CharacterAt(bs: seq<Byte>, at: int): (r: Result<nat>)
    ensures r.Ok? ==> IsScalar(r.value)
  {
    match Get(bs, at)
    case Err(e) => Err(e)
    case Ok(c) =>
      if c < 0x80 then Ok(c)
      else match Get(bs, at + 1)
        case Err(e) => Err(e)
        case Ok(c1) =>
          if c1 < 0x80 then
            var character := c % 128 * 128 + c1;
            if character > 0x7F then Ok(character) else Err(BadCharacter)
          else match Get(bs, at + 2)
            case Err(e) => Err(e)
            case Ok(c2) =>
              if c2 >= 0x80 then Err(BadCharacter)
              else
                var character := c % 128 * 16384 + c1 % 128 * 128 + c2;
                if character > 0x3FFF && IsScalar(character) then Ok(character) else Err(BadCharacter)
  }

  // Seven bits a byte, the most significant first.
  function Value(bs: seq<Byte>): nat {
    if bs == [] then 0 else Value(bs[..|bs| - 1]) * 128 + bs[|bs| - 1] % 128
  }

  // The bytes of a character are its digits in base 128 without leading zeros; all but the last
  // have the top bit set.
  lemma {:induction false} BytesAreDigits(c: nat)
    requires c <= 0x10FFFF
    ensures var bs := BytesOf(c);
            && Value(bs) == c && 1 <= |bs| <= 3
            && (forall i | 0 <= i < |bs| :: bs[i] >= 0x80 <==> i < |bs| - 1)
            && (|bs| > 1 ==> bs[0] > 0x80)
  {
    var bs := BytesOf(c);
    if |bs| == 1 {
      assert bs[..0] == [];
    } else if |bs| == 2 {
      assert bs[..1] == [bs[0]] && [bs[0]][..0] == [];
    } else {
      Digits(c);
      ValueOfThree(bs);
    }
  }

  lemma {:induction false} ValueOfThree(bs: seq<Byte>)
    requires |bs| == 3
    ensures var x: int, y: int, z: int := bs[0], bs[1], bs[2]; Value(bs) == x % 128 * 16384 + y % 128 * 128 + z % 128
  {
    assert bs[..2][..1][..0] == [];
    var x: int, y: int := bs[0], bs[1];
    assert Value(bs[..2][..1]) == x % 128;
    assert Value(bs[..2]) == x % 128 * 128 + y % 128;
  }

  // Reading a character back gives that character and its size.
  lemma {:induction false} ReadBack(c: nat, rest: seq<Byte>)
    requires IsScalar(c)
    ensures CharacterAt(BytesOf(c) + rest, 0) == Ok(c)
    ensures SizeOf(c) == Ok(|BytesOf(c)|)
  {
    var bs := BytesOf(c) + rest;
    if c <= 0x7F {
      assert bs[0] == c;
    } else if c <= 0x3FFF {
      assert bs[0] == 0x80 + c / 128 && bs[1] == c % 128;
    } else {
      Digits(c);
      assert bs[0] == 0x80 + c / 16384 && bs[1] == 0x80 + c / 128 % 128 && bs[2] == c % 128;
      ReadThree(bs, c / 16384, c / 128 % 128, c % 128);
    }
  }

  lemma {:induction false} ReadThree(bs: seq<Byte>, x: nat, y: nat, z: nat)
    requires |bs| >= 3 && x < 128 && y < 128 && z < 128
    requires bs[0] == 0x80 + x && bs[1] == 0x80 + y && bs[2] == z
    requires x * 16384 + y * 128 + z > 0x3FFF && IsScalar(x * 16384 + y * 128 + z)
    ensures CharacterAt(bs, 0) == Ok(x * 16384 + y * 128 + z)
  {
    assert bs[0] % 128 == x && bs[1] % 128 == y;
  }

  lemma {:induction false} Digits(c: nat)
    ensures c == c / 16384 * 16384 + c / 128 % 128 * 128 + c % 128
  {
    assert c / 128 / 128 == c / 16384;
  }

  // A character that was read is exactly what its bytes say: the encoding is canonical.
  lemma {:induction false} Canonical(bs: seq<Byte>, at: nat)
    requires CharacterAt(bs, at).Ok?
    ensures var c := CharacterAt(bs, at).value;
            at + |BytesOf(c)| <= |bs| && bs[at..at + |BytesOf(c)|] == BytesOf(c)
  {
    var c := CharacterAt(bs, at).value;
    if bs[at] < 0x80 {
    } else if bs[at + 1] < 0x80 {
      var x: int := bs[at];
      assert c == (x - 128) * 128 + bs[at + 1];
    } else {
      var x: int, y: int := bs[at], bs[at + 1];
      assert c == (x - 128) * 16384 + (y - 128) * 128 + bs[at + 2];
      ThreeDigits(x - 128, y - 128, bs[at + 2]);
    }
  }

  lemma {:induction false} ThreeDigits(x: nat, y: nat, z: nat)
    requires x < 128 && y < 128 && z < 128
    ensures var c := x * 16384 + y * 128 + z;
            c / 16384 == x && c / 128 % 128 == y && c % 128 == z
  {
    var c := x * 16384 + y * 128 + z;
    assert c / 128 == x * 128 + y;
  }

  /* ---------- strings ---------- */

  predicate High(u: Unit) { 0xD800 <= u <= 0xDBFF }
  predicate Low(u: Unit) { 0xDC00 <= u <= 0xDFFF }

  // Section 2 of RFC 2781: surrogates only in pairs.
  predicate WellFormed(s: seq<Unit>) {
    if s == [] then true
    else if High(s[0]) then |s| >= 2 && Low(s[1]) && WellFormed(s[2..])
    else !Low(s[0]) && WellFormed(s[1..])
  }

  function Pair(c: Unit, d: Unit): nat
    requires High(c) && Low(d)
  {
    c % 1024 * 1024 + d % 1024 + 65536
  }

  // The code points of a well-formed string.
  function Points(s: seq<Unit>): (ps: seq<nat>)
    requires WellFormed(s)
    ensures forall p | p in ps :: IsScalar(p)
  {
    if s == [] then []
    else if High(s[0]) then [Pair(s[0], s[1])] + Points(s[2..])
    else [s[0]] + Points(s[1..])
  }

  function Prepend<T>(front: seq<T>, r: Result<seq<T>>): Result<seq<T>> {
    if r.Ok? then Ok(front + r.value) else r
  }

  // The string constructor, as one pass.
  function Encode(s: seq<Unit>): Result<seq<Byte>> {
    if s == [] then Ok([])
    else if 0xD800 <= s[0] <= 0xDFFF then
      if |s| < 2 then Err(OutOfBounds)
      else if s[0] > 0xDBFF || !Low(s[1]) then Err(BadUtf16)
      else Prepend(BytesOf(Pair(s[0], s[1])), Encode(s[2..]))
    else Prepend(BytesOf(s[0]), Encode(s[1..]))
  }

  // toString
  function Decode(bs: seq<Byte>): Result<seq<Unit>>
    decreases |bs|
  {
    if bs == [] then Ok([])
    else match CharacterAt(bs, 0)
      case Err(e) => Err(e)
      case Ok(c) =>
        Canonical(bs, 0);
        Prepend(UnitsOf(c), Decode(bs[|BytesOf(c)|..]))
  }

  // Exactly the well-formed strings can be encoded.
  lemma {:induction false} EncodesIff(s: seq<Unit>)
    ensures Encode(s).Ok? <==> WellFormed(s)
    decreases |s|
  {
    if s != [] {
      EncodesIff(s[1..]);
      if |s| >= 2 {
        EncodesIff(s[2..]);
      }
    }
  }

  // The code point of a surrogate pair, as section 2 of RFC 2781 has it.
  lemma {:induction false} PairIsStandard(c: Unit, d: Unit)
    requires High(c) && Low(d)
    ensures Pair(c, d) == 0x10000 + (c - 0xD800) * 0x400 + (d - 0xDC00)
    ensures 0x10000 <= Pair(c, d) <= 0x10FFFF
  {
    assert c % 1024 == c - 0xD800 && d % 1024 == d - 0xDC00;
  }

  lemma {:induction false} PairUnits(c: Unit, d: Unit)
    requires High(c) && Low(d)
    ensures IsScalar(Pair(c, d)) && UnitsOf(Pair(c, d)) == [c, d]
  {
    assert c % 1024 == c - 0xD800 && d % 1024 == d - 0xDC00;
    var p := Pair(c, d);
    assert (p - 0x10000) / 1024 == c - 0xD800;
    assert p % 1024 == d - 0xDC00;
  }

  // Decoding what was encoded gives the string back.
  lemma {:induction false} DecodeEncode(s: seq<Unit>)
    requires WellFormed(s)
    ensures Encode(s).Ok? && Decode(Encode(s).value) == Ok(s)
    decreases |s|
  {
    EncodesIff(s);
    if s != [] {
      var (c, w) := if High(s[0]) then (Pair(s[0], s[1]), 2) else (s[0], 1);
      if High(s[0]) {
        PairUnits(s[0], s[1]);
      }
      DecodeEncode(s[w..]);
      var rest := Encode(s[w..]).value;
      var bs := BytesOf(c) + rest;
      ReadBack(c, rest);
      assert bs[|BytesOf(c)|..] == rest;
      assert UnitsOf(c) + s[w..] == s;
    }
  }

  // Encoding what was decoded gives the bytes back.
  lemma {:induction false} EncodeDecode(bs: seq<Byte>)
    requires Decode(bs).Ok?
    ensures Encode(Decode(bs).value) == Ok(bs)
    decreases |bs|
  {
    if bs != [] {
      var c := CharacterAt(bs, 0).value;
      Canonical(bs, 0);
      var rest := bs[|BytesOf(c)|..];
      EncodeDecode(rest);
      var tail := Decode(rest).value;
      var s := UnitsOf(c) + tail;
      assert bs == BytesOf(c) + rest;
      if c < 0x10000 {
        assert s[1..] == tail;
      } else {
        assert s[2..] == tail;
        UnitsPair(c);
      }
    }
  }

  lemma {:induction false} UnitsPair(c: nat)
    requires IsScalar(c) && c >= 0x10000
    ensures var us := UnitsOf(c); High(us[0]) && Low(us[1]) && Pair(us[0], us[1]) == c
  {
    var x := (c - 0x10000) / 1024;
    assert x < 1024 && c - 0x10000 == x * 1024 + (c - 0x10000) % 1024;
    assert (c - 0x10000) % 1024 == c % 1024;
    assert (0xD800 + x) % 1024 == x && (0xDC00 + c % 1024) % 1024 == c % 1024;
  }

  /* ---------- length ---------- */

  // Section 3 of RFC 3629.
  function Utf8Size(c: nat): nat {
    if c <= 0x7F then 1 else if c <= 0x7FF then 2 else if c <= 0xFFFF then 3 else 4
  }

  function Utf8Length(ps: seq<nat>): nat {
    if ps == [] then 0 else Utf8Size(ps[0]) + Utf8Length(ps[1..])
  }

  predicate Saves(c: nat) { 0x800 <= c <= 0x3FFF || 0x10000 <= c <= 0x10FFFF }

  function Savings(ps: seq<nat>): nat {
    if ps == [] then 0 else (if Saves(ps[0]) then 1 else 0) + Savings(ps[1..])
  }

  // One byte less than UTF-8 for every character in U+0800..U+3FFF or above U+FFFF.
  lemma {:induction false} LengthByUtf8(s: seq<Unit>)
    requires WellFormed(s)
    ensures Encode(s).Ok? && |Encode(s).value| == Utf8Length(Points(s)) - Savings(Points(s))
    decreases |s|
  {
    EncodesIff(s);
    if s != [] {
      var (c, w) := if High(s[0]) then (Pair(s[0], s[1]), 2) else (s[0], 1);
      LengthByUtf8(s[w..]);
      assert Points(s) == [c] + Points(s[w..]);
      assert Points(s)[1..] == Points(s[w..]);
    }
  }

  /* ---------- hash ---------- */

  const WORD := 0x1_0000_0000

  // `sum` and `hashcode` after the given bytes, before wrapping.
  function Sum(bs: seq<Byte>): nat {
    if bs == [] then 1 else Sum(bs[..|bs| - 1]) + bs[|bs| - 1]
  }

  function Acc(bs: seq<Byte>): nat {
    if bs == [] then 0 else Acc(bs[..|bs| - 1]) + Sum(bs)
  }

  function Hash(bs: seq<Byte>): nat {
    if bs == [] then 0 else (Acc(bs) + Sum(bs) * 65536) % WORD
  }

  function Total(bs: seq<Byte>): nat {
    if bs == [] then 0 else bs[0] + Total(bs[1..])
  }

  // The first byte counts as often as there are bytes, the last one once.
  function Weighted(bs: seq<Byte>): nat {
    if bs == [] then 0 else |bs| * bs[0] + Weighted(bs[1..])
  }

  lemma {:induction false} SnocTotals(bs: seq<Byte>, b: Byte)
    ensures Total(bs + [b]) == Total(bs) + b
    ensures Weighted(bs + [b]) == Weighted(bs) + Total(bs) + b
  {
    if bs == [] {
      assert bs + [b] == [b] && [b][1..] == [];
    } else {
      SnocTotals(bs[1..], b);
      assert (bs + [b])[1..] == bs[1..] + [b];
      assert (|bs| + 1) * bs[0] == |bs| * bs[0] + bs[0];
    }
  }

  lemma {:induction false} RunningTotals(bs: seq<Byte>)
    ensures Sum(bs) == 1 + Total(bs)
    ensures Acc(bs) == |bs| + Weighted(bs)
  {
    if bs != [] {
      var front, b := bs[..|bs| - 1], bs[|bs| - 1];
      RunningTotals(front);
      SnocTotals(front, b);
      assert bs == front + [b];
    }
  }

  // The hash in closed form.
  lemma {:induction false} HashClosedForm(bs: seq<Byte>)
    requires bs != []
    ensures Hash(bs) == (|bs| + Weighted(bs) + 65536 * (1 + Total(bs))) % WORD
  {
    RunningTotals(bs);
  }

  lemma {:induction false} WrapAdd(x: int, y: int)
    ensures (x % WORD + y) % WORD == (x + y) % WORD
  {
    var q := x / WORD;
    assert x == WORD * q + x % WORD;
    Wraps(x % WORD + y, q);
  }

  lemma {:induction false} Wraps(x: int, q: int)
    ensures (WORD * q + x) % WORD == x % WORD
  {
    var r := x / WORD;
    assert x == WORD * r + x % WORD;
    assert WORD * q + x == WORD * (q + r) + x % WORD;
  }

  lemma {:induction false} WrapShift(a: int, s: int)
    ensures (a % WORD + s % WORD * 65536 % WORD) % WORD == (a + s * 65536) % WORD
  {
    WrapAdd(s % WORD * 65536, a % WORD);
    var q := s / WORD;
    assert s == WORD * q + s % WORD;
    assert s * 65536 == WORD * (q * 65536) + s % WORD * 65536;
    Wraps(s % WORD * 65536 + a % WORD, q * 65536);
    WrapAdd(a, s * 65536);
  }

  /* ---------- the object ---------- */

  class Kim {
    var bytes: array?<Byte>
    var hashcode: nat
    var length: int
    var text: Result<seq<Unit>>   // memo of toString; Err stands for none

    ghost function Content(): seq<Byte>
      reads this, bytes
    {
      if bytes == null then [] else bytes[..]
    }

    // An empty kim has no array; otherwise length, hash and memo belong to the content.
    ghost predicate Valid()
      reads this, bytes
    {
      && (if bytes == null then length <= 0 else length == bytes.Length > 0)
      && hashcode == Hash(Content())
      && (text.Ok? ==> Decode(Content()) == text)
    }

    constructor Raw(bytes: array?<Byte>, hashcode: nat, length: int)
      ensures this.bytes == bytes && this.hashcode == hashcode && this.length == length && text == Err(OutOfBounds)
    {
      this.bytes, this.hashcode, this.length, this.text := bytes, hashcode, length, Err(OutOfBounds);
    }

    // The byte-array constructor copies a stretch and hashes on the way.
    static method FromBytes(source: array<Byte>, from: int, thru: int) returns (kim: Kim)
      requires from < thru ==> 0 <= from && thru <= source.Length
      ensures fresh(kim) && kim.Valid() && kim.length == thru - from
      ensures kim.Content() == if from < thru then source[from..thru] else []
    {
      var length := thru - from;
      if length <= 0 {
        kim := new Kim.Raw(null, 0, length);
        return;
      }
      var copy := new Byte[length];
      var sum: nat, hash: nat := 1, 0;
      var at := 0;
      while at < length
        invariant 0 <= at <= length && copy[..at] == source[from..from + at]
        invariant Summed(copy[..at], sum, hash)
      {
        at, sum, hash := PutByte(copy, at, source[at + from], sum, hash);
        assert source[from..from + at] == source[from..from + at - 1] + [source[from + at - 1]];
      }
      assert copy[..at] == copy[..];
      WrapShift(Acc(copy[..]), Sum(copy[..]));
      kim := new Kim.Raw(copy, (hash + sum * 65536 % WORD) % WORD, length);
    }

    // The memoised string, whatever happened before.
    method ToString() returns (r: Result<seq<Unit>>)
      requires Valid()
      modifies `text
      ensures Valid() && r == Decode(Content()) && Content() == old(Content())
    {
      if text.Err? {
        if bytes == null {
          text := Ok([]);
        } else {
          text := DecodeBytes(bytes[..]);
          if text.Err? {
            r := text;
            text := Err(OutOfBounds);
            return;
          }
        }
      }
      return text;
    }

    // Equality of byte sequences; a different hash settles it early.
    method Equals(that: Kim) returns (b: bool)
      requires Valid() && that.Valid()
      ensures b <==> Content() == that.Content()
    {
      if this == that {
        return true;
      }
      if hashcode != that.hashcode {
        return false;
      }
      if bytes == null || that.bytes == null {
        return bytes == null && that.bytes == null;
      }
      return bytes[..] == that.bytes[..];
    }
  }

  // The two running sums after some bytes, modulo 2^32.
  ghost predicate Summed(bs: seq<Byte>, sum: nat, hash: nat) {
    sum == Sum(bs) % WORD && hash == Acc(bs) % WORD
  }

  // Store one byte and carry the two running sums on, modulo 2^32.
  method PutByte(a: array<Byte>, at: nat, b: Byte, sum: nat, hash: nat) returns (at': nat, sum': nat, hash': nat)
    requires at < a.Length
    requires Summed(a[..at], sum, hash)
    modifies a
    ensures at' == at + 1 && a[..at'] == old(a[..at]) + [b]
    ensures Summed(a[..at'], sum', hash')
  {
    ghost var was := a[..at];
    a[at] := b;
    sum' := (sum + b) % WORD;
    hash' := (hash + sum') % WORD;
    at' := at + 1;
    assert a[..at'] == was + [b];
    RunningStep(was, b);
  }

  lemma {:induction false} RunningStep(bs: seq<Byte>, b: Byte)
    ensures (Sum(bs) % WORD + b) % WORD == Sum(bs + [b]) % WORD
    ensures (Acc(bs) % WORD + Sum(bs + [b]) % WORD) % WORD == Acc(bs + [b]) % WORD
  {
    assert (bs + [b])[..|bs|] == bs;
    WrapAdd(Sum(bs), b);
    WrapAdd(Acc(bs), Sum(bs + [b]) % WORD);
    WrapAdd(Sum(bs + [b]), Acc(bs));
  }

  // First pass: the length of the encoding, or what is wrong with the string.
  method Measure(s: seq<Unit>) returns (r: Result<nat>)
    ensures match Encode(s) case Ok(bs) => r == Ok(|bs|) case Err(e) => r == Err(e)
  {
    var length := 0;
    var i := 0;
    ghost var done: seq<Byte> := [];
    StartPass(s);
    while i < |s|
      invariant 0 <= i <= |s| && |done| == length
      invariant Encode(s) == Prepend(done, Encode(s[i..]))
    {
      var c := s[i];
      ghost var rest := s[i..];
      if c <= 0x7F {
        length := length + 1;
        Consumed(done, rest, 1);
        done := done + BytesOf(c);
      } else if c <= 0x3FFF {
        length := length + 2;
        Consumed(done, rest, 1);
        done := done + BytesOf(c);
      } else {
        if 0xD800 <= c <= 0xDFFF {
          i := i + 1;
          if i >= |s| {
            return Err(OutOfBounds);
          }
          var d := s[i];
          if c > 0xDBFF || d < 0xDC00 || d > 0xDFFF {
            return Err(BadUtf16);
          }
          Consumed(done, rest, 2);
          done := done + BytesOf(Pair(c, d));
        } else {
          Consumed(done, rest, 1);
          done := done + BytesOf(c);
        }
        length := length + 3;
      }
      i := i + 1;
    }
    return Ok(length);
  }

  // Moving over one character moves its bytes from the rest to what is done.
  lemma {:induction false} Consumed(done: seq<Byte>, rest: seq<Unit>, w: nat)
    requires rest != [] && w <= |rest|
    requires if 0xD800 <= rest[0] <= 0xDFFF then w == 2 && High(rest[0]) && Low(rest[1]) else w == 1
    ensures var c := if w == 2 then Pair(rest[0], rest[1]) else rest[0];
            Prepend(done, Encode(rest)) == Prepend(done + BytesOf(c), Encode(rest[w..]))
  {
    var c := if w == 2 then Pair(rest[0], rest[1]) else rest[0];
    if Encode(rest[w..]).Ok? {
      assert done + (BytesOf(c) + Encode(rest[w..]).value) == done + BytesOf(c) + Encode(rest[w..]).value;
    }
  }

  lemma {:induction false} StartPass(s: seq<Unit>)
    ensures Encode(s) == Prepend([], Encode(s[0..]))
  {
    assert s[0..] == s;
    if Encode(s).Ok? {
      assert [] + Encode(s).value == Encode(s).value;
    }
  }

  // Second pass: fill an array of exactly the measured length, hashing on the way.
  method Fill(s: seq<Unit>, a: array<Byte>) returns (sum: nat, hash: nat)
    requires Encode(s).Ok? && a.Length == |Encode(s).value|
    modifies a
    ensures a[..] == Encode(s).value
    ensures Summed(a[..], sum, hash)
  {
    sum, hash := 1, 0;
    var at, i := 0, 0;
    ghost var goal := Encode(s);
    StartPass(s);
    while i < |s|
      invariant 0 <= i <= |s| && 0 <= at <= a.Length
      invariant Encode(s[i..]).Ok? && goal == Ok(a[..at] + Encode(s[i..]).value)
      invariant Summed(a[..at], sum, hash)
    {
      ghost var rest, was := s[i..], a[..at];
      var character: nat := s[i];
      if High(s[i]) {
        Consumed(was, rest, 2);
        i := i + 1;
        character := Pair(s[i - 1], s[i]);
      } else {
        Consumed(was, rest, 1);
      }
      at, sum, hash := PutCharacter(a, at, character, sum, hash);
      i := i + 1;
    }
    assert a[..at] == a[..];
  }

  // The bytes of one character, most significant first.
  method PutCharacter(a: array<Byte>, at: nat, c: nat, sum: nat, hash: nat) returns (at': nat, sum': nat, hash': nat)
    requires c <= 0x10FFFF && at + |BytesOf(c)| <= a.Length
    requires Summed(a[..at], sum, hash)
    modifies a
    ensures at' == at + |BytesOf(c)| && a[..at'] == old(a[..at]) + BytesOf(c)
    ensures Summed(a[..at'], sum', hash')
  {
    if c <= 0x7F {
      at', sum', hash' := PutByte(a, at, c, sum, hash);
    } else if c <= 0x3FFF {
      at', sum', hash' := PutByte(a, at, 0x80 + c / 128, sum, hash);
      at', sum', hash' := PutByte(a, at', c % 128, sum', hash');
    } else {
      ghost var was := a[..at];
      var x: Byte, y: Byte, z: Byte := 0x80 + c / 16384, 0x80 + c / 128 % 128, c % 128;
      at', sum', hash' := PutByte(a, at, x, sum, hash);
      at', sum', hash' := PutByte(a, at', y, sum', hash');
      at', sum', hash' := PutByte(a, at', z, sum', hash');
      assert was + [x] + [y] + [z] == was + [x, y, z];
    }
  }

  // The string constructor: measure, allocate, fill.
  method FromString(s: seq<Unit>) returns (r: Result<Kim>)
    ensures r.Ok? <==> WellFormed(s)
    ensures r.Ok? ==> fresh(r.value) && r.value.Valid() && Ok(r.value.Content()) == Encode(s)
    ensures r.Err? ==> Encode(s) == Err(r.error)
  {
    EncodesIff(s);
    if |s| == 0 {
      var kim := new Kim.Raw(null, 0, 0);
      return Ok(kim);
    }
    var length := Measure(s);
    if length.Err? {
      return Err(length.error);
    }
    EncodingNonEmpty(s);
    var bytes := new Byte[length.value];
    var sum, hash := Fill(s, bytes);
    WrapShift(Acc(bytes[..]), Sum(bytes[..]));
    var kim := new Kim.Raw(bytes, (hash + sum * 65536 % WORD) % WORD, length.value);
    return Ok(kim);
  }

  lemma {:induction false} EncodingNonEmpty(s: seq<Unit>)
    requires s != [] && Encode(s).Ok?
    ensures Encode(s).value != []
  {
  }

  // toString into a buffer of as many units as there are bytes: it never overflows.
  method DecodeBytes(bs: seq<Byte>) returns (r: Result<seq<Unit>>)
    ensures r == Decode(bs)
  {
    var chars := new Unit[|bs|];
    var length, at := 0, 0;
    Prepended([], bs);
    while at < |bs|
      invariant 0 <= length <= at <= |bs|
      invariant Decode(bs) == Prepend(chars[..length], Decode(bs[at..]))
      decreases |bs| - at
    {
      var character := CharacterAt(bs, at);
      DecodedOne(chars[..length], bs, at);
      if character.Err? {
        return Err(character.error);
      }
      length := PutUnits(chars, length, character.value);
      at := at + SizeOf(character.value).value;
    }
    DecodedAll(chars[..length], bs);
    return Ok(chars[..length]);
  }

  method PutUnits(chars: array<Unit>, length: nat, c: nat) returns (length': nat)
    requires IsScalar(c) && length + |UnitsOf(c)| <= chars.Length
    modifies chars
    ensures length' == length + |UnitsOf(c)| && chars[..length'] == old(chars[..length]) + UnitsOf(c)
  {
    length' := length;
    if c < 0x10000 {
      chars[length'] := c;
      length' := length' + 1;
    } else {
      chars[length'] := 0xD800 + (c - 0x10000) / 1024;
      length' := length' + 1;
      chars[length'] := 0xDC00 + c % 1024;
      length' := length' + 1;
    }
  }

  lemma {:induction false} Prepended(front: seq<Unit>, bs: seq<Byte>)
    ensures front == [] ==> Prepend(front, Decode(bs[0..])) == Decode(bs)
  {
    assert bs[0..] == bs;
    var r := Decode(bs);
    if r.Ok? && front == [] {
      assert front + r.value == r.value;
    }
  }

  lemma {:induction false} DecodedAll(front: seq<Unit>, bs: seq<Byte>)
    ensures Prepend(front, Decode(bs[|bs|..])) == Ok(front)
  {
    assert bs[|bs|..] == [];
    assert front + [] == front;
  }

  // Reading at an offset is reading at the start of the rest.
  lemma {:induction false} AtOffset(bs: seq<Byte>, at: nat)
    requires at < |bs|
    ensures CharacterAt(bs, at) == CharacterAt(bs[at..], 0)
  {
    assert Get(bs, at) == Get(bs[at..], 0);
    assert Get(bs, at + 1) == Get(bs[at..], 1);
    if |bs| > at + 1 {
      assert Get(bs, at + 2) == Get(bs[at..], 2);
    }
  }

  lemma {:induction false} PrependTwice<T>(a: seq<T>, b: seq<T>, r: Result<seq<T>>)
    ensures Prepend(a, Prepend(b, r)) == Prepend(a + b, r)
  {
    if r.Ok? {
      assert a + (b + r.value) == a + b + r.value;
    }
  }

  lemma {:induction false} DecodeHead(bs: seq<Byte>, c: nat)
    requires bs != [] && CharacterAt(bs, 0) == Ok(c)
    ensures |BytesOf(c)| <= |bs| && Decode(bs) == Prepend(UnitsOf(c), Decode(bs[|BytesOf(c)|..]))
    ensures |UnitsOf(c)| <= |BytesOf(c)| && SizeOf(c) == Ok(|BytesOf(c)|)
  {
    Canonical(bs, 0);
  }

  // Decoding at an offset: the error there, or one character moved to the front.
  lemma {:induction false} DecodedOne(front: seq<Unit>, bs: seq<Byte>, at: nat)
    requires at < |bs|
    ensures match CharacterAt(bs, at)
            case Err(e) => Prepend(front, Decode(bs[at..])) == Err(e)
            case Ok(c) =>
              && at + |BytesOf(c)| <= |bs| && |UnitsOf(c)| <= |BytesOf(c)| && SizeOf(c) == Ok(|BytesOf(c)|)
              && Prepend(front, Decode(bs[at..])) == Prepend(front + UnitsOf(c), Decode(bs[at + |BytesOf(c)|..]))
  {
    var tail := bs[at..];
    AtOffset(bs, at);
    match CharacterAt(tail, 0)
    case Err(_) =>
    case Ok(c) =>
      DecodeHead(tail, c);
      var rest := tail[|BytesOf(c)|..];
      assert rest == bs[at + |BytesOf(c)|..];
      PrependTwice(front, UnitsOf(c), Decode(rest));
  }
}
