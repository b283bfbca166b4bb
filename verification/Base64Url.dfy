/** The URL-safe alphabet of section 5 of RFC 4648 without padding, as Buffer writes and reads it. */
module Base64Url {
  import opened Wrappers

  type Byte = b: int | 0 <= b < 256
  type Sextet = v: int | 0 <= v < 64

  function Digit(v: Sextet): char {
    if v < 26 then 'A' + v as char
    else if v < 52 then 'a' + (v - 26) as char
    else if v < 62 then '0' + (v - 52) as char
    else if v == 62 then '-'
    else '_'
  }

  /** The reader takes the standard alphabet as well. */
  function Value(c: char): Option<Sextet> {
    if 'A' <= c <= 'Z' then Some(c as int - 'A' as int)
    else if 'a' <= c <= 'z' then Some(c as int - 'a' as int + 26)
    else if '0' <= c <= '9' then Some(c as int - '0' as int + 52)
    else if c == '-' || c == '+' then Some(62)
    else if c == '_' || c == '/' then Some(63)
    else None
  }

  /** Three bytes are four sextets; one or two left over are two or three, filled up with zero bits. */
  function Sextets(bytes: seq<Byte>): seq<Sextet> {
    if |bytes| == 0 then []
    else if |bytes| == 1 then [bytes[0] / 4, bytes[0] % 4 * 16]
    else if |bytes| == 2 then [bytes[0] / 4, bytes[0] % 4 * 16 + bytes[1] / 16, bytes[1] % 16 * 4]
    else
      [bytes[0] / 4, bytes[0] % 4 * 16 + bytes[1] / 16, bytes[1] % 16 * 4 + bytes[2] / 64, bytes[2] % 64]
      + Sextets(bytes[3..])
  }

  function First(a: int, b: int): int {
    a * 4 + b / 16
  }

  function Second(b: int, c: int): int {
    b % 16 * 16 + c / 4
  }

  function Third(c: int, d: int): int {
    c % 4 * 64 + d
  }

  /** A lone last sextet is dropped, and so are the bits that fill up no byte. */
  function Bytes(s: seq<Sextet>): seq<Byte> {
    if |s| < 2 then []
    else if |s| == 2 then [First(s[0], s[1])]
    else if |s| == 3 then [First(s[0], s[1]), Second(s[1], s[2])]
    else [First(s[0], s[1]), Second(s[1], s[2]), Third(s[2], s[3])] + Bytes(s[4..])
  }

  function Digits(sextets: seq<Sextet>): (s: string)
    ensures |s| == |sextets| && forall k :: 0 <= k < |s| ==> s[k] == Digit(sextets[k])
  {
    if sextets == [] then [] else [Digit(sextets[0])] + Digits(sextets[1..])
  }

  /** Characters of neither alphabet are skipped. */
  function Values(s: string): seq<Sextet> {
    if s == [] then [] else (if Value(s[0]).Some? then [Value(s[0]).value] else []) + Values(s[1..])
  }

  function Encode(bytes: seq<Byte>): string {
    Digits(Sextets(bytes))
  }

  function Decode(s: string): seq<Byte> {
    Bytes(Values(s))
  }

  predicate UrlSafe(c: char) {
    'A' <= c <= 'Z' || 'a' <= c <= 'z' || '0' <= c <= '9' || c == '-' || c == '_'
  }

  lemma DigitAndValue(v: Sextet, c: char)
    ensures UrlSafe(Digit(v)) && Value(Digit(v)) == Some(v)
    ensures UrlSafe(c) ==> Value(c).Some? && Digit(Value(c).value) == c
    ensures !UrlSafe(c) ==> Value(c) == if c == '+' then Some(62) else if c == '/' then Some(63) else None
  {
  }

  lemma {:induction false} ValuesOfDigits(sextets: seq<Sextet>)
    ensures Values(Digits(sextets)) == sextets
  {
    if sextets != [] {
      var s := Digits(sextets);
      DigitAndValue(sextets[0], s[0]);
      assert s[1..] == Digits(sextets[1..]);
      ValuesOfDigits(sextets[1..]);
    }
  }

  lemma ApartJoined(x: Byte, y: Byte, z: Byte)
    ensures First(x / 4, x % 4 * 16 + y / 16) == x
    ensures Second(x % 4 * 16 + y / 16, y % 16 * 4 + z / 64) == y
    ensures Third(y % 16 * 4 + z / 64, z % 64) == z
  {
  }

  lemma {:induction false} BytesOfSextets(bytes: seq<Byte>)
    ensures Bytes(Sextets(bytes)) == bytes
    ensures |Sextets(bytes)| == (4 * |bytes| + 2) / 3
  {
    if |bytes| >= 3 {
      BytesOfSextets(bytes[3..]);
      ApartJoined(bytes[0], bytes[1], bytes[2]);
      assert Sextets(bytes)[4..] == Sextets(bytes[3..]);
      assert bytes == bytes[..3] + bytes[3..];
    }
  }

  /** Decoding undoes encoding, and what is encoded is text for a URL of the least length that holds the bits. */
  lemma DecodeUndoesEncode(bytes: seq<Byte>)
    ensures Decode(Encode(bytes)) == bytes
    ensures |Encode(bytes)| == (4 * |bytes| + 2) / 3
    ensures forall c :: c in Encode(bytes) ==> UrlSafe(c)
  {
    BytesOfSextets(bytes);
    ValuesOfDigits(Sextets(bytes));
    forall k | 0 <= k < |Encode(bytes)| ensures UrlSafe(Encode(bytes)[k]) {
      DigitAndValue(Sextets(bytes)[k], 'A');
    }
  }

  // -------------------------------------------------------------------- the other direction

  /** No lone last sextet, and no bit set that fills up no byte. */
  predicate Whole(sextets: seq<Sextet>) {
    var n := |sextets|;
    && n % 4 != 1
    && (n % 4 == 2 ==> sextets[n - 1] % 16 == 0)
    && (n % 4 == 3 ==> sextets[n - 1] % 4 == 0)
  }

  lemma FourLess(n: nat)
    requires n >= 4
    ensures n % 4 == (n - 4) % 4
  {
  }

  lemma WholeRest(s: seq<Sextet>)
    requires |s| >= 4
    ensures Whole(s) <==> Whole(s[4..])
  {
    FourLess(|s|);
    assert |s| > 4 ==> s[4..][|s| - 5] == s[|s| - 1];
  }

  lemma JoinedApart(a: Sextet, b: Sextet)
    ensures First(a, b) / 4 == a && First(a, b) % 4 == b / 16
    ensures Second(a, b) / 16 == a % 16 && Second(a, b) % 16 == b / 4
    ensures Third(a, b) / 64 == a % 4 && Third(a, b) % 64 == b
  {
  }

  lemma GroupBack(a: Sextet, b: Sextet, c: Sextet, d: Sextet)
    ensures Sextets([First(a, b), Second(b, c), Third(c, d)]) == [a, b, c, d]
  {
    JoinedApart(a, b);
    JoinedApart(b, c);
    JoinedApart(c, d);
  }

  lemma GroupApart(bytes: seq<Byte>, rest: seq<Byte>)
    requires |bytes| == 3
    ensures Sextets(bytes + rest) == Sextets(bytes) + Sextets(rest)
  {
    assert (bytes + rest)[3..] == rest;
  }

  lemma LowBits(b: Sextet)
    ensures (b / 16 * 16 == b <==> b % 16 == 0) && (b / 4 * 4 == b <==> b % 4 == 0)
  {
  }

  lemma {:induction false} SextetsOfBytes(s: seq<Sextet>)
    ensures Sextets(Bytes(s)) == s <==> Whole(s)
  {
    if |s| == 2 {
      JoinedApart(s[0], s[1]);
      LowBits(s[1]);
    } else if |s| == 3 {
      JoinedApart(s[0], s[1]);
      JoinedApart(s[1], s[2]);
      LowBits(s[2]);
    } else if |s| >= 4 {
      SextetsOfBytes(s[4..]);
      WholeRest(s);
      GroupBack(s[0], s[1], s[2], s[3]);
      GroupApart([First(s[0], s[1]), Second(s[1], s[2]), Third(s[2], s[3])], Bytes(s[4..]));
      assert s[..4] == [s[0], s[1], s[2], s[3]];
      SameFront(s[..4], Sextets(Bytes(s[4..])), s[4..]);
      assert s == s[..4] + s[4..];
    }
  }

  lemma DigitsSnug(v: Sextet, rest: seq<Sextet>)
    ensures Digits([v] + rest) == [Digit(v)] + Digits(rest)
  {
    assert ([v] + rest)[1..] == rest;
  }

  lemma {:induction false} DigitsOfValues(s: string)
    ensures Digits(Values(s)) == s <==> forall c :: c in s ==> UrlSafe(c)
    ensures |Values(s)| <= |s|
  {
    if s != [] {
      var rest := s[1..];
      DigitsOfValues(rest);
      assert s == [s[0]] + rest;
      assert (forall c :: c in s ==> UrlSafe(c)) <==> UrlSafe(s[0]) && forall c :: c in rest ==> UrlSafe(c);
      if Value(s[0]).Some? {
        var v := Value(s[0]).value;
        DigitAndValue(v, s[0]);
        DigitsSnug(v, Values(rest));
        SameFront([s[0]], Digits(Values(rest)), rest);
        assert Values(s) == [v] + Values(rest);
      } else {
        DigitAndValue(0, s[0]);
        assert |Digits(Values(s))| < |s|;
      }
    }
  }

  /** A text is what encoding some bytes gives exactly when it is URL-safe, has no lone last digit and no stray bits. */
  lemma EncodeUndoesDecodeIff(s: string)
    ensures Encode(Decode(s)) == s <==> (forall c :: c in s ==> UrlSafe(c)) && Whole(Values(s))
  {
    DigitsOfValues(s);
    SextetsOfBytes(Values(s));
    if Encode(Decode(s)) == s {
      DecodeUndoesEncode(Decode(s));
      ValuesOfDigits(Sextets(Decode(s)));
    }
  }

  // ------------------------------------------------------------ what the text says

  /** Where a character stands in the alphabet: upper case, lower case, digits, hyphen, underscore. */
  function Place(c: char): int {
    if 'A' <= c <= 'Z' then c as int - 65
    else if 'a' <= c <= 'z' then c as int - 71
    else if '0' <= c <= '9' then c as int + 4
    else if c == '-' then 62
    else 63
  }

  function Places(s: string): (ps: seq<int>)
    ensures |ps| == |s| && forall k :: 0 <= k < |s| ==> ps[k] == Place(s[k])
  {
    seq(|s|, k requires 0 <= k < |s| => Place(s[k]))
  }

  /** The number that digits write in a base, the first one the highest, behind those that write acc. */
  function Number(digits: seq<int>, base: int, acc: int): int {
    if digits == [] then acc else Number(digits[1..], base, acc * base + digits[0])
  }

  /** How far zero bits fill up the last sextet. */
  function Fill(n: nat): int {
    if n % 3 == 1 then 16 else if n % 3 == 2 then 4 else 1
  }

  lemma NumberStep(x: int, rest: seq<int>, base: int, acc: int)
    ensures Number([x] + rest, base, acc) == Number(rest, base, acc * base + x)
  {
    assert ([x] + rest)[1..] == rest;
  }

  lemma NumberOfTwo(a: int, b: int, rest: seq<int>, base: int, acc: int)
    ensures Number([a, b] + rest, base, acc) == Number(rest, base, (acc * base + a) * base + b)
  {
    NumberStep(a, [b] + rest, base, acc);
    NumberStep(b, rest, base, acc * base + a);
    assert [a, b] + rest == [a] + ([b] + rest);
  }

  lemma NumberOfThree(a: int, b: int, c: int, rest: seq<int>, base: int, acc: int)
    ensures Number([a, b, c] + rest, base, acc) == Number(rest, base, ((acc * base + a) * base + b) * base + c)
  {
    NumberStep(a, [b, c] + rest, base, acc);
    NumberOfTwo(b, c, rest, base, acc * base + a);
    assert [a, b, c] + rest == [a] + ([b, c] + rest);
  }

  lemma NumberOfFour(a: int, b: int, c: int, d: int, rest: seq<int>, base: int, acc: int)
    ensures Number([a, b, c, d] + rest, base, acc) ==
            Number(rest, base, (((acc * base + a) * base + b) * base + c) * base + d)
  {
    NumberStep(a, [b, c, d] + rest, base, acc);
    NumberOfThree(b, c, d, rest, base, acc * base + a);
    assert [a, b, c, d] + rest == [a] + ([b, c, d] + rest);
  }

  lemma SameGroup(a: Byte, b: Byte, c: Byte, acc: int)
    ensures (((acc * 64 + a / 4) * 64 + (a % 4 * 16 + b / 16)) * 64 + (b % 16 * 4 + c / 64)) * 64 + c % 64 ==
            ((acc * 256 + a) * 256 + b) * 256 + c
  {
  }

  lemma SameShortNumber(bytes: seq<Byte>, acc: int)
    requires |bytes| < 3
    ensures Number(Sextets(bytes), 64, acc) == Number(bytes, 256, acc) * Fill(|bytes|)
  {
    if |bytes| == 2 {
      var a, b := bytes[0], bytes[1];
      NumberOfTwo(a, b, [], 256, acc);
      NumberOfThree(a / 4, a % 4 * 16 + b / 16, b % 16 * 4, [], 64, acc);
      assert bytes == [a, b] + [];
      assert Sextets(bytes) == [a / 4, a % 4 * 16 + b / 16, b % 16 * 4] + [];
    } else if |bytes| == 1 {
      var a := bytes[0];
      NumberStep(a, [], 256, acc);
      NumberOfTwo(a / 4, a % 4 * 16, [], 64, acc);
      assert bytes == [a] + [];
      assert Sextets(bytes) == [a / 4, a % 4 * 16] + [];
    }
  }

  lemma ThreeMore(n: nat)
    ensures Fill(n + 3) == Fill(n)
  {
  }

  /** The sextets write the number that the bytes write, filled up. */
  lemma {:induction false} SameNumber(bytes: seq<Byte>, acc: int)
    ensures Number(Sextets(bytes), 64, acc) == Number(bytes, 256, acc) * Fill(|bytes|)
  {
    if |bytes| >= 3 {
      var a, b, c, rest := bytes[0], bytes[1], bytes[2], bytes[3..];
      var after := ((acc * 256 + a) * 256 + b) * 256 + c;
      SameNumber(rest, after);
      assert Number(bytes, 256, acc) == Number(rest, 256, after) by {
        NumberOfThree(a, b, c, rest, 256, acc);
        assert bytes == [a, b, c] + rest;
      }
      assert Number(Sextets(bytes), 64, acc) == Number(Sextets(rest), 64, after) by {
        NumberOfFour(a / 4, a % 4 * 16 + b / 16, b % 16 * 4 + c / 64, c % 64, Sextets(rest), 64, acc);
        SameGroup(a, b, c, acc);
      }
      ThreeMore(|rest|);
    } else {
      SameShortNumber(bytes, acc);
    }
  }

  lemma PlaceOfDigit(v: Sextet)
    ensures Place(Digit(v)) == v
  {
  }

  /** An encoded text, read digit by digit in the alphabet of section 5 of RFC 4648, is the number the bytes are. */
  lemma EncodeSpellsNumber(bytes: seq<Byte>)
    ensures Number(Places(Encode(bytes)), 64, 0) == Number(bytes, 256, 0) * Fill(|bytes|)
  {
    SameNumber(bytes, 0);
    forall k | 0 <= k < |Sextets(bytes)| ensures Places(Encode(bytes))[k] == Sextets(bytes)[k] {
      PlaceOfDigit(Sextets(bytes)[k]);
    }
    assert Places(Encode(bytes)) == Sextets(bytes);
  }
}
