/** Unpadded base64url, sections 3.5 and 5 of RFC 4648, as `Buffer` reads and writes it. */
module Base64url {
  import opened Text

  function Digit64(v: nat): (c: char)
    requires v < 64
    ensures IsBase64urlChar(c)
  {
    if v < 26 then ('A' as int + v) as char
    else if v < 52 then ('a' as int + v - 26) as char
    else if v < 62 then ('0' as int + v - 52) as char
    else if v == 62 then '-' else '_'
  }

  function Value64(c: char): (v: nat)
    requires IsBase64urlChar(c)
    ensures v < 64
  {
    if 'A' <= c <= 'Z' then c as int - 'A' as int
    else if 'a' <= c <= 'z' then c as int - 'a' as int + 26
    else if '0' <= c <= '9' then c as int - '0' as int + 52
    else if c == '-' then 62 else 63
  }

  type sextet = v: int | 0 <= v < 64

  /** Three bytes as four groups of six bits. */
  function First(a: byte): sextet { a / 4 }
  function Second(a: byte, b: byte): sextet { a % 4 * 16 + b / 16 }
  function Third(b: byte, c: byte): sextet { b % 16 * 4 + c / 64 }
  function Fourth(c: byte): sextet { c % 64 }

  function Sextets(bytes: seq<byte>): seq<sextet> {
    if bytes == [] then []
    else if |bytes| == 1 then [First(bytes[0]), Second(bytes[0], 0)]
    else if |bytes| == 2 then [First(bytes[0]), Second(bytes[0], bytes[1]), Third(bytes[1], 0)]
    else
      [First(bytes[0]), Second(bytes[0], bytes[1]), Third(bytes[1], bytes[2]), Fourth(bytes[2])] + Sextets(bytes[3..])
  }

  function Byte0(v: sextet, w: sextet): byte { v * 4 + w / 16 }
  function Byte1(w: sextet, x: sextet): byte { w % 16 * 16 + x / 4 }
  function Byte2(x: sextet, y: sextet): byte { x % 4 * 64 + y }

  /** Surplus bits, and a lone last group, are dropped. */
  function Bytes(v: seq<sextet>): seq<byte> {
    if |v| < 2 then []
    else if |v| == 2 then [Byte0(v[0], v[1])]
    else if |v| == 3 then [Byte0(v[0], v[1]), Byte1(v[1], v[2])]
    else [Byte0(v[0], v[1]), Byte1(v[1], v[2]), Byte2(v[2], v[3])] + Bytes(v[4..])
  }

  predicate IsBase64url(s: string) {
    forall i :: 0 <= i < |s| ==> IsBase64urlChar(s[i])
  }

  /** `toString("base64url")`. */
  function Encode(bytes: seq<byte>): (s: string)
    ensures |s| == |Sextets(bytes)| && IsBase64url(s)
  {
    var v := Sextets(bytes);
    seq(|v|, i requires 0 <= i < |v| => Digit64(v[i]))
  }

  /** `Buffer.from(s, "base64url")`. */
  function Decode(s: string): seq<byte>
    requires IsBase64url(s)
  {
    Bytes(seq(|s|, i requires 0 <= i < |s| => Value64(s[i])))
  }

  /** Four characters for three bytes, rounded up. */
  function EncodedLength(n: nat): nat {
    (n * 4 + 2) / 3
  }

  lemma {:induction false} EncodeLength(bytes: seq<byte>)
    ensures |Encode(bytes)| == EncodedLength(|bytes|)
  {
    if |bytes| >= 3 {
      EncodeLength(bytes[3..]);
      assert EncodedLength(|bytes|) == 4 + EncodedLength(|bytes| - 3);
    }
  }

  /** Eight bits split over two groups come together again. */
  lemma SplitBytes(a: byte, b: byte, c: byte)
    ensures Byte0(First(a), Second(a, b)) == a
    ensures Byte1(Second(a, b), Third(b, c)) == b
    ensures Byte2(Third(b, c), Fourth(c)) == c
  {
    assert Second(a, b) / 16 == a % 4 && Second(a, b) % 16 == b / 16;
    assert Third(b, c) / 4 == b % 16 && Third(b, c) % 4 == c / 64;
  }

  lemma GroupOfBytes(a: byte, b: byte, c: byte, v: seq<sextet>, rest: seq<sextet>)
    requires v == [First(a), Second(a, b), Third(b, c), Fourth(c)] + rest
    ensures Bytes(v) == [a, b, c] + Bytes(rest)
  {
    SplitBytes(a, b, c);
    assert v[4..] == rest;
  }

  lemma LastByte(a: byte, z: byte, v: seq<sextet>)
    requires v == [First(a), Second(a, z)]
    ensures Bytes(v) == [a]
  {
    SplitBytes(a, z, z);
  }

  lemma LastBytes(a: byte, b: byte, z: byte, v: seq<sextet>)
    requires v == [First(a), Second(a, b), Third(b, z)]
    ensures Bytes(v) == [a, b]
  {
    SplitBytes(a, b, z);
  }

  lemma {:induction false} BytesOfSextets(bytes: seq<byte>)
    ensures Bytes(Sextets(bytes)) == bytes
  {
    if |bytes| >= 3 {
      var rest := bytes[3..];
      BytesOfSextets(rest);
      GroupOfBytes(bytes[0], bytes[1], bytes[2], Sextets(bytes), Sextets(rest));
      assert bytes == [bytes[0], bytes[1], bytes[2]] + rest;
    } else if |bytes| == 2 {
      LastBytes(bytes[0], bytes[1], 0, Sextets(bytes));
    } else if |bytes| == 1 {
      LastByte(bytes[0], 0, Sextets(bytes));
    }
  }

  lemma DigitsAreValues(v: sextet)
    ensures Value64(Digit64(v)) == v
  {
  }

  lemma DecodeOfEncode(bytes: seq<byte>)
    ensures Decode(Encode(bytes)) == bytes
  {
    var v, s := Sextets(bytes), Encode(bytes);
    forall i | 0 <= i < |v| ensures Value64(s[i]) == v[i] {
      DigitsAreValues(v[i]);
    }
    assert seq(|s|, i requires 0 <= i < |s| => Value64(s[i])) == v;
    BytesOfSextets(bytes);
  }

  /** The check of a field that spells between `minimum` and `maximum` bytes. */
  predicate IsCanonical(value: string, minimum: nat, maximum: nat) {
    && EncodedLength(minimum) <= |value| <= EncodedLength(maximum)
    && value != "" && IsBase64url(value)
    && minimum <= |Decode(value)| <= maximum
    && Encode(Decode(value)) == value
  }

  /** A field is accepted exactly when it is the encoding of that many bytes; which it
      spells uniquely. */
  lemma CanonicalIsEncoded(value: string, minimum: nat, maximum: nat)
    requires minimum > 0
    ensures IsCanonical(value, minimum, maximum) <==>
            exists bytes: seq<byte> :: minimum <= |bytes| <= maximum && Encode(bytes) == value
  {
    if IsCanonical(value, minimum, maximum) {
      assert Encode(Decode(value)) == value;
    }
    if bytes: seq<byte> :| minimum <= |bytes| <= maximum && Encode(bytes) == value {
      EncodeLength(bytes);
      DecodeOfEncode(bytes);
    }
  }
}
