/** The encryption keys the Full recipient directory refuses, and why a literal
    list of seven encodings together with the high-bit test is enough. A key is
    64 lowercase hex digits: 32 bytes, read little-endian with the top bit masked
    and reduced modulo 2^255 - 19 (section 5 of RFC 7748). */
module X25519Keys {
  import opened Text

  // --- hex and bytes ---------------------------------------------------------

  function HexByte(hi: char, lo: char): (b: byte)
    requires IsLowerHexDigit(hi) && IsLowerHexDigit(lo)
  {
    16 * HexValue(hi) + HexValue(lo)
  }

  /** The bytes a string of `2 * n` lowercase hex digits spells. */
  function HexBytes(s: string, n: nat): (bytes: seq<byte>)
    requires IsLowerHex(s, 2 * n)
    ensures |bytes| == n
    ensures forall i :: 0 <= i < n ==> bytes[i] == HexByte(s[2 * i], s[2 * i + 1])
  {
    seq(n, i requires 0 <= i < n => HexByte(s[2 * i], s[2 * i + 1]))
  }

  lemma HexByteIsInjective(a: char, b: char, c: char, d: char)
    requires IsLowerHexDigit(a) && IsLowerHexDigit(b) && IsLowerHexDigit(c) && IsLowerHexDigit(d)
    requires HexByte(a, b) == HexByte(c, d)
    ensures a == c && b == d
  {
    assert HexValue(a) == HexValue(c);
  }

  lemma HexBytesIsInjective(s: string, t: string, n: nat)
    requires IsLowerHex(s, 2 * n) && IsLowerHex(t, 2 * n) && HexBytes(s, n) == HexBytes(t, n)
    ensures s == t
  {
    forall k | 0 <= k < 2 * n ensures s[k] == t[k] {
      var i := k / 2;
      assert HexBytes(s, n)[i] == HexBytes(t, n)[i];
      HexByteIsInjective(s[2 * i], s[2 * i + 1], t[2 * i], t[2 * i + 1]);
    }
  }

  // --- little-endian numbers -------------------------------------------------

  function Pow256(n: nat): (r: nat)
    ensures r > 0
  {
    if n == 0 then 1 else 256 * Pow256(n - 1)
  }

  function LittleEndian(bytes: seq<byte>): nat {
    if bytes == [] then 0 else bytes[0] + 256 * LittleEndian(bytes[1..])
  }

  lemma {:induction false} LittleEndianIsInjective(s: seq<byte>, t: seq<byte>)
    requires |s| == |t| && LittleEndian(s) == LittleEndian(t)
    ensures s == t
  {
    if s != [] {
      LittleEndianIsInjective(s[1..], t[1..]);
      assert s == [s[0]] + s[1..] && t == [t[0]] + t[1..];
    }
  }

  lemma {:induction false} LittleEndianIsBounded(s: seq<byte>)
    ensures LittleEndian(s) < Pow256(|s|)
  {
    if s != [] {
      LittleEndianIsBounded(s[1..]);
    }
  }

  lemma {:induction false} LittleEndianOfAppend(s: seq<byte>, last: byte)
    ensures LittleEndian(s + [last]) == LittleEndian(s) + last * Pow256(|s|)
  {
    if s == [] {
      assert s + [last] == [last] && [last][1..] == [];
    } else {
      var rest, p := s[1..], Pow256(|s| - 1);
      LittleEndianOfAppend(rest, last);
      assert (s + [last])[1..] == rest + [last];
      assert 256 * (LittleEndian(rest) + last * p) == 256 * LittleEndian(rest) + last * (256 * p);
    }
  }

  /** `n` equal bytes. */
  function Fill<T>(x: T, n: nat): (r: seq<T>)
    ensures |r| == n
  {
    seq(n, _ => x)
  }

  lemma {:induction false} LittleEndianOfFill(n: nat)
    ensures LittleEndian(Fill<byte>(0, n)) == 0 && LittleEndian(Fill<byte>(255, n)) == Pow256(n) - 1
  {
    if n > 0 {
      LittleEndianOfFill(n - 1);
      assert Fill<byte>(0, n)[1..] == Fill<byte>(0, n - 1) && Fill<byte>(255, n)[1..] == Fill<byte>(255, n - 1);
    }
  }

  // --- field elements --------------------------------------------------------

  ghost function Two248(): nat { Pow256(31) }

  ghost function Two255(): nat { 128 * Two248() }

  /** The prime 2^255 - 19. */
  ghost function Prime(): int { Two255() - 19 }

  lemma Magnitude()
    ensures Two248() >= 256 && Prime() >= 20
  {
    assert Pow256(31) == 256 * Pow256(30);
  }

  /** The number a key spells. */
  ghost function Value(key: string): nat
    requires IsLowerHex(key, 64)
  {
    LittleEndian(HexBytes(key, 32))
  }

  /** Top bit masked, as section 5 of RFC 7748 asks for X25519. */
  ghost function Masked(v: nat): int {
    if v >= Two255() then v - Two255() else v
  }

  /** The field element a key denotes. A masked value is below 2^255, less than twice
      the prime, so that one subtraction reduces it. */
  ghost function Element(key: string): int
    requires IsLowerHex(key, 64)
  {
    if Masked(Value(key)) >= Prime() then Masked(Value(key)) - Prime() else Masked(Value(key))
  }

  lemma ReductionByOneSubtraction(v: int, p: int)
    requires 0 <= v < 2 * p
    ensures v % p == if v >= p then v - p else v
  {
    if v >= p {
      assert v == 1 * p + (v - p);
    }
  }

  lemma MaskingReduces(v: int)
    requires 0 <= v < 2 * Two255() && Two255() > 0
    ensures Masked(v) == v % Two255()
  {
    ReductionByOneSubtraction(v, Two255());
  }

  lemma ElementIsTheReducedValue(key: string)
    requires IsLowerHex(key, 64)
    ensures Two255() > 0 && Prime() > 0
    ensures Element(key) == (Value(key) % Two255()) % Prime()
  {
    Magnitude();
    ValueBounds(key);
    MaskingReduces(Value(key));
    ReductionByOneSubtraction(Masked(Value(key)), Prime());
  }

  // --- the checks of the directory -------------------------------------------

  const ZERO: string := Fill('0', 64)
  const ONE: string := "01" + Fill('0', 62)
  const ORDER8A: string := "e0eb7a7c3b41b8ae" + "1656e3faf19fc46a" + "da098c9d770ad86a" + "4aa59bf9814b4d00"
  const ORDER8B: string := "5f9c95bca3508c24" + "b1d0b1559c83ef5b" + "04445cc4581c8e86" + "d8224eddd09f1157"
  const P_MINUS_1: string := "ec" + Fill('f', 60) + "7f"
  const P_ITSELF: string := "ed" + Fill('f', 60) + "7f"
  const P_PLUS_1: string := "ee" + Fill('f', 60) + "7f"

  predicate IsProhibited(key: string) {
    key in {ZERO, ONE, ORDER8A, ORDER8B, P_MINUS_1, P_ITSELF, P_PLUS_1}
  }

  /** Bit 7 of the last byte, which the directory reads from the last two digits. */
  predicate TopBitSet(key: string)
    requires IsLowerHex(key, 64)
  {
    HexByte(key[62], key[63]) >= 128
  }

  lemma ByteTimes(b: int, q: nat)
    requires 0 <= b < 256
    ensures b < 128 ==> b * q + q <= 128 * q
    ensures b < 127 ==> b * q + q <= 127 * q
    ensures b >= 128 ==> b * q >= 128 * q
    ensures b * q + q <= 256 * q
  {
    if b < 127 {
      assert 127 * q == (127 - b - 1) * q + b * q + q;
    } else if b < 128 {
    } else {
      assert b * q == (b - 128) * q + 128 * q;
      assert 256 * q == (256 - b - 1) * q + b * q + q;
    }
  }

  lemma LowByteBounds(bytes: seq<byte>)
    requires bytes != []
    ensures bytes[0] <= LittleEndian(bytes)
  {
  }

  lemma TopByteBounds(bytes: seq<byte>, n: nat)
    requires |bytes| == n + 1
    ensures bytes[n] * Pow256(n) <= LittleEndian(bytes) < bytes[n] * Pow256(n) + Pow256(n)
  {
    assert bytes == bytes[..n] + [bytes[n]];
    LittleEndianOfAppend(bytes[..n], bytes[n]);
    LittleEndianIsBounded(bytes[..n]);
  }

  /** First and last byte of a key bound its value. */
  lemma ValueRange(key: string)
    requires IsLowerHex(key, 64)
    ensures HexByte(key[0], key[1]) <= Value(key)
    ensures var b := HexByte(key[62], key[63]);
            b * Two248() <= Value(key) < b * Two248() + Two248()
  {
    var bytes := HexBytes(key, 32);
    assert bytes[31] == HexByte(key[2 * 31], key[2 * 31 + 1]);
    assert bytes[0] == HexByte(key[2 * 0], key[2 * 0 + 1]);
    LowByteBounds(bytes);
    TopByteBounds(bytes, 31);
  }

  lemma ValueBounds(key: string)
    requires IsLowerHex(key, 64)
    ensures Value(key) < 2 * Two255()
    ensures TopBitSet(key) <==> Value(key) >= Two255()
  {
    ValueRange(key);
    ByteTimes(HexByte(key[62], key[63]), Two248());
  }

  // --- the seven encodings ---------------------------------------------------

  lemma ValueOfSmall(low: byte, n: nat)
    requires n == 31
    ensures LittleEndian([low] + Fill<byte>(0, n)) == low
  {
    LittleEndianOfFill(n);
    assert ([low] + Fill<byte>(0, n))[1..] == Fill<byte>(0, n);
  }

  lemma ValueNearThePrime(low: byte, n: nat)
    ensures LittleEndian([low] + Fill<byte>(255, n) + [127]) == low + 128 * Pow256(n + 1) - 256
  {
    var mid := Fill<byte>(255, n);
    LittleEndianOfFill(n);
    LittleEndianOfAppend(mid, 127);
    assert ([low] + mid + [127])[1..] == mid + [127];
  }

  lemma SpelledSmall(first: string)
    requires IsLowerHex(first, 2)
    ensures IsLowerHex(first + Fill('0', 62), 64)
    ensures Value(first + Fill('0', 62)) == HexByte(first[0], first[1])
  {
    var key, low := first + Fill('0', 62), HexByte(first[0], first[1]);
    assert HexBytes(key, 32) == [low] + Fill<byte>(0, 31);
    ValueOfSmall(low, 31);
  }

  lemma SpelledNearThePrime(first: string)
    requires IsLowerHex(first, 2)
    ensures IsLowerHex(first + Fill('f', 60) + "7f", 64)
    ensures Value(first + Fill('f', 60) + "7f") == HexByte(first[0], first[1]) + Two255() - 256
  {
    var key, low := first + Fill('f', 60) + "7f", HexByte(first[0], first[1]);
    assert HexBytes(key, 32) == [low] + Fill<byte>(255, 30) + [127];
    ValueNearThePrime(low, 30);
  }

  lemma ZeroAndOne()
    ensures IsLowerHex(ZERO, 64) && Value(ZERO) == 0
    ensures IsLowerHex(ONE, 64) && Value(ONE) == 1
  {
    assert ZERO == "00" + Fill('0', 62);
    SpelledSmall("00");
    SpelledSmall("01");
  }

  lemma AroundThePrime()
    ensures IsLowerHex(P_MINUS_1, 64) && Value(P_MINUS_1) == Prime() - 1
    ensures IsLowerHex(P_ITSELF, 64) && Value(P_ITSELF) == Prime()
    ensures IsLowerHex(P_PLUS_1, 64) && Value(P_PLUS_1) == Prime() + 1
  {
    SpelledNearThePrime("ec");
    SpelledNearThePrime("ed");
    SpelledNearThePrime("ee");
  }

  lemma InteriorValue(key: string)
    requires IsLowerHex(key, 64)
    requires HexByte(key[0], key[1]) >= 19 && HexByte(key[62], key[63]) < 127
    ensures 19 <= Value(key) < Prime() - 1
  {
    ValueRange(key);
    ByteTimes(HexByte(key[62], key[63]), Two248());
    Magnitude();
  }

  /** The first and the last byte keep the value off both ends. */
  predicate HasInteriorEnds(a: string, d: string)
    requires IsLowerHex(a, 16) && IsLowerHex(d, 16)
  {
    HexByte(a[0], a[1]) >= 19 && HexByte(d[14], d[15]) < 127
  }

  lemma InteriorQuarters(a: string, b: string, c: string, d: string)
    requires IsLowerHex(a, 16) && IsLowerHex(b, 16) && IsLowerHex(c, 16) && IsLowerHex(d, 16)
    requires HasInteriorEnds(a, d)
    ensures IsLowerHex(a + b + c + d, 64) && 19 <= Value(a + b + c + d) < Prime() - 1
  {
    InteriorValue(a + b + c + d);
  }

  lemma FirstQuarters()
    ensures IsLowerHex("e0eb7a7c3b41b8ae", 16) && IsLowerHex("1656e3faf19fc46a", 16)
    ensures IsLowerHex("da098c9d770ad86a", 16) && IsLowerHex("4aa59bf9814b4d00", 16)
    ensures HasInteriorEnds("e0eb7a7c3b41b8ae", "4aa59bf9814b4d00")
  {
  }

  lemma FirstOfOrderEight()
    ensures IsLowerHex(ORDER8A, 64) && 19 <= Value(ORDER8A) < Prime() - 1
  {
    FirstQuarters();
    InteriorQuarters("e0eb7a7c3b41b8ae", "1656e3faf19fc46a", "da098c9d770ad86a", "4aa59bf9814b4d00");
  }

  lemma SecondQuarters()
    ensures IsLowerHex("5f9c95bca3508c24", 16) && IsLowerHex("b1d0b1559c83ef5b", 16)
    ensures IsLowerHex("04445cc4581c8e86", 16) && IsLowerHex("d8224eddd09f1157", 16)
    ensures HasInteriorEnds("5f9c95bca3508c24", "d8224eddd09f1157")
  {
  }

  lemma SecondOfOrderEight()
    ensures IsLowerHex(ORDER8B, 64) && 19 <= Value(ORDER8B) < Prime() - 1
  {
    SecondQuarters();
    InteriorQuarters("5f9c95bca3508c24", "b1d0b1559c83ef5b", "04445cc4581c8e86", "d8224eddd09f1157");
  }

  // --- main result -----------------------------------------------------------

  lemma ProhibitedAreKeys(key: string)
    requires IsProhibited(key)
    ensures IsLowerHex(key, 64) && Value(key) < Two255()
    ensures Value(key) in {0, 1, Prime() - 1, Prime(), Prime() + 1} || 19 <= Value(key) < Prime() - 1
  {
    ZeroAndOne();
    AroundThePrime();
    FirstOfOrderEight();
    SecondOfOrderEight();
  }

  lemma SameValueSameKey(c: string, key: string)
    requires IsLowerHex(c, 64) && IsLowerHex(key, 64) && Value(c) == Value(key)
    ensures c == key
  {
    LittleEndianIsInjective(HexBytes(c, 32), HexBytes(key, 32));
    HexBytesIsInjective(c, key, 32);
  }

  lemma ProhibitedByValue(key: string)
    requires IsLowerHex(key, 64) && Value(key) in {0, 1, Prime(), Prime() + 1}
    ensures IsProhibited(key)
  {
    ZeroAndOne();
    AroundThePrime();
    var c := if Value(key) == 0 then ZERO else if Value(key) == 1 then ONE
             else if Value(key) == Prime() then P_ITSELF else P_PLUS_1;
    SameValueSameKey(c, key);
  }

  /** Below 2^255 a key of the same element as a listed one has its value, or is one of the
      four that spell 0 and 1. */
  lemma AliasIsListed(c: string, key: string)
    requires IsProhibited(c) && IsLowerHex(c, 64) && IsLowerHex(key, 64) && !TopBitSet(key)
    requires Element(c) == Element(key)
    ensures IsProhibited(key)
  {
    ProhibitedAreKeys(c);
    ValueBounds(key);
    Magnitude();
    if Value(c) == Value(key) {
      SameValueSameKey(c, key);
    } else {
      ProhibitedByValue(key);
    }
  }

  /** Among the keys whose top bit is clear, the literal list is exactly the set of
      encodings of a listed field element: no alias v or v + p of a listed element
      gets through, and no other key is refused. */
  lemma ListIsClosedUnderAliases(key: string)
    requires IsLowerHex(key, 64) && !TopBitSet(key)
    ensures IsProhibited(key) <==>
            exists c :: IsProhibited(c) && IsLowerHex(c, 64) && Element(c) == Element(key)
  {
    if IsProhibited(key) {
      assert Element(key) == Element(key);
    }
    if c :| IsProhibited(c) && IsLowerHex(c, 64) && Element(c) == Element(key) {
      AliasIsListed(c, key);
    }
  }

  /** Without the high-bit test the list alone would not be enough: whatever key spells
      2^255, it is not listed and denotes the field element 0. */
  lemma HighBitTestIsNeeded(key: string)
    requires key == Fill('0', 62) + "80"
    ensures IsLowerHex(key, 64) && TopBitSet(key) && Element(key) == 0 && !IsProhibited(key)
  {
    SpelledTopByte(key, 31);
    ValueBounds(key);
    Magnitude();
    ListedAreBelow(key);
  }

  lemma SpelledTopByte(key: string, n: nat)
    requires n == 31 && key == Fill('0', 2 * n) + "80"
    ensures IsLowerHex(key, 64) && Value(key) == 128 * Pow256(n)
  {
    SpelledBytes(key, n);
    LittleEndianOfAppend(Fill<byte>(0, n), 128);
    LittleEndianOfFill(n);
  }

  lemma SpelledBytes(key: string, n: nat)
    requires n == 31 && key == Fill('0', 2 * n) + "80"
    ensures IsLowerHex(key, 64) && HexBytes(key, 32) == Fill<byte>(0, n) + [128]
  {
    forall i | 0 <= i < 32 ensures HexBytes(key, 32)[i] == (Fill<byte>(0, n) + [128])[i] {
      if i < n {
        assert key[2 * i] == '0' && key[2 * i + 1] == '0';
      }
    }
  }

  lemma ListedAreBelow(key: string)
    requires IsLowerHex(key, 64) && Value(key) >= Two255()
    ensures !IsProhibited(key)
  {
    if IsProhibited(key) {
      ProhibitedAreKeys(key);
    }
  }
}
