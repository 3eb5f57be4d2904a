/** Strings as the JavaScript sources use them: character classes, the code-unit
    order of `<` and `sort`, and decimal numerals. */
module Text {

  datatype Option<+T> = None | Some(value: T)

  type byte = b: int | 0 <= b < 256

  /** All the values, or None if one is missing. */
  function Collect<T>(options: seq<Option<T>>): Option<seq<T>> {
    if options == [] then Some([])
    else
      var before, last := Collect(options[..|options| - 1]), options[|options| - 1];
      if before.None? || last.None? then None else Some(before.value + [last.value])
  }

  lemma {:induction false} CollectAll<T>(options: seq<Option<T>>, results: seq<T>)
    requires |options| == |results|
    ensures Collect(options) == Some(results) <==> forall i :: 0 <= i < |results| ==> options[i] == Some(results[i])
  {
    if options != [] {
      var n := |options| - 1;
      CollectAll(options[..n], results[..n]);
      assert results == results[..n] + [results[n]];
    }
  }

  lemma {:induction false} CollectedLength<T>(options: seq<Option<T>>)
    requires Collect(options).Some?
    ensures |Collect(options).value| == |options|
  {
    if options != [] {
      CollectedLength(options[..|options| - 1]);
    }
  }

  predicate IsDigit(c: char) { '0' <= c <= '9' }

  predicate IsLowerHexDigit(c: char) { IsDigit(c) || 'a' <= c <= 'f' }

  predicate IsHexDigit(c: char) { IsLowerHexDigit(c) || 'A' <= c <= 'F' }

  predicate IsBase64urlChar(c: char) {
    IsDigit(c) || 'a' <= c <= 'z' || 'A' <= c <= 'Z' || c == '-' || c == '_'
  }

  predicate IsLowerHex(s: string, length: nat) {
    |s| == length && forall i :: 0 <= i < |s| ==> IsLowerHexDigit(s[i])
  }

  function LowerChar(c: char): char {
    if 'A' <= c <= 'Z' then (c as int + 32) as char else c
  }

  /** `toLowerCase` on ASCII text. */
  function ToLower(s: string): (r: string)
    ensures |r| == |s|
    ensures forall i :: 0 <= i < |s| ==> r[i] == LowerChar(s[i])
  {
    seq(|s|, i requires 0 <= i < |s| => LowerChar(s[i]))
  }

  // --- the order of strings by code unit ----------------------------------

  predicate Less(s: string, t: string) {
    t != [] && (s == [] || s[0] < t[0] || (s[0] == t[0] && Less(s[1..], t[1..])))
  }

  lemma {:induction false} LessIsTransitive(s: string, t: string, u: string)
    requires Less(s, t) && Less(t, u)
    ensures Less(s, u)
  {
    if s != [] && s[0] == t[0] == u[0] {
      LessIsTransitive(s[1..], t[1..], u[1..]);
    }
  }

  lemma {:induction false} LessIsIrreflexive(s: string)
    ensures !Less(s, s)
  {
    if s != [] {
      LessIsIrreflexive(s[1..]);
    }
  }

  lemma {:induction false} LessIsTotal(s: string, t: string)
    ensures s == t || Less(s, t) || Less(t, s)
  {
    if s != [] && t != [] && s[0] == t[0] {
      LessIsTotal(s[1..], t[1..]);
      assert s == [s[0]] + s[1..] && t == [t[0]] + t[1..];
    }
  }

  ghost predicate Distinct(s: seq<string>) {
    forall i, j :: 0 <= i < j < |s| ==> s[i] != s[j]
  }

  predicate Increasing(s: seq<string>) {
    forall i, j :: 0 <= i < j < |s| ==> Less(s[i], s[j])
  }

  /** In a strictly increasing list every element occurs once. */
  lemma IncreasingIsDistinct(s: seq<string>, i: nat, j: nat)
    requires Increasing(s) && i < |s| && j < |s| && s[i] == s[j]
    ensures i == j
  {
    LessIsIrreflexive(s[i]);
  }

  /** A set of strings has at most one strictly increasing listing. */
  lemma {:induction false} IncreasingListingIsUnique(s: seq<string>, t: seq<string>)
    requires Increasing(s) && Increasing(t)
    requires forall x :: x in s <==> x in t
    ensures s == t
  {
    if s == [] {
      assert forall i :: 0 <= i < |t| ==> t[i] in t;
    } else {
      assert s[0] in s;
      assert t != [];
      assert t[0] in t;
      HeadIsLeast(s, t[0]);
      HeadIsLeast(t, s[0]);
      if s[0] != t[0] {
        LessIsTransitive(s[0], t[0], s[0]);
        LessIsIrreflexive(s[0]);
      }
      forall x ensures x in s[1..] <==> x in t[1..] {
        TailMembers(s, x);
        TailMembers(t, x);
      }
      IncreasingListingIsUnique(s[1..], t[1..]);
      assert s == [s[0]] + s[1..] && t == [t[0]] + t[1..];
    }
  }

  lemma HeadIsLeast(s: seq<string>, x: string)
    requires Increasing(s) && x in s
    ensures x == s[0] || Less(s[0], x)
  {
  }

  lemma TailMembers(s: seq<string>, x: string)
    requires Increasing(s) && s != []
    ensures x in s[1..] <==> x in s && x != s[0]
  {
    if x in s[1..] {
      var k :| 0 <= k < |s[1..]| && s[1..][k] == x;
      assert s[k + 1] == x;
      LessIsIrreflexive(x);
    }
    if x in s && x != s[0] {
      var k :| 0 <= k < |s| && s[k] == x;
      assert s[1..][k - 1] == x;
    }
  }

  // --- decimal numerals ----------------------------------------------------

  function DigitValue(c: char): (v: nat)
    requires IsDigit(c)
    ensures v <= 9
  {
    c as int - '0' as int
  }

  function DigitChar(d: nat): (c: char)
    requires d <= 9
    ensures IsDigit(c) && DigitValue(c) == d
  {
    ('0' as int + d) as char
  }

  predicate AllDigits(s: string) {
    forall i :: 0 <= i < |s| ==> IsDigit(s[i])
  }

  function HexValue(c: char): (v: nat)
    requires IsHexDigit(c)
    ensures v < 16
  {
    if IsDigit(c) then DigitValue(c)
    else if 'a' <= c <= 'f' then c as int - 'a' as int + 10
    else c as int - 'A' as int + 10
  }

  function HexChar(d: nat): (c: char)
    requires d < 16
    ensures IsLowerHexDigit(c) && HexValue(c) == d
  {
    if d < 10 then DigitChar(d) else ('a' as int + d - 10) as char
  }

  /** What `Number` reads from a string of digits. */
  function DecimalValue(s: string): nat
    requires AllDigits(s)
  {
    if s == [] then 0
    else 10 * DecimalValue(s[..|s| - 1]) + DigitValue(s[|s| - 1])
  }

  /** The numeral without leading zeros. */
  function Decimal(n: nat): (s: string)
    ensures s != [] && AllDigits(s)
  {
    if n < 10 then [DigitChar(n)] else Decimal(n / 10) + [DigitChar(n % 10)]
  }

  /** The numeral `0`, or a digit string that starts with a nonzero digit. */
  predicate IsCanonicalNumeral(s: string) {
    AllDigits(s) && s != [] && (s[0] != '0' || |s| == 1)
  }

  lemma {:induction false} DecimalRoundTrip(n: nat)
    ensures IsCanonicalNumeral(Decimal(n)) && DecimalValue(Decimal(n)) == n
    ensures n > 0 ==> Decimal(n)[0] != '0'
  {
    if n >= 10 {
      DecimalRoundTrip(n / 10);
      var s := Decimal(n);
      assert s[..|s| - 1] == Decimal(n / 10);
      assert s[0] == Decimal(n / 10)[0];
    } else {
      var s := Decimal(n);
      assert s[..|s| - 1] == [];
    }
  }

  lemma {:induction false} CanonicalNumeralIsPrinted(s: string)
    requires IsCanonicalNumeral(s)
    ensures Decimal(DecimalValue(s)) == s
    ensures DecimalValue(s) == 0 <==> s == "0"
    decreases |s|
  {
    var init, last := s[..|s| - 1], DigitValue(s[|s| - 1]);
    assert s == init + [DigitChar(last)] by {
      assert s == init + [s[|s| - 1]];
    }
    if |s| == 1 {
      assert init == [];
    } else {
      CanonicalNumeralIsPrinted(init);
      assert init[0] == s[0];
      assert DecimalValue(init) >= 1;
      var n := DecimalValue(s);
      assert n == 10 * DecimalValue(init) + last;
      assert n / 10 == DecimalValue(init) && n % 10 == last;
    }
  }

  lemma DecimalIsInjective(m: nat, n: nat)
    requires Decimal(m) == Decimal(n)
    ensures m == n
  {
    DecimalRoundTrip(m);
    DecimalRoundTrip(n);
  }
}
