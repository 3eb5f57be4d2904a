/** JSON text: what `JSON.parse` accepts (the grammar of ECMA-404 and RFC 8259) and the
    compact form `JSON.stringify` writes, which parsing undoes. */
module Json {
  import opened Text

  /** A number as it is spelled; what it evaluates to is left to the reader. */
  datatype Numeral = Numeral(negative: bool, whole: string, fraction: string, exponent: Option<Exponent>)

  datatype Exponent = Exponent(marker: char, sign: string, digits: string)

  datatype Value =
    | Null
    | Bool(value: bool)
    | Number(numeral: Numeral)
    | String(text: string)
    | Array(items: seq<Value>)
    | Object(members: seq<Member>)

  /** Members in order, repeated keys included. */
  datatype Member = Member(key: string, value: Value)

  datatype Parsed<T> = Parsed(value: T, rest: string)

  // --- lexical elements ---------------------------------------------------------

  predicate IsSpace(c: char) {
    c == ' ' || c == '\t' || c == '\n' || c == '\r'
  }

  function SkipSpace(s: string): (rest: string)
    ensures |rest| <= |s|
  {
    if s != [] && IsSpace(s[0]) then SkipSpace(s[1..]) else s
  }

  /** The character of a four-digit escape; an unpaired surrogate is no character. */
  function Escaped(code: nat): char {
    if code < 0xD800 || 0xE000 <= code < 0x10000 then code as char else '\U{FFFD}'
  }

  function FourHex(s: string): nat
    requires |s| >= 4 && forall i :: 0 <= i < 4 ==> IsHexDigit(s[i])
  {
    HexValue(s[0]) * 4096 + HexValue(s[1]) * 256 + HexValue(s[2]) * 16 + HexValue(s[3])
  }

  /** The character of an escape and what follows it; `s` starts after the backslash. */
  function ParseEscape(s: string): (r: Option<Parsed<char>>)
    ensures r.Some? ==> |r.value.rest| < |s|
  {
    if s == [] then None
    else match s[0]
         case '"' => Some(Parsed('"', s[1..]))
         case '\\' => Some(Parsed('\\', s[1..]))
         case '/' => Some(Parsed('/', s[1..]))
         case 'b' => Some(Parsed(8 as char, s[1..]))
         case 'f' => Some(Parsed(12 as char, s[1..]))
         case 'n' => Some(Parsed('\n', s[1..]))
         case 'r' => Some(Parsed('\r', s[1..]))
         case 't' => Some(Parsed('\t', s[1..]))
         case 'u' =>
           if |s| >= 5 && forall i :: 0 <= i < 4 ==> IsHexDigit(s[1..][i])
           then Some(Parsed(Escaped(FourHex(s[1..])), s[5..])) else None
         case _ => None
  }

  /** The rest of a string literal, up to and with its closing quote. */
  function ParseText(s: string): (r: Option<Parsed<string>>)
    ensures r.Some? ==> |r.value.rest| < |s|
  {
    if s == [] || s[0] < ' ' then None
    else if s[0] == '"' then Some(Parsed("", s[1..]))
    else
      var first := if s[0] == '\\' then ParseEscape(s[1..]) else Some(Parsed(s[0], s[1..]));
      if first.None? then None
      else
        var more := ParseText(first.value.rest);
        if more.None? then None else Some(Parsed([first.value.value] + more.value.value, more.value.rest))
  }

  function TakeDigits(s: string): (r: Parsed<string>)
    ensures |r.rest| <= |s| && AllDigits(r.value) && (r.value != "" ==> |r.rest| < |s|)
  {
    if s != [] && IsDigit(s[0]) then
      var more := TakeDigits(s[1..]);
      Parsed([s[0]] + more.value, more.rest)
    else Parsed("", s)
  }

  /** `0`, or digits that do not start with one. */
  function ParseWhole(s: string): (r: Option<Parsed<string>>)
    ensures r.Some? ==> |r.value.rest| < |s|
  {
    if s == [] || !IsDigit(s[0]) then None
    else if s[0] == '0' then Some(Parsed("0", s[1..]))
    else Some(TakeDigits(s))
  }

  /** An empty fraction stands for none. */
  function ParseFraction(s: string): (r: Option<Parsed<string>>)
    ensures r.Some? ==> |r.value.rest| <= |s|
  {
    if s == [] || s[0] != '.' then Some(Parsed("", s))
    else
      var digits := TakeDigits(s[1..]);
      if digits.value == "" then None else Some(digits)
  }

  function ParseExponent(s: string): (r: Option<Parsed<Option<Exponent>>>)
    ensures r.Some? ==> |r.value.rest| <= |s|
  {
    if s == [] || (s[0] != 'e' && s[0] != 'E') then Some(Parsed(None, s))
    else
      var signed := |s| > 1 && (s[1] == '+' || s[1] == '-');
      var digits := TakeDigits(if signed then s[2..] else s[1..]);
      if digits.value == "" then None
      else Some(Parsed(Some(Exponent(s[0], if signed then [s[1]] else "", digits.value)), digits.rest))
  }

  function ParseNumber(s: string): (r: Option<Parsed<Numeral>>)
    ensures r.Some? ==> |r.value.rest| < |s|
  {
    var negative := s != [] && s[0] == '-';
    var whole := ParseWhole(if negative then s[1..] else s);
    if whole.None? then None
    else
      var fraction := ParseFraction(whole.value.rest);
      if fraction.None? then None
      else
        var exponent := ParseExponent(fraction.value.rest);
        if exponent.None? then None
        else Some(Parsed(Numeral(negative, whole.value.value, fraction.value.value, exponent.value.value),
                         exponent.value.rest))
  }

  // --- values ---------------------------------------------------------------------

  function ParseValue(s: string): (r: Option<Parsed<Value>>)
    ensures r.Some? ==> |r.value.rest| < |s|
    decreases |s|, 0
  {
    if s == [] then None
    else if s[0] == '"' then
      var text := ParseText(s[1..]);
      if text.None? then None else Some(Parsed(String(text.value.value), text.value.rest))
    else if s[0] == '[' then
      var inside := SkipSpace(s[1..]);
      if inside != [] && inside[0] == ']' then Some(Parsed(Array([]), inside[1..]))
      else
        var items := ParseItems(inside);
        if items.None? then None else Some(Parsed(Array(items.value.value), items.value.rest))
    else if s[0] == '{' then
      var inside := SkipSpace(s[1..]);
      if inside != [] && inside[0] == '}' then Some(Parsed(Object([]), inside[1..]))
      else
        var members := ParseMembers(inside);
        if members.None? then None else Some(Parsed(Object(members.value.value), members.value.rest))
    else if "true" <= s then Some(Parsed(Bool(true), s[4..]))
    else if "false" <= s then Some(Parsed(Bool(false), s[5..]))
    else if "null" <= s then Some(Parsed(Null, s[4..]))
    else
      var number := ParseNumber(s);
      if number.None? then None else Some(Parsed(Number(number.value.value), number.value.rest))
  }

  function ParseItems(s: string): (r: Option<Parsed<seq<Value>>>)
    ensures r.Some? ==> |r.value.rest| < |s|
    decreases |s|, 1
  {
    var first := ParseValue(s);
    if first.None? then None
    else
      var after := SkipSpace(first.value.rest);
      if after == [] then None
      else if after[0] == ']' then Some(Parsed([first.value.value], after[1..]))
      else if after[0] != ',' then None
      else
        var more := ParseItems(SkipSpace(after[1..]));
        if more.None? then None else Some(Parsed([first.value.value] + more.value.value, more.value.rest))
  }

  function ParseMember(s: string): (r: Option<Parsed<Member>>)
    ensures r.Some? ==> |r.value.rest| < |s|
    decreases |s|, 1
  {
    if s == [] || s[0] != '"' then None
    else
      var key := ParseText(s[1..]);
      if key.None? then None
      else
        var after := SkipSpace(key.value.rest);
        if after == [] || after[0] != ':' then None
        else
          var value := ParseValue(SkipSpace(after[1..]));
          if value.None? then None else Some(Parsed(Member(key.value.value, value.value.value), value.value.rest))
  }

  function ParseMembers(s: string): (r: Option<Parsed<seq<Member>>>)
    ensures r.Some? ==> |r.value.rest| < |s|
    decreases |s|, 2
  {
    var first := ParseMember(s);
    if first.None? then None
    else
      var after := SkipSpace(first.value.rest);
      if after == [] then None
      else if after[0] == '}' then Some(Parsed([first.value.value], after[1..]))
      else if after[0] != ',' then None
      else
        var more := ParseMembers(SkipSpace(after[1..]));
        if more.None? then None else Some(Parsed([first.value.value] + more.value.value, more.value.rest))
  }

  /** `JSON.parse`: one value, with space around it and nothing else. */
  function Parse(s: string): Option<Value> {
    var value := ParseValue(SkipSpace(s));
    if value.None? || SkipSpace(value.value.rest) != [] then None else Some(value.value.value)
  }

  // --- the compact form -------------------------------------------------------------

  function Escape(c: char): string {
    if c == '"' then "\\\""
    else if c == '\\' then "\\\\"
    else if c == 8 as char then "\\b"
    else if c == 12 as char then "\\f"
    else if c == '\n' then "\\n"
    else if c == '\r' then "\\r"
    else if c == '\t' then "\\t"
    else if c < ' ' then "\\u00" + [HexChar(c as int / 16)] + [HexChar(c as int % 16)]
    else [c]
  }

  function EscapeAll(s: string): string {
    if s == [] then "" else Escape(s[0]) + EscapeAll(s[1..])
  }

  function Quote(s: string): string {
    "\"" + EscapeAll(s) + "\""
  }

  function PrintNumeral(n: Numeral): string {
    (if n.negative then "-" else "") + (n.whole + ((if n.fraction == "" then "" else "." + n.fraction) +
      (if n.exponent.None? then "" else PrintExponent(n.exponent.value))))
  }

  function PrintExponent(e: Exponent): string {
    [e.marker] + (e.sign + e.digits)
  }

  function Print(v: Value): string
    decreases v
  {
    match v
    case Null => "null"
    case Bool(value) => if value then "true" else "false"
    case Number(numeral) => PrintNumeral(numeral)
    case String(text) => Quote(text)
    case Array(items) => "[" + (PrintItems(items) + "]")
    case Object(members) => "{" + (PrintMembers(members) + "}")
  }

  function PrintItems(items: seq<Value>): string
    decreases items
  {
    if items == [] then ""
    else if |items| == 1 then Print(items[0])
    else Print(items[0]) + ("," + PrintItems(items[1..]))
  }

  function PrintMember(m: Member): string
    decreases m
  {
    Quote(m.key) + (":" + Print(m.value))
  }

  function PrintMembers(members: seq<Member>): string
    decreases members
  {
    if members == [] then ""
    else if |members| == 1 then PrintMember(members[0])
    else PrintMember(members[0]) + ("," + PrintMembers(members[1..]))
  }

  predicate IsNumeral(n: Numeral) {
    && IsCanonicalNumeral(n.whole) && AllDigits(n.fraction)
    && (n.exponent.Some? ==>
          var e := n.exponent.value;
          (e.marker == 'e' || e.marker == 'E') && e.sign in ["", "+", "-"] && AllDigits(e.digits) && e.digits != "")
  }

  /** Every number in the value is spelled as JSON allows. */
  predicate IsWellFormed(v: Value)
    decreases v
  {
    match v
    case Number(numeral) => IsNumeral(numeral)
    case Array(items) => forall i :: 0 <= i < |items| ==> IsWellFormed(items[i])
    case Object(members) => forall i :: 0 <= i < |members| ==> IsWellFormed(members[i].value)
    case _ => true
  }

  // --- parsing undoes printing --------------------------------------------------------

  /** What a literal goes on to read after the character `c`. */
  function Continued(c: char, rest: string): Option<Parsed<string>> {
    var more := ParseText(rest);
    if more.None? then None else Some(Parsed([c] + more.value.value, more.value.rest))
  }

  lemma EscapedStep(s: string, c: char, rest: string)
    requires s != [] && s[0] == '\\' && ParseEscape(s[1..]) == Some(Parsed(c, rest))
    ensures ParseText(s) == Continued(c, rest)
  {
  }

  lemma ShortEscape(c: char, rest: string)
    requires |Escape(c)| == 2
    ensures var s := Escape(c) + rest; s[0] == '\\' && ParseEscape(s[1..]) == Some(Parsed(c, rest))
  {
    var t := (Escape(c) + rest)[1..];
    assert t[0] == Escape(c)[1] && t[1..] == rest;
  }

  lemma LongEscape(c: char, rest: string)
    requires |Escape(c)| == 6
    ensures var s := Escape(c) + rest; s[0] == '\\' && ParseEscape(s[1..]) == Some(Parsed(c, rest))
  {
    var t := (Escape(c) + rest)[1..];
    assert c < ' ';
    assert t[0] == 'u' && t[1..][0] == '0' && t[1..][1] == '0';
    assert t[1..][2] == HexChar(c as int / 16) && t[1..][3] == HexChar(c as int % 16);
    assert t[5..] == rest;
    assert FourHex(t[1..]) == c as int;
  }

  lemma EscapeParses(c: char, rest: string)
    ensures ParseText(Escape(c) + rest) == Continued(c, rest)
  {
    if |Escape(c)| == 2 {
      ShortEscape(c, rest);
      EscapedStep(Escape(c) + rest, c, rest);
    } else if |Escape(c)| == 6 {
      LongEscape(c, rest);
      EscapedStep(Escape(c) + rest, c, rest);
    } else {
      assert Escape(c) == [c] && ([c] + rest)[1..] == rest;
    }
  }

  lemma EscapeAllUnfold(text: string, after: string)
    requires text != []
    ensures EscapeAll(text) + after == Escape(text[0]) + (EscapeAll(text[1..]) + after)
  {
  }

  lemma NextCharacter(text: string, later: string, rest: string)
    requires text != [] && ParseText(later) == Some(Parsed(text[1..], rest))
    ensures ParseText(Escape(text[0]) + later) == Some(Parsed(text, rest))
  {
    EscapeParses(text[0], later);
    assert [text[0]] + text[1..] == text;
  }

  /** A string literal reads back as its text, whatever it contains. */
  lemma {:induction false} TextRoundTrip(text: string, rest: string)
    ensures ParseText(EscapeAll(text) + ("\"" + rest)) == Some(Parsed(text, rest))
  {
    var after := "\"" + rest;
    if text == [] {
      assert EscapeAll(text) + after == after;
      assert after[1..] == rest;
    } else {
      TextRoundTrip(text[1..], rest);
      NextCharacter(text, EscapeAll(text[1..]) + after, rest);
      EscapeAllUnfold(text, after);
    }
  }

  lemma QuoteRoundTrip(text: string, rest: string)
    ensures (Quote(text) + rest)[0] == '"' && ParseText((Quote(text) + rest)[1..]) == Some(Parsed(text, rest))
  {
    TextRoundTrip(text, rest);
    assert (Quote(text) + rest)[1..] == EscapeAll(text) + ("\"" + rest);
  }

  predicate StartsWithDigit(s: string) {
    s != [] && IsDigit(s[0])
  }

  lemma {:induction false} DigitsRoundTrip(digits: string, rest: string)
    requires AllDigits(digits) && !StartsWithDigit(rest)
    ensures TakeDigits(digits + rest) == Parsed(digits, rest)
  {
    if digits == [] {
      assert digits + rest == rest;
    } else {
      assert (digits + rest)[1..] == digits[1..] + rest;
      DigitsRoundTrip(digits[1..], rest);
      assert [digits[0]] + digits[1..] == digits;
    }
  }

  /** What may follow a number: anything that does not go on with it. */
  predicate EndsNumber(rest: string) {
    rest == [] || !(IsDigit(rest[0]) || rest[0] == '.' || rest[0] == 'e' || rest[0] == 'E')
  }

  lemma ExponentRoundTrip(e: Exponent, rest: string)
    requires (e.marker == 'e' || e.marker == 'E') && e.sign in ["", "+", "-"] && AllDigits(e.digits) && e.digits != ""
    requires EndsNumber(rest)
    ensures ParseExponent(PrintExponent(e) + rest) == Some(Parsed(Some(e), rest))
  {
    var s := PrintExponent(e) + rest;
    DigitsRoundTrip(e.digits, rest);
    if e.sign == "" {
      assert s[1..] == e.digits + rest;
      assert IsDigit(s[1]);
    } else {
      assert s[2..] == e.digits + rest;
      assert s[1] == e.sign[0] && e.sign == [s[1]];
    }
  }

  lemma FractionRoundTrip(fraction: string, rest: string)
    requires AllDigits(fraction) && !StartsWithDigit(rest) && (rest == [] || rest[0] != '.')
    ensures ParseFraction((if fraction == "" then "" else "." + fraction) + rest) == Some(Parsed(fraction, rest))
  {
    if fraction == "" {
      assert "" + rest == rest;
    } else {
      var s := "." + fraction + rest;
      assert s[1..] == fraction + rest;
      DigitsRoundTrip(fraction, rest);
    }
  }

  lemma WholeRoundTrip(whole: string, rest: string)
    requires IsCanonicalNumeral(whole) && !StartsWithDigit(rest)
    ensures ParseWhole(whole + rest) == Some(Parsed(whole, rest))
  {
    if whole[0] == '0' {
      assert whole == "0" && (whole + rest)[1..] == rest;
    } else {
      DigitsRoundTrip(whole, rest);
    }
  }

  function FractionText(n: Numeral): string {
    if n.fraction == "" then "" else "." + n.fraction
  }

  function ExponentText(n: Numeral): string {
    if n.exponent.None? then "" else PrintExponent(n.exponent.value)
  }

  lemma NumeralText(n: Numeral, rest: string)
    ensures PrintNumeral(n) + rest ==
            (if n.negative then "-" else "") + (n.whole + (FractionText(n) + (ExponentText(n) + rest)))
  {
  }

  lemma ExponentPart(n: Numeral, rest: string)
    requires IsNumeral(n) && EndsNumber(rest)
    ensures ParseExponent(ExponentText(n) + rest) == Some(Parsed(n.exponent, rest))
    ensures !StartsWithDigit(ExponentText(n) + rest)
    ensures ExponentText(n) + rest == [] || (ExponentText(n) + rest)[0] != '.'
  {
    if n.exponent.Some? {
      ExponentRoundTrip(n.exponent.value, rest);
    } else {
      assert "" + rest == rest;
    }
  }

  lemma DigitsPart(n: Numeral, rest: string)
    requires IsNumeral(n) && !StartsWithDigit(rest) && (rest == [] || rest[0] != '.')
    ensures ParseWhole(n.whole + (FractionText(n) + rest)) == Some(Parsed(n.whole, FractionText(n) + rest))
    ensures ParseFraction(FractionText(n) + rest) == Some(Parsed(n.fraction, rest))
  {
    FractionRoundTrip(n.fraction, rest);
    WholeRoundTrip(n.whole, FractionText(n) + rest);
  }

  lemma NumberStep(s: string, negative: bool, whole: Parsed<string>, fraction: Parsed<string>,
                   exponent: Parsed<Option<Exponent>>)
    requires s != [] && negative == (s[0] == '-')
    requires ParseWhole(if negative then s[1..] else s) == Some(whole)
    requires ParseFraction(whole.rest) == Some(fraction) && ParseExponent(fraction.rest) == Some(exponent)
    ensures ParseNumber(s) ==
            Some(Parsed(Numeral(negative, whole.value, fraction.value, exponent.value), exponent.rest))
  {
  }

  lemma NumeralRoundTrip(n: Numeral, rest: string)
    requires IsNumeral(n) && EndsNumber(rest)
    ensures ParseNumber(PrintNumeral(n) + rest) == Some(Parsed(n, rest))
  {
    var s, digits := PrintNumeral(n) + rest, n.whole + (FractionText(n) + (ExponentText(n) + rest));
    NumeralText(n, rest);
    ExponentPart(n, rest);
    DigitsPart(n, ExponentText(n) + rest);
    assert IsDigit(n.whole[0]);
    if n.negative {
      assert s == "-" + digits && s[1..] == digits;
    } else {
      assert s == "" + digits == digits && s[0] == n.whole[0];
    }
    NumberStep(s, n.negative, Parsed(n.whole, FractionText(n) + (ExponentText(n) + rest)),
               Parsed(n.fraction, ExponentText(n) + rest), Parsed(n.exponent, rest));
  }

  lemma FirstCharacter(v: Value, rest: string)
    requires IsWellFormed(v)
    ensures var s := Print(v) + rest; s != [] && !IsSpace(s[0]) && s[0] != ']' && s[0] != '}'
  {
  }

  lemma LiteralRoundTrip(v: Value, rest: string)
    requires v.Null? || v.Bool?
    ensures ParseValue(Print(v) + rest) == Some(Parsed(v, rest))
  {
    var s := Print(v) + rest;
    assert s[0] == Print(v)[0] && Print(v) <= s && s[|Print(v)|..] == rest;
    assert "true"[0] == 't' && "false"[0] == 'f' && "null"[0] == 'n';
  }

  lemma NumberRoundTrip(n: Numeral, rest: string)
    requires IsNumeral(n) && EndsNumber(rest)
    ensures ParseValue(PrintNumeral(n) + rest) == Some(Parsed(Number(n), rest))
  {
    var s := PrintNumeral(n) + rest;
    NumeralRoundTrip(n, rest);
    assert s[0] == '-' || IsDigit(s[0]);
    assert "true"[0] == 't' && "false"[0] == 'f' && "null"[0] == 'n';
  }

  lemma StringRoundTrip(text: string, rest: string)
    ensures ParseValue(Quote(text) + rest) == Some(Parsed(String(text), rest))
  {
    QuoteRoundTrip(text, rest);
  }

  lemma ArrayStep(inside: string, items: seq<Value>, rest: string)
    requires inside != [] && !IsSpace(inside[0]) && inside[0] != ']' && ParseItems(inside) == Some(Parsed(items, rest))
    ensures ParseValue("[" + inside) == Some(Parsed(Array(items), rest))
  {
    assert ("[" + inside)[1..] == inside;
  }

  lemma ObjectStep(inside: string, members: seq<Member>, rest: string)
    requires inside != [] && inside[0] == '"' && ParseMembers(inside) == Some(Parsed(members, rest))
    ensures ParseValue("{" + inside) == Some(Parsed(Object(members), rest))
  {
    assert ("{" + inside)[1..] == inside;
  }

  lemma EmptyRoundTrip(rest: string)
    ensures ParseValue("[" + ("]" + rest)) == Some(Parsed(Array([]), rest))
    ensures ParseValue("{" + ("}" + rest)) == Some(Parsed(Object([]), rest))
  {
    assert ("[" + ("]" + rest))[1..] == "]" + rest && ("]" + rest)[1..] == rest;
    assert ("{" + ("}" + rest))[1..] == "}" + rest && ("}" + rest)[1..] == rest;
  }

  /** Printing a value and parsing what was printed gives the value back, followed by
      whatever followed it. */
  lemma {:induction false} ValueRoundTrip(v: Value, rest: string)
    requires IsWellFormed(v) && EndsNumber(rest)
    ensures ParseValue(Print(v) + rest) == Some(Parsed(v, rest))
    decreases v
  {
    match v
    case Null => LiteralRoundTrip(v, rest);
    case Bool(value) => LiteralRoundTrip(v, rest);
    case Number(numeral) => NumberRoundTrip(numeral, rest);
    case String(text) => StringRoundTrip(text, rest);
    case Array(items) => ArrayRoundTrip(items, rest);
    case Object(members) => ObjectRoundTrip(members, rest);
  }

  lemma {:induction false} ArrayRoundTrip(items: seq<Value>, rest: string)
    requires forall i :: 0 <= i < |items| ==> IsWellFormed(items[i])
    ensures ParseValue(Print(Array(items)) + rest) == Some(Parsed(Array(items), rest))
    decreases items, 1
  {
    assert Print(Array(items)) + rest == "[" + (PrintItems(items) + ("]" + rest));
    if items != [] {
      ItemsRoundTrip(items, rest);
      ArrayStep(PrintItems(items) + ("]" + rest), items, rest);
    } else {
      assert "" + ("]" + rest) == "]" + rest;
      EmptyRoundTrip(rest);
    }
  }

  lemma {:induction false} ObjectRoundTrip(members: seq<Member>, rest: string)
    requires forall i :: 0 <= i < |members| ==> IsWellFormed(members[i].value)
    ensures ParseValue(Print(Object(members)) + rest) == Some(Parsed(Object(members), rest))
    decreases members, 1
  {
    assert Print(Object(members)) + rest == "{" + (PrintMembers(members) + ("}" + rest));
    if members != [] {
      MembersRoundTrip(members, rest);
      ObjectStep(PrintMembers(members) + ("}" + rest), members, rest);
    } else {
      assert "" + ("}" + rest) == "}" + rest;
      EmptyRoundTrip(rest);
    }
  }

  lemma LastItem(s: string, v: Value, rest: string)
    requires ParseValue(s) == Some(Parsed(v, "]" + rest))
    ensures ParseItems(s) == Some(Parsed([v], rest))
  {
    assert ("]" + rest)[1..] == rest;
  }

  lemma NextItem(s: string, v: Value, tail: string, more: seq<Value>, rest: string)
    requires ParseValue(s) == Some(Parsed(v, "," + tail)) && tail != [] && !IsSpace(tail[0])
    requires ParseItems(tail) == Some(Parsed(more, rest))
    ensures ParseItems(s) == Some(Parsed([v] + more, rest))
  {
    assert ("," + tail)[1..] == tail;
  }

  lemma Regrouped(a: string, b: string, c: string, d: string)
    ensures (a + (b + c)) + d == a + (b + (c + d))
  {
  }

  lemma ItemsUnfold(items: seq<Value>, after: string)
    requires items != []
    ensures PrintItems(items) + after ==
            if |items| == 1 then Print(items[0]) + after
            else Print(items[0]) + ("," + (PrintItems(items[1..]) + after))
  {
    if |items| > 1 {
      Regrouped(Print(items[0]), ",", PrintItems(items[1..]), after);
    }
  }

  lemma {:induction false} ItemsRoundTrip(items: seq<Value>, rest: string)
    requires items != [] && forall i :: 0 <= i < |items| ==> IsWellFormed(items[i])
    ensures var s := PrintItems(items) + ("]" + rest);
            && s != [] && !IsSpace(s[0]) && s[0] != ']'
            && ParseItems(s) == Some(Parsed(items, rest))
    decreases items, 0
  {
    var s := PrintItems(items) + ("]" + rest);
    ItemsUnfold(items, "]" + rest);
    if |items| == 1 {
      FirstCharacter(items[0], "]" + rest);
      ValueRoundTrip(items[0], "]" + rest);
      LastItem(s, items[0], rest);
      assert [items[0]] == items;
    } else {
      var tail := PrintItems(items[1..]) + ("]" + rest);
      FirstCharacter(items[0], "," + tail);
      ValueRoundTrip(items[0], "," + tail);
      ItemsRoundTrip(items[1..], rest);
      NextItem(s, items[0], tail, items[1..], rest);
      assert [items[0]] + items[1..] == items;
    }
  }

  lemma MemberStep(key: string, inside: string, v: Value, rest: string)
    requires inside != [] && !IsSpace(inside[0]) && ParseValue(inside) == Some(Parsed(v, rest))
    ensures var s := Quote(key) + (":" + inside);
            s[0] == '"' && ParseMember(s) == Some(Parsed(Member(key, v), rest))
  {
    QuoteRoundTrip(key, ":" + inside);
    assert (":" + inside)[1..] == inside;
  }

  lemma {:induction false} MemberRoundTrip(m: Member, rest: string)
    requires IsWellFormed(m.value) && EndsNumber(rest)
    ensures ParseMember(PrintMember(m) + rest) == Some(Parsed(m, rest)) && (PrintMember(m) + rest)[0] == '"'
    decreases m, 0
  {
    assert PrintMember(m) + rest == Quote(m.key) + (":" + (Print(m.value) + rest));
    FirstCharacter(m.value, rest);
    ValueRoundTrip(m.value, rest);
    MemberStep(m.key, Print(m.value) + rest, m.value, rest);
  }

  lemma LastMember(s: string, m: Member, rest: string)
    requires ParseMember(s) == Some(Parsed(m, "}" + rest))
    ensures ParseMembers(s) == Some(Parsed([m], rest))
  {
    assert ("}" + rest)[1..] == rest;
  }

  lemma NextMember(s: string, m: Member, tail: string, more: seq<Member>, rest: string)
    requires ParseMember(s) == Some(Parsed(m, "," + tail)) && tail != [] && tail[0] == '"'
    requires ParseMembers(tail) == Some(Parsed(more, rest))
    ensures ParseMembers(s) == Some(Parsed([m] + more, rest))
  {
    assert ("," + tail)[1..] == tail;
  }

  lemma MembersUnfold(members: seq<Member>, after: string)
    requires members != []
    ensures PrintMembers(members) + after ==
            if |members| == 1 then PrintMember(members[0]) + after
            else PrintMember(members[0]) + ("," + (PrintMembers(members[1..]) + after))
  {
    if |members| > 1 {
      Regrouped(PrintMember(members[0]), ",", PrintMembers(members[1..]), after);
    }
  }

  lemma MoreMembers(m: Member, tail: string, more: seq<Member>, rest: string)
    requires var s := PrintMember(m) + ("," + tail); ParseMember(s) == Some(Parsed(m, "," + tail)) && s[0] == '"'
    requires tail != [] && tail[0] == '"' && ParseMembers(tail) == Some(Parsed(more, rest))
    ensures ParseMembers(PrintMember(m) + ("," + tail)) == Some(Parsed([m] + more, rest))
  {
    NextMember(PrintMember(m) + ("," + tail), m, tail, more, rest);
  }

  lemma {:induction false} MembersRoundTrip(members: seq<Member>, rest: string)
    requires members != [] && forall i :: 0 <= i < |members| ==> IsWellFormed(members[i].value)
    ensures var s := PrintMembers(members) + ("}" + rest);
            s != [] && s[0] == '"' && ParseMembers(s) == Some(Parsed(members, rest))
    decreases members, 0
  {
    var s := PrintMembers(members) + ("}" + rest);
    MembersUnfold(members, "}" + rest);
    if |members| == 1 {
      MemberRoundTrip(members[0], "}" + rest);
      LastMember(s, members[0], rest);
      assert [members[0]] == members;
    } else {
      MembersRoundTrip(members[1..], rest);
      var tail := PrintMembers(members[1..]) + ("}" + rest);
      MemberRoundTrip(members[0], "," + tail);
      MoreMembers(members[0], tail, members[1..], rest);
      assert [members[0]] + members[1..] == members;
    }
  }

  /** `JSON.parse` undoes `JSON.stringify`, on every value. */
  lemma ParseOfPrint(v: Value)
    requires IsWellFormed(v)
    ensures Parse(Print(v)) == Some(v)
  {
    assert Print(v) + "" == Print(v);
    FirstCharacter(v, "");
    ValueRoundTrip(v, "");
  }
}
