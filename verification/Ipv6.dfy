/** The parser and the serializer of IPv6 hosts that `URL` uses (section 3.5 of the URL
    Standard), on hexadecimal digits and colons only; the canonical form is that of section 4
    of RFC 5952. */
module Ipv6 {
  import opened Delimited
  import opened Text

  type piece = v: int | 0 <= v < 65536

  const PIECES := 8

  // --- pieces -------------------------------------------------------------------

  /** The shortest lowercase hexadecimal spelling. */
  function Hex(v: nat): (s: string)
    ensures s != [] && forall i :: 0 <= i < |s| ==> IsLowerHexDigit(s[i])
  {
    if v < 16 then [HexChar(v)] else Hex(v / 16) + [HexChar(v % 16)]
  }

  datatype Digits = Digits(value: nat, rest: string)

  predicate StartsWithHex(s: string) {
    s != [] && IsLowerHexDigit(s[0])
  }

  /** Up to `most` digits, added to what was read before. */
  function TakeHex(s: string, most: nat, value: nat): (r: Digits)
    ensures |r.rest| <= |s| && (most > 0 && StartsWithHex(s) ==> |r.rest| < |s|)
    decreases most
  {
    if most == 0 || !StartsWithHex(s) then Digits(value, s)
    else TakeHex(s[1..], most - 1, 16 * value + HexValue(s[0]))
  }

  // --- the parser -----------------------------------------------------------------

  /** Pieces read so far, with the position after the compressed run's first zero, if a run
      was seen. */
  datatype Progress = Progress(pieces: seq<nat>, compress: Option<nat>)

  function WithPieces(p: Progress, pieces: seq<nat>): Progress {
    p.(pieces := p.pieces + pieces)
  }

  function WithRun(p: Progress): Progress {
    Progress(p.pieces + [0], Some(|p.pieces| + 1))
  }

  function ParsePieces(s: string, p: Progress): Option<Progress>
    decreases |s|
  {
    if s == [] then Some(p)
    else if |p.pieces| == PIECES then None
    else if s[0] == ':' then
      if p.compress.Some? then None
      else ParsePieces(s[1..], WithRun(p))
    else
      var digits := TakeHex(s, 4, 0);
      var next := WithPieces(p, [digits.value]);
      if digits.rest == [] then Some(next)
      else if digits.rest[0] != ':' || |digits.rest| == 1 then None
      else ParsePieces(digits.rest[1..], next)
  }

  function Zeros(n: nat): seq<nat> {
    seq(n, _ => 0)
  }

  /** Moves what followed the run to the end. */
  function Expand(p: Progress): Option<seq<nat>> {
    match p.compress
    case None => if |p.pieces| == PIECES then Some(p.pieces) else None
    case Some(c) =>
      if c <= |p.pieces| <= PIECES then Some(p.pieces[..c] + Zeros(PIECES - |p.pieces|) + p.pieces[c..]) else None
  }

  function Parse(s: string): Option<seq<nat>> {
    var progress :=
      if s != [] && s[0] == ':' then
        if |s| < 2 || s[1] != ':' then None else ParsePieces(s[2..], Progress([0], Some(1)))
      else ParsePieces(s, Progress([], None));
    if progress.None? then None else Expand(progress.value)
  }

  // --- the serializer -----------------------------------------------------------------

  /** How many zeros start at the front. */
  function ZeroPrefix(pieces: seq<piece>): (n: nat)
    ensures n <= |pieces|
    ensures forall i :: 0 <= i < n ==> pieces[i] == 0
    ensures n < |pieces| ==> pieces[n] != 0
  {
    if pieces == [] || pieces[0] != 0 then 0 else 1 + ZeroPrefix(pieces[1..])
  }

  /** A run of zeros: where it starts and how long it is. */
  datatype Run = Run(start: nat, length: nat)

  predicate IsRun(pieces: seq<piece>, run: Run) {
    run.start + run.length <= |pieces|
    && forall i :: run.start <= i < run.start + run.length ==> pieces[i] == 0
  }

  /** The first longest run of zeros from `from` on that beats `best`. */
  function LongestRun(pieces: seq<piece>, from: nat, best: Run): Run
    requires from <= |pieces|
    decreases |pieces| - from
  {
    if from == |pieces| then best
    else
      var n := ZeroPrefix(pieces[from..]);
      LongestRun(pieces, from + 1, if n > best.length then Run(from, n) else best)
  }

  /** The run that is compressed: the first longest one, of two zeros or more. */
  function CompressedRun(pieces: seq<piece>): Option<Run> {
    var best := LongestRun(pieces, 0, Run(0, 1));
    if best.length < 2 then None else Some(best)
  }

  function HexPieces(pieces: seq<piece>): (texts: seq<string>)
    ensures |texts| == |pieces|
    ensures forall i :: 0 <= i < |texts| ==> texts[i] == Hex(pieces[i])
  {
    seq(|pieces|, i requires 0 <= i < |pieces| => Hex(pieces[i]))
  }

  function Serialize(pieces: seq<piece>): string {
    match CompressedRun(pieces)
    case None => Join(HexPieces(pieces), ':')
    case Some(run) =>
      if run.start + run.length <= |pieces| then
        Join(HexPieces(pieces[..run.start]), ':') + ("::" + Join(HexPieces(pieces[run.start + run.length..]), ':'))
      else ""
  }

  // --- which run is compressed -----------------------------------------------------------

  lemma {:induction false} LongestRunIsFirstLongest(pieces: seq<piece>, from: nat, best: Run)
    requires from <= |pieces| && best.start + best.length <= |pieces|
    ensures var r := LongestRun(pieces, from, best);
            && r.length >= best.length && (r == best || (r.start >= from && r.length > best.length && IsRun(pieces, r)))
            && forall s: nat, n: nat :: from <= s && n > 0 && IsRun(pieces, Run(s, n)) ==>
                 n <= r.length && (n == r.length && r != best ==> r.start <= s)
    decreases |pieces| - from
  {
    var r := LongestRun(pieces, from, best);
    if from < |pieces| {
      var n := ZeroPrefix(pieces[from..]);
      var better := if n > best.length then Run(from, n) else best;
      RunFrom(pieces, from);
      LongestRunIsFirstLongest(pieces, from + 1, better);
      forall s: nat, m: nat | from <= s && m > 0 && IsRun(pieces, Run(s, m))
        ensures m <= r.length && (m == r.length && r != best ==> r.start <= s)
      {
        if s == from {
          assert m <= n;
        }
      }
    }
  }

  lemma RunFrom(pieces: seq<piece>, from: nat)
    requires from < |pieces|
    ensures var n := ZeroPrefix(pieces[from..]);
            IsRun(pieces, Run(from, n)) && forall m: nat :: IsRun(pieces, Run(from, m)) ==> m <= n
  {
    var n := ZeroPrefix(pieces[from..]);
    assert forall i :: from <= i < from + n ==> pieces[i] == pieces[from..][i - from];
    assert from + n < |pieces| ==> pieces[from + n] == pieces[from..][n] != 0;
  }

  /** The compressed run is a longest run of zeros, the first of those, and longer than one;
      and if none is compressed, no two neighbours are both zero. */
  lemma CompressedRunIsFirstLongest(pieces: seq<piece>)
    requires pieces != []
    ensures match CompressedRun(pieces)
            case Some(run) =>
              && run.length >= 2 && IsRun(pieces, run)
              && (forall s: nat, n: nat :: IsRun(pieces, Run(s, n)) ==> n <= run.length)
              && (forall s: nat :: IsRun(pieces, Run(s, run.length)) ==> run.start <= s)
            case None => forall i :: 0 <= i < |pieces| - 1 ==> pieces[i] != 0 || pieces[i + 1] != 0
  {
    LongestRunIsFirstLongest(pieces, 0, Run(0, 1));
    var best := LongestRun(pieces, 0, Run(0, 1));
    if best.length < 2 {
      forall i | 0 <= i < |pieces| - 1 ensures pieces[i] != 0 || pieces[i + 1] != 0 {
        if pieces[i] == 0 && pieces[i + 1] == 0 {
          assert IsRun(pieces, Run(i, 2));
        }
      }
    }
  }

  // --- parsing undoes serialization ---------------------------------------------------------

  function Fold(digits: string, value: nat): nat
    requires forall i :: 0 <= i < |digits| ==> IsLowerHexDigit(digits[i])
  {
    if digits == [] then value else Fold(digits[1..], 16 * value + HexValue(digits[0]))
  }

  lemma {:induction false} TakeAll(digits: string, rest: string, most: nat, value: nat)
    requires |digits| <= most && forall i :: 0 <= i < |digits| ==> IsLowerHexDigit(digits[i])
    requires !StartsWithHex(rest)
    ensures TakeHex(digits + rest, most, value) == Digits(Fold(digits, value), rest)
  {
    if digits == [] {
      assert digits + rest == rest;
    } else {
      assert (digits + rest)[1..] == digits[1..] + rest;
      TakeAll(digits[1..], rest, most - 1, 16 * value + HexValue(digits[0]));
    }
  }

  lemma {:induction false} FoldAppend(digits: string, last: char, value: nat)
    requires (forall i :: 0 <= i < |digits| ==> IsLowerHexDigit(digits[i])) && IsLowerHexDigit(last)
    ensures Fold(digits + [last], value) == 16 * Fold(digits, value) + HexValue(last)
  {
    if digits == [] {
      assert digits + [last] == [last] && [last][1..] == [];
    } else {
      assert (digits + [last])[1..] == digits[1..] + [last];
      FoldAppend(digits[1..], last, 16 * value + HexValue(digits[0]));
    }
  }

  lemma {:induction false} HexReads(v: nat)
    ensures Fold(Hex(v), 0) == v
    ensures |Hex(v)| == if v < 16 then 1 else 1 + |Hex(v / 16)|
  {
    if v < 16 {
      assert Hex(v)[1..] == [];
    } else {
      HexReads(v / 16);
      FoldAppend(Hex(v / 16), HexChar(v % 16), 0);
    }
  }

  lemma HexIsShort(v: piece)
    ensures |Hex(v)| <= 4
  {
    HexReads(v);
    HexReads(v / 16);
    HexReads(v / 16 / 16);
    HexReads(v / 16 / 16 / 16);
  }

  lemma PieceReads(v: piece, rest: string)
    requires !StartsWithHex(rest)
    ensures TakeHex(Hex(v) + rest, 4, 0) == Digits(v, rest)
    ensures (Hex(v) + rest)[0] != ':'
  {
    HexIsShort(v);
    HexReads(v);
    TakeAll(Hex(v), rest, 4, 0);
    assert (Hex(v) + rest)[0] == Hex(v)[0];
  }

  lemma JoinedPieces(ps: seq<piece>)
    ensures ps != [] ==> Join(HexPieces(ps), ':') != "" && Join(HexPieces(ps), ':')[0] != ':'
    ensures |ps| > 1 ==> Join(HexPieces(ps), ':') == Hex(ps[0]) + (":" + Join(HexPieces(ps[1..]), ':'))
  {
    if |ps| > 1 {
      assert HexPieces(ps)[1..] == HexPieces(ps[1..]);
    }
  }

  lemma LastPieceParses(v: piece, p: Progress)
    requires |p.pieces| < PIECES
    ensures ParsePieces(Hex(v) + "", p) == Some(WithPieces(p, [v]))
  {
    PieceReads(v, "");
  }

  lemma NextPieceParses(v: piece, rest: string, p: Progress)
    requires |p.pieces| < PIECES && rest != []
    ensures ParsePieces(Hex(v) + (":" + rest), p) == ParsePieces(rest, WithPieces(p, [v]))
  {
    PieceReads(v, ":" + rest);
    assert (":" + rest)[1..] == rest;
  }

  lemma JoinedThen(ps: seq<piece>, t: string)
    requires |ps| > 1
    ensures Join(HexPieces(ps), ':') + t == Hex(ps[0]) + (":" + (Join(HexPieces(ps[1..]), ':') + t))
    ensures Join(HexPieces(ps[1..]), ':') + t != []
  {
    JoinedPieces(ps);
    JoinedPieces(ps[1..]);
  }

  lemma JoinedOne(ps: seq<piece>)
    requires |ps| == 1
    ensures Join(HexPieces(ps), ':') == Hex(ps[0])
  {
  }

  lemma AppendHead(p: Progress, ps: seq<piece>)
    requires ps != []
    ensures WithPieces(WithPieces(p, [ps[0]]), ps[1..]) == WithPieces(p, ps)
    ensures |ps| == 1 ==> WithPieces(p, [ps[0]]) == WithPieces(p, ps)
  {
    assert p.pieces + [ps[0]] + ps[1..] == p.pieces + ps;
  }

  lemma {:induction false} PiecesParse(ps: seq<piece>, p: Progress)
    requires |p.pieces| + |ps| <= PIECES
    ensures ParsePieces(Join(HexPieces(ps), ':') + "", p) == Some(WithPieces(p, ps))
    decreases |ps|
  {
    if ps == [] {
      assert p.pieces + ps == p.pieces;
    } else {
      AppendHead(p, ps);
      if |ps| == 1 {
        JoinedOne(ps);
        LastPieceParses(ps[0], p);
      } else {
        JoinedThen(ps, "");
        NextPieceParses(ps[0], Join(HexPieces(ps[1..]), ':') + "", p);
        PiecesParse(ps[1..], WithPieces(p, [ps[0]]));
      }
    }
  }

  lemma RunParses(t: string, p: Progress)
    requires |p.pieces| < PIECES && p.compress.None?
    ensures ParsePieces(":" + t, p) == ParsePieces(t, WithRun(p))
  {
    assert (":" + t)[1..] == t;
  }

  /** The pieces before the run, and the run. */
  lemma RunText(s: string, t: string)
    ensures s + ("::" + t) == s + (":" + (":" + t))
  {
  }

  lemma LastBeforeRun(v: piece, t: string, p: Progress)
    requires |p.pieces| + 1 < PIECES && p.compress.None?
    ensures ParsePieces(Hex(v) + (":" + (":" + t)), p) == ParsePieces(t, WithRun(WithPieces(p, [v])))
  {
    NextPieceParses(v, ":" + t, p);
    RunParses(t, WithPieces(p, [v]));
  }

  lemma {:induction false} PiecesThenRun(ps: seq<piece>, t: string, p: Progress)
    requires ps != [] && |p.pieces| + |ps| < PIECES && p.compress.None?
    ensures ParsePieces(Join(HexPieces(ps), ':') + ("::" + t), p) ==
            ParsePieces(t, WithRun(WithPieces(p, ps)))
    decreases |ps|
  {
    AppendHead(p, ps);
    if |ps| == 1 {
      JoinedOne(ps);
      RunText(Hex(ps[0]), t);
      LastBeforeRun(ps[0], t, p);
    } else {
      JoinedThen(ps, "::" + t);
      NextPieceParses(ps[0], Join(HexPieces(ps[1..]), ':') + ("::" + t), p);
      PiecesThenRun(ps[1..], t, WithPieces(p, [ps[0]]));
    }
  }

  lemma RunExpands(before: seq<nat>, n: nat, after: seq<nat>)
    requires n >= 1 && |before| + n + |after| == PIECES
    ensures Expand(Progress(before + [0] + after, Some(|before| + 1))) == Some(before + Zeros(n) + after)
  {
    var pieces := before + [0] + after;
    assert pieces[..|before| + 1] == before + [0] && pieces[|before| + 1..] == after;
    assert before + [0] + Zeros(PIECES - |pieces|) + after == before + Zeros(n) + after;
  }

  lemma StartsWithRun(t: string)
    ensures Parse("::" + t) ==
            var progress := ParsePieces(t, Progress([0], Some(1)));
            if progress.None? then None else Expand(progress.value)
  {
    assert ("::" + t)[2..] == t;
  }

  /** What follows the run is parsed and moved to the end. */
  lemma AfterRunParses(before: seq<nat>, n: nat, after: seq<piece>)
    requires n >= 2 && |before| + n + |after| == PIECES
    ensures var progress := ParsePieces(Join(HexPieces(after), ':'), Progress(before + [0], Some(|before| + 1)));
            progress.Some? && Expand(progress.value) == Some(before + Zeros(n) + after)
  {
    var t := Join(HexPieces(after), ':');
    PiecesParse(after, Progress(before + [0], Some(|before| + 1)));
    assert t + "" == t;
    RunExpands(before, n, after);
  }

  lemma LeadingRunParses(n: nat, after: seq<piece>)
    requires n >= 2 && n + |after| == PIECES
    ensures Parse("::" + Join(HexPieces(after), ':')) == Some(Zeros(n) + after)
  {
    AfterRunParses([], n, after);
    NoPieceBefore(Zeros(n), after);
    StartsWithRun(Join(HexPieces(after), ':'));
  }

  lemma NoPieceBefore(zeros: seq<nat>, after: seq<nat>)
    ensures [] + [0] == [0] && [] + zeros + after == zeros + after
  {
  }

  lemma NoTextBefore(t: string)
    ensures Join(HexPieces([]), ':') + t == t
  {
  }

  lemma ParseOfPieces(s: string)
    requires s == "" || s[0] != ':'
    ensures Parse(s) == match ParsePieces(s, Progress([], None))
                        case None => None
                        case Some(progress) => Expand(progress)
  {
  }

  lemma InnerRunParses(before: seq<piece>, n: nat, after: seq<piece>)
    requires n >= 2 && |before| + n + |after| == PIECES && before != []
    ensures Parse(Join(HexPieces(before), ':') + ("::" + Join(HexPieces(after), ':'))) ==
            Some(before + Zeros(n) + after)
  {
    var t := Join(HexPieces(after), ':');
    PiecesThenRun(before, t, Progress([], None));
    RunAfterPieces(before);
    AfterRunParses(before, n, after);
    JoinedPieces(before);
    ParseOfPieces(Join(HexPieces(before), ':') + ("::" + t));
  }

  lemma RunAfterPieces(before: seq<nat>)
    ensures WithRun(WithPieces(Progress([], None), before)) == Progress(before + [0], Some(|before| + 1))
  {
    assert [] + before == before;
  }

  lemma CompressedParses(before: seq<piece>, n: nat, after: seq<piece>)
    requires n >= 2 && |before| + n + |after| == PIECES
    ensures Parse(Join(HexPieces(before), ':') + ("::" + Join(HexPieces(after), ':'))) ==
            Some(before + Zeros(n) + after)
  {
    if before == [] {
      LeadingRunParses(n, after);
      NoTextBefore("::" + Join(HexPieces(after), ':'));
      NoPieceBefore(Zeros(n), after);
    } else {
      InnerRunParses(before, n, after);
    }
  }

  lemma PlainParses(pieces: seq<piece>)
    requires |pieces| == PIECES
    ensures Parse(Join(HexPieces(pieces), ':')) == Some(pieces)
  {
    JoinedPieces(pieces);
    PiecesParse(pieces, Progress([], None));
    assert Join(HexPieces(pieces), ':') + "" == Join(HexPieces(pieces), ':');
    assert [] + pieces == pieces;
  }

  /** Parsing the serialization of an address gives its pieces back. */
  lemma ParseOfSerialize(pieces: seq<piece>)
    requires |pieces| == PIECES
    ensures Parse(Serialize(pieces)) == Some(pieces)
  {
    CompressedRunIsFirstLongest(pieces);
    var compressed := CompressedRun(pieces);
    if compressed.None? {
      PlainParses(pieces);
    } else {
      var run := compressed.value;
      var before, after := pieces[..run.start], pieces[run.start + run.length..];
      CompressedParses(before, run.length, after);
      ZerosBetween(pieces, run);
    }
  }

  lemma ZerosBetween(pieces: seq<piece>, run: Run)
    requires IsRun(pieces, run)
    ensures pieces[..run.start] + Zeros(run.length) + pieces[run.start + run.length..] == pieces
  {
  }

  predicate IsHostChar(c: char) {
    IsLowerHexDigit(c) || c == ':'
  }

  lemma {:induction false} JoinedCharacters(texts: seq<string>)
    requires forall i, k :: 0 <= i < |texts| && 0 <= k < |texts[i]| ==> IsLowerHexDigit(texts[i][k])
    ensures forall k :: 0 <= k < |Join(texts, ':')| ==> IsHostChar(Join(texts, ':')[k])
  {
    if |texts| > 1 {
      JoinedCharacters(texts[1..]);
    }
  }

  lemma SerializedCharacters(pieces: seq<piece>)
    requires |pieces| == PIECES
    ensures Serialize(pieces) != "" && forall k :: 0 <= k < |Serialize(pieces)| ==> IsHostChar(Serialize(pieces)[k])
  {
    CompressedRunIsFirstLongest(pieces);
    match CompressedRun(pieces)
    case None =>
      JoinedPieces(pieces);
      JoinedCharacters(HexPieces(pieces));
    case Some(run) =>
      JoinedCharacters(HexPieces(pieces[..run.start]));
      JoinedCharacters(HexPieces(pieces[run.start + run.length..]));
  }

  /** Whatever the parser accepts are eight pieces of sixteen bits. */
  lemma {:induction false} TakenIsBounded(s: string, most: nat, value: nat)
    requires most <= 4
    ensures most == 0 ==> TakeHex(s, most, value).value == value
    ensures most == 1 ==> TakeHex(s, most, value).value <= 16 * value + 15
    ensures most == 2 ==> TakeHex(s, most, value).value <= 256 * value + 255
    ensures most == 3 ==> TakeHex(s, most, value).value <= 4096 * value + 4095
    ensures most == 4 ==> TakeHex(s, most, value).value <= 65536 * value + 65535
    decreases most
  {
    if most > 0 && StartsWithHex(s) {
      TakenIsBounded(s[1..], most - 1, 16 * value + HexValue(s[0]));
    }
  }

  ghost predicate AreBounded(pieces: seq<nat>) {
    forall i :: 0 <= i < |pieces| ==> pieces[i] < 65536
  }

  lemma {:induction false} ParsedAreBounded(s: string, p: Progress)
    requires AreBounded(p.pieces) && |p.pieces| <= PIECES && (p.compress.Some? ==> p.compress.value <= |p.pieces|)
    requires ParsePieces(s, p).Some?
    ensures var r := ParsePieces(s, p).value;
            AreBounded(r.pieces) && |r.pieces| <= PIECES && (r.compress.Some? ==> r.compress.value <= |r.pieces|)
    decreases |s|
  {
    if s != [] {
      if s[0] == ':' {
        ParsedAreBounded(s[1..], WithRun(p));
      } else {
        TakenIsBounded(s, 4, 0);
        var digits := TakeHex(s, 4, 0);
        var next := WithPieces(p, [digits.value]);
        assert AreBounded(next.pieces);
        if digits.rest != [] {
          ParsedAreBounded(digits.rest[1..], next);
        }
      }
    }
  }

  lemma ExpandedIsAddress(p: Progress)
    requires AreBounded(p.pieces) && Expand(p).Some?
    ensures |Expand(p).value| == PIECES && AreBounded(Expand(p).value)
  {
    if p.compress.Some? {
      var c, zeros := p.compress.value, Zeros(PIECES - |p.pieces|);
      BoundedAppend(p.pieces[..c], zeros);
      BoundedAppend(p.pieces[..c] + zeros, p.pieces[c..]);
    }
  }

  lemma BoundedAppend(a: seq<nat>, b: seq<nat>)
    requires AreBounded(a) && AreBounded(b)
    ensures AreBounded(a + b)
  {
  }

  lemma ParsedIsAddress(s: string)
    requires Parse(s).Some?
    ensures |Parse(s).value| == PIECES && AreBounded(Parse(s).value)
  {
    if s != [] && s[0] == ':' {
      ParsedAreBounded(s[2..], Progress([0], Some(1)));
      ExpandedIsAddress(ParsePieces(s[2..], Progress([0], Some(1))).value);
    } else {
      ParsedAreBounded(s, Progress([], None));
      ExpandedIsAddress(ParsePieces(s, Progress([], None)).value);
    }
  }

  function AsPieces(values: seq<nat>): (pieces: seq<piece>)
    requires forall i :: 0 <= i < |values| ==> values[i] < 65536
    ensures pieces == values
  {
    seq(|values|, i requires 0 <= i < |values| => values[i] as piece)
  }

  /** The test of the host: it is parsed and serialized, and must come back unchanged. */
  ghost predicate IsCanonicalAddress(s: string) {
    && Parse(s).Some? && AreBounded(Parse(s).value)
    && Serialize(AsPieces(Parse(s).value)) == s
  }

  /** The accepted addresses are exactly the serializations of eight pieces; so every
      address has exactly one accepted spelling. */
  lemma CanonicalAddressesAreSerialized(s: string)
    ensures IsCanonicalAddress(s) <==> exists pieces: seq<piece> :: |pieces| == PIECES && Serialize(pieces) == s
  {
    if IsCanonicalAddress(s) {
      ParsedIsAddress(s);
      var pieces := AsPieces(Parse(s).value);
      assert |pieces| == PIECES && Serialize(pieces) == s;
    }
    if pieces: seq<piece> :| |pieces| == PIECES && Serialize(pieces) == s {
      ParseOfSerialize(pieces);
      assert AsPieces(Parse(s).value) == pieces;
    }
  }

  lemma SerializeIsInjective(a: seq<piece>, b: seq<piece>)
    requires |a| == PIECES == |b| && Serialize(a) == Serialize(b)
    ensures a == b
  {
    ParseOfSerialize(a);
    ParseOfSerialize(b);
  }
}
