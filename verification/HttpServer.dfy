/** Header framing, bounded body reading and the one-response request handler of the
    loopback server (scripts/hodlxxi-social-server.mjs). Parsing of the request target is
    an input; what the handler awaits (the body stream and the bff) are values. */
module HttpServer {
  import opened Permutations
  import opened Text

  type Pair = (string, string)

  datatype Target = Target(valid: bool, callback: bool, path: string, hasQuery: bool)

  datatype Chunk = Bytes(data: seq<bv8>) | Foreign

  /** What a request body delivers before it ends or, if `failed`, breaks off. */
  datatype Stream = Stream(chunks: seq<Chunk>, failed: bool)

  datatype HeaderValue = One(value: string) | Several(values: seq<string>)

  datatype Request = Request(
    verb: string, url: string, target: Target, rawHeaders: seq<string>, headers: map<string, HeaderValue>,
    body: Stream)

  const BINDINGS := "/auth/messaging-device-bindings"
  const INTENTS := "/auth/messaging-device-" + "binding-authorization-intents"
  const AUTHORIZATIONS := "/auth/messaging-device-" + "binding-authorizations"
  const MOBILE_BOUND := 65536

  // --- the framing rule, on the multiset of header pairs ----------------------

  function HeaderPair(raw: seq<string>, i: nat): Pair
    requires 2 * i < |raw|
  {
    (ToLower(raw[2 * i]), if 2 * i + 1 < |raw| then raw[2 * i + 1] else "")
  }

  /** Lower-cased names with their values, in order; a value missing at the end is empty. */
  function Pairs(raw: seq<string>): (pairs: seq<Pair>)
    ensures |pairs| == (|raw| + 1) / 2
    ensures forall i :: 0 <= i < |pairs| ==> pairs[i] == HeaderPair(raw, i)
  {
    seq((|raw| + 1) / 2, i requires 0 <= i < (|raw| + 1) / 2 => HeaderPair(raw, i))
  }

  ghost predicate Absent(headers: multiset<Pair>, name: string) {
    forall p :: p in headers ==> p.0 != name
  }

  ghost predicate Once(headers: multiset<Pair>, name: string, value: string) {
    headers[(name, value)] == 1 && forall p :: p in headers && p.0 == name ==> p.1 == value
  }

  ghost predicate AtMostOnce(headers: multiset<Pair>, name: string) {
    Absent(headers, name) || exists v :: Once(headers, name, v)
  }

  /** One Content-Length, the canonical decimal of a number from 1 to the bound. */
  ghost predicate DeclaresUpTo(headers: multiset<Pair>, bound: nat) {
    exists n: nat :: 1 <= n <= bound && Once(headers, "content-length", Decimal(n))
  }

  predicate IsMobile(mobileRoutes: seq<string>, target: Target) {
    target.valid && target.path in mobileRoutes
  }

  predicate IsMessagingPost(verb: string, target: Target) {
    target.valid && target.path in [BINDINGS, INTENTS, AUTHORIZATIONS] && verb == "POST"
  }

  function MessagingBound(target: Target): nat {
    if target.path == AUTHORIZATIONS then 16384 else 8192
  }

  ghost predicate MobileHeaders(headers: multiset<Pair>) {
    && (forall j :: 0 <= j < |SINGLE_NAMES| ==> AtMostOnce(headers, SINGLE_NAMES[j]))
    && Absent(headers, "content-encoding") && Absent(headers, "authorization")
    && Absent(headers, "x-hodlxxi-viewer-authorization")
  }

  /** The rule the header scan decides. It speaks of a multiset: neither the order of the
      pairs nor their place matters. */
  ghost predicate Framed(headers: multiset<Pair>, verb: string, target: Target, mobileRoutes: seq<string>) {
    && Absent(headers, "transfer-encoding")
    && if IsMobile(mobileRoutes, target) then
         !target.hasQuery && verb == "POST" && MobileHeaders(headers) && DeclaresUpTo(headers, MOBILE_BOUND)
       else if IsMessagingPost(verb, target) then DeclaresUpTo(headers, MessagingBound(target))
       else Absent(headers, "content-length") || Once(headers, "content-length", "0")
  }

  // --- the scan ----------------------------------------------------------------

  function ValuesOf(pairs: seq<Pair>, name: string): seq<string> {
    if pairs == [] then []
    else
      var init, last := pairs[..|pairs| - 1], pairs[|pairs| - 1];
      ValuesOf(init, name) + (if last.0 == name then [last.1] else [])
  }

  lemma {:induction false} ValuesAreCounted(pairs: seq<Pair>, name: string, value: string)
    ensures multiset(ValuesOf(pairs, name))[value] == multiset(pairs)[(name, value)]
  {
    if pairs != [] {
      var init, last := pairs[..|pairs| - 1], pairs[|pairs| - 1];
      ValuesAreCounted(init, name, value);
      CountOfLast(pairs, (name, value));
      if last.0 == name {
        CountOfLast(ValuesOf(init, name) + [last.1], value);
        assert (ValuesOf(init, name) + [last.1])[..|ValuesOf(init, name)|] == ValuesOf(init, name);
      } else {
        assert ValuesOf(init, name) + [] == ValuesOf(init, name);
      }
    }
  }

  lemma NoValueIsAbsence(pairs: seq<Pair>, name: string)
    ensures ValuesOf(pairs, name) == [] <==> Absent(multiset(pairs), name)
  {
    var values := ValuesOf(pairs, name);
    if values == [] {
      forall p | p in multiset(pairs) ensures p.0 != name {
        ValuesAreCounted(pairs, p.0, p.1);
      }
    } else {
      ValuesAreCounted(pairs, name, values[0]);
      assert values[0] in values;
      assert (name, values[0]) in multiset(pairs);
    }
  }

  lemma OneValueIsOnce(pairs: seq<Pair>, name: string, value: string)
    ensures ValuesOf(pairs, name) == [value] <==> Once(multiset(pairs), name, value)
  {
    var values := ValuesOf(pairs, name);
    ValuesAreCounted(pairs, name, value);
    if values == [value] {
      forall p | p in multiset(pairs) && p.0 == name ensures p.1 == value {
        ValuesAreCounted(pairs, name, p.1);
        assert p == (name, p.1);
        assert p.1 in values;
      }
    }
    if Once(multiset(pairs), name, value) {
      forall i | 0 <= i < |values| ensures values[i] == value {
        ValuesAreCounted(pairs, name, values[i]);
        assert values[i] in values;
        assert (name, values[i]) in multiset(pairs);
      }
      AllEqualCount(values, value);
      assert |values| == 1;
    }
  }

  lemma {:induction false} AllEqualCount(values: seq<string>, value: string)
    requires forall i :: 0 <= i < |values| ==> values[i] == value
    ensures multiset(values)[value] == |values|
  {
    if values != [] {
      AllEqualCount(values[1..], value);
      assert values == [values[0]] + values[1..];
    }
  }

  lemma FewValuesAreAtMostOnce(pairs: seq<Pair>, name: string)
    ensures |ValuesOf(pairs, name)| <= 1 <==> AtMostOnce(multiset(pairs), name)
  {
    NoValueIsAbsence(pairs, name);
    var values := ValuesOf(pairs, name);
    if |values| == 1 {
      assert values == [values[0]];
      OneValueIsOnce(pairs, name, values[0]);
    }
    if AtMostOnce(multiset(pairs), name) && !Absent(multiset(pairs), name) {
      var v :| Once(multiset(pairs), name, v);
      OneValueIsOnce(pairs, name, v);
    }
  }

  /** The pattern of a positive numeral without leading zeros. */
  predicate IsPositiveNumeral(s: string) {
    AllDigits(s) && s != [] && s[0] != '0'
  }

  lemma NumeralDeclares(pairs: seq<Pair>, bound: nat)
    ensures var lengths := ValuesOf(pairs, "content-length");
            |lengths| == 1 && IsPositiveNumeral(lengths[0]) && DecimalValue(lengths[0]) <= bound
            <==> DeclaresUpTo(multiset(pairs), bound)
  {
    var lengths := ValuesOf(pairs, "content-length");
    if |lengths| == 1 && IsPositiveNumeral(lengths[0]) && DecimalValue(lengths[0]) <= bound {
      var n := DecimalValue(lengths[0]);
      CanonicalNumeralIsPrinted(lengths[0]);
      assert lengths == [Decimal(n)];
      OneValueIsOnce(pairs, "content-length", Decimal(n));
    }
    if DeclaresUpTo(multiset(pairs), bound) {
      var n: nat :| 1 <= n <= bound && Once(multiset(pairs), "content-length", Decimal(n));
      OneValueIsOnce(pairs, "content-length", Decimal(n));
      DecimalRoundTrip(n);
    }
  }

  lemma ValuesOfNext(pairs: seq<Pair>, k: nat, name: string)
    requires k < |pairs|
    ensures ValuesOf(pairs[..k + 1], name) ==
            ValuesOf(pairs[..k], name) + (if pairs[k].0 == name then [pairs[k].1] else [])
  {
    assert pairs[..k + 1][..k] == pairs[..k];
  }

  /** `counts` holds the number of values of every name that has one. */
  ghost predicate CountsNames(counts: map<string, nat>, pairs: seq<Pair>) {
    forall name :: if name in counts then counts[name] == |ValuesOf(pairs, name)| > 0 else ValuesOf(pairs, name) == []
  }

  lemma CountNext(counts: map<string, nat>, pairs: seq<Pair>, k: nat)
    requires k < |pairs| && CountsNames(counts, pairs[..k])
    ensures var name := pairs[k].0;
            CountsNames(counts[name := (if name in counts then counts[name] else 0) + 1], pairs[..k + 1])
  {
    var name := pairs[k].0;
    var after := counts[name := (if name in counts then counts[name] else 0) + 1];
    forall other
      ensures if other in after then after[other] == |ValuesOf(pairs[..k + 1], other)| > 0
              else ValuesOf(pairs[..k + 1], other) == []
    {
      ValuesOfNext(pairs, k, other);
    }
  }

  /** How often each name occurs: the second scan of a mobile request. */
  method CountNames(raw: seq<string>) returns (counts: map<string, nat>)
    ensures CountsNames(counts, Pairs(raw))
  {
    counts := map[];
    ghost var pairs, k := Pairs(raw), 0;
    var i := 0;
    while i < |raw|
      invariant i == 2 * k && k <= |pairs|
      invariant CountsNames(counts, pairs[..k])
    {
      var name := ToLower(raw[i]);
      CountNext(counts, pairs, k);
      counts := counts[name := (if name in counts then counts[name] else 0) + 1];
      i, k := i + 2, k + 1;
    }
    assert pairs[..k] == pairs;
  }

  /** The first scan: the Content-Length values and the number of Transfer-Encoding names. */
  method ScanLengths(raw: seq<string>) returns (lengths: seq<string>, transferCount: nat)
    ensures lengths == ValuesOf(Pairs(raw), "content-length")
    ensures transferCount == |ValuesOf(Pairs(raw), "transfer-encoding")|
  {
    lengths, transferCount := [], 0;
    ghost var pairs, k := Pairs(raw), 0;
    var index := 0;
    while index < |raw|
      invariant index == 2 * k && k <= |pairs|
      invariant lengths == ValuesOf(pairs[..k], "content-length")
      invariant transferCount == |ValuesOf(pairs[..k], "transfer-encoding")|
    {
      var name := ToLower(raw[index]);
      ValuesOfNext(pairs, k, "content-length");
      ValuesOfNext(pairs, k, "transfer-encoding");
      assert pairs[k] == HeaderPair(raw, k);
      if name == "content-length" {
        lengths := lengths + [if index + 1 < |raw| then raw[index + 1] else ""];
      }
      if name == "transfer-encoding" {
        transferCount := transferCount + 1;
      }
      index, k := index + 2, k + 1;
    }
    assert pairs[..k] == pairs;
  }

  /** `some` over the names that may occur once. */
  method NoneRepeats(counts: map<string, nat>, names: seq<string>, ghost pairs: seq<Pair>) returns (accepted: bool)
    requires CountsNames(counts, pairs)
    ensures accepted <==> forall j :: 0 <= j < |names| ==> AtMostOnce(multiset(pairs), names[j])
  {
    var i := 0;
    while i < |names|
      invariant 0 <= i <= |names|
      invariant forall j :: 0 <= j < i ==> AtMostOnce(multiset(pairs), names[j])
    {
      FewValuesAreAtMostOnce(pairs, names[i]);
      if names[i] in counts && counts[names[i]] > 1 { return false; }
      i := i + 1;
    }
    return true;
  }

  const SINGLE_NAMES := ["host", "origin", "content-type", "cookie", "x-hodlxxi-mobile-csrf"]

  method MobileHeadersAccepted(raw: seq<string>) returns (accepted: bool)
    ensures accepted == MobileHeaders(multiset(Pairs(raw)))
  {
    ghost var pairs := Pairs(raw);
    var counts := CountNames(raw);
    var single := NoneRepeats(counts, SINGLE_NAMES, pairs);
    NoValueIsAbsence(pairs, "content-encoding");
    NoValueIsAbsence(pairs, "authorization");
    NoValueIsAbsence(pairs, "x-hodlxxi-viewer-authorization");
    return single && "content-encoding" !in counts && "authorization" !in counts
           && "x-hodlxxi-viewer-authorization" !in counts;
  }

  /** The framing decision is exactly the rule on the multiset of header pairs. */
  method MessagingBodyFraming(request: Request, mobileRoutes: seq<string>) returns (accepted: bool)
    ensures accepted == Framed(multiset(Pairs(request.rawHeaders)), request.verb, request.target, mobileRoutes)
  {
    var target := request.target;
    ghost var pairs := Pairs(request.rawHeaders);
    var lengths, transferCount := ScanLengths(request.rawHeaders);
    NoValueIsAbsence(pairs, "transfer-encoding");
    if transferCount > 0 { return false; }
    if IsMobile(mobileRoutes, target) {
      if target.hasQuery || request.verb != "POST" { return false; }
      var headers := MobileHeadersAccepted(request.rawHeaders);
      NumeralDeclares(pairs, MOBILE_BOUND);
      return headers && |lengths| == 1 && IsPositiveNumeral(lengths[0]) && DecimalValue(lengths[0]) <= MOBILE_BOUND;
    }
    if IsMessagingPost(request.verb, target) {
      NumeralDeclares(pairs, MessagingBound(target));
      return |lengths| == 1 && IsPositiveNumeral(lengths[0]) && DecimalValue(lengths[0]) <= MessagingBound(target);
    }
    NoValueIsAbsence(pairs, "content-length");
    OneValueIsOnce(pairs, "content-length", "0");
    return |lengths| == 0 || (|lengths| == 1 && lengths[0] == "0");
  }

  /** Every index below `n` once, in some order. */
  ghost predicate IsOrder(order: seq<nat>, n: nat) {
    (forall i :: 0 <= i < |order| ==> order[i] < n) && multiset(order) == multiset(Indices(n))
  }

  function Indices(n: nat): (r: seq<nat>)
    ensures |r| == n && forall i :: 0 <= i < n ==> r[i] == i
  {
    seq(n, i requires 0 <= i < n => i)
  }

  /** The raw list with its pairs in another order. */
  function Reordered(raw: seq<string>, order: seq<nat>): (r: seq<string>)
    requires forall i :: 0 <= i < |order| ==> 2 * order[i] + 1 < |raw|
    ensures |r| == 2 * |order|
  {
    if order == [] then []
    else
      var init, last := order[..|order| - 1], order[|order| - 1];
      Reordered(raw, init) + [raw[2 * last], raw[2 * last + 1]]
  }

  function PairAt(raw: seq<string>): nat -> Pair {
    (i: nat) => if 2 * i < |raw| then HeaderPair(raw, i) else ("", "")
  }

  lemma {:induction false} ReorderedPairs(raw: seq<string>, order: seq<nat>)
    requires |raw| % 2 == 0 && forall i :: 0 <= i < |order| ==> order[i] < |raw| / 2
    ensures Pairs(Reordered(raw, order)) == Mapped(PairAt(raw), order)
  {
    if order != [] {
      var init, last := order[..|order| - 1], order[|order| - 1];
      ReorderedPairs(raw, init);
      PairsOfAppend(Reordered(raw, init), [raw[2 * last], raw[2 * last + 1]]);
      OnePair(raw, last);
      MappedLast(PairAt(raw), order);
    }
  }

  lemma OnePair(raw: seq<string>, i: nat)
    requires 2 * i + 1 < |raw|
    ensures Pairs([raw[2 * i], raw[2 * i + 1]]) == [PairAt(raw)(i)]
  {
  }

  /** Putting the header pairs in any other order leaves the multiset of pairs the same. */
  lemma ReorderingKeepsPairs(raw: seq<string>, order: seq<nat>)
    requires |raw| % 2 == 0 && IsOrder(order, |raw| / 2)
    ensures multiset(Pairs(Reordered(raw, order))) == multiset(Pairs(raw))
  {
    ReorderedPairs(raw, order);
    MappedAlike(PairAt(raw), order, Indices(|raw| / 2));
    assert Mapped(PairAt(raw), Indices(|raw| / 2)) == Pairs(raw);
  }

  lemma PairOfAppend(a: seq<string>, b: seq<string>, i: nat)
    requires |a| % 2 == 0 && 2 * i < |a + b|
    ensures HeaderPair(a + b, i) == if 2 * i < |a| then HeaderPair(a, i) else HeaderPair(b, i - |a| / 2)
  {
    assert (a + b)[2 * i] == if 2 * i < |a| then a[2 * i] else b[2 * i - |a|];
  }

  lemma PairsOfAppend(a: seq<string>, b: seq<string>)
    requires |a| % 2 == 0
    ensures Pairs(a + b) == Pairs(a) + Pairs(b)
  {
    forall i | 0 <= i < |Pairs(a + b)| ensures Pairs(a + b)[i] == (Pairs(a) + Pairs(b))[i] {
      PairOfAppend(a, b, i);
    }
  }

  // --- bounded body reading ------------------------------------------------------

  function Concat(parts: seq<seq<bv8>>): seq<bv8> {
    if parts == [] then [] else Concat(parts[..|parts| - 1]) + parts[|parts| - 1]
  }

  /** The bytes of chunks that are all byte chunks. */
  function Joined(chunks: seq<Chunk>): Option<seq<bv8>> {
    if chunks == [] then Some([])
    else
      var init, last := Joined(chunks[..|chunks| - 1]), chunks[|chunks| - 1];
      if init.Some? && last.Bytes? then Some(init.value + last.data) else None
  }

  /** The bytes of a body that was delivered whole. */
  function Delivered(body: Stream): Option<seq<bv8>> {
    if body.failed then None else Joined(body.chunks)
  }

  function WithinBounds(bytes: Option<seq<bv8>>, least: nat, most: nat): Option<seq<bv8>> {
    if bytes.Some? && least <= |bytes.value| <= most then bytes else None
  }

  /** What the messaging reader makes of a body. */
  function MessagingBody(body: Stream, maximum: nat): Option<seq<bv8>> {
    WithinBounds(Delivered(body), 1, maximum)
  }

  /** What the mobile reader makes of a body. */
  function MobileBody(body: Stream, declared: Option<nat>): Option<seq<bv8>> {
    if declared.None? then None
    else WithinBounds(WithinBounds(Delivered(body), 0, MOBILE_BOUND), declared.value, declared.value)
  }

  // --- reading a body ----------------------------------------------------------

  /** What a reader holds between two chunks: the chunks it kept and their total size; or
      nothing, once it has thrown. */
  datatype Reading = Keeping(kept: seq<seq<bv8>>, size: nat) | Thrown

  /** One turn of the loop, shared by both readers. */
  function Taken(reading: Reading, chunk: Chunk, maximum: nat): Reading {
    if reading.Thrown? || chunk.Foreign? || reading.size + |chunk.data| > maximum then Thrown
    else Keeping(reading.kept + [chunk.data], reading.size + |chunk.data|)
  }

  function AfterChunks(chunks: seq<Chunk>, maximum: nat): Reading {
    if chunks == [] then Keeping([], 0)
    else Taken(AfterChunks(chunks[..|chunks| - 1], maximum), chunks[|chunks| - 1], maximum)
  }

  /** After every prefix of every body a reader holds either nothing or exactly the bytes of
      that prefix, at most `maximum` of them; and it holds nothing exactly if the prefix has
      something foreign in it or is too long. */
  lemma {:induction false} RetentionIsBounded(chunks: seq<Chunk>, maximum: nat)
    ensures match AfterChunks(chunks, maximum)
            case Thrown => WithinBounds(Joined(chunks), 0, maximum).None?
            case Keeping(kept, size) => size == |Concat(kept)| <= maximum && Joined(chunks) == Some(Concat(kept))
  {
    if chunks != [] {
      var init, last := chunks[..|chunks| - 1], chunks[|chunks| - 1];
      RetentionIsBounded(init, maximum);
      if AfterChunks(chunks, maximum).Keeping? {
        var kept := AfterChunks(init, maximum).kept;
        assert (kept + [last.data])[..|kept|] == kept;
      }
    }
  }

  lemma {:induction false} ThrownIsFinal(chunks: seq<Chunk>, i: nat, maximum: nat)
    requires i <= |chunks| && AfterChunks(chunks[..i], maximum).Thrown?
    ensures AfterChunks(chunks, maximum).Thrown?
  {
    if i < |chunks| {
      assert chunks[..|chunks| - 1][..i] == chunks[..i];
      ThrownIsFinal(chunks[..|chunks| - 1], i, maximum);
    } else {
      assert chunks[..i] == chunks;
    }
  }

  lemma NextTurn(chunks: seq<Chunk>, i: nat, maximum: nat)
    requires i < |chunks|
    ensures AfterChunks(chunks[..i + 1], maximum) == Taken(AfterChunks(chunks[..i], maximum), chunks[i], maximum)
  {
    assert chunks[..i + 1][..i] == chunks[..i];
  }

  /** What the messaging reader makes of what it holds at the end. */
  function MessagingEnd(reading: Reading, failed: bool): Option<seq<bv8>> {
    if failed || reading.Thrown? || reading.size < 1 then None else Some(Concat(reading.kept))
  }

  /** What the mobile reader makes of it. */
  function MobileEnd(reading: Reading, failed: bool, declared: Option<nat>): Option<seq<bv8>> {
    if failed || reading.Thrown? || declared != Some(reading.size) then None else Some(Concat(reading.kept))
  }

  lemma EndsAreBodies(body: Stream, maximum: nat, declared: Option<nat>)
    ensures MessagingEnd(AfterChunks(body.chunks, maximum), body.failed) == MessagingBody(body, maximum)
    ensures MobileEnd(AfterChunks(body.chunks, MOBILE_BOUND), body.failed, declared) == MobileBody(body, declared)
  {
    RetentionIsBounded(body.chunks, maximum);
    RetentionIsBounded(body.chunks, MOBILE_BOUND);
  }

  /** The body of a messaging request: all its bytes, if there are between 1 and `maximum`
      of them. Between two chunks the loop holds what `AfterChunks` says. */
  method ReadMessagingBody(body: Stream, maximum: nat) returns (bytes: Option<seq<bv8>>)
    ensures bytes == MessagingEnd(AfterChunks(body.chunks, maximum), body.failed)
    ensures bytes == MessagingBody(body, maximum)
  {
    EndsAreBodies(body, maximum, None);
    var chunks: seq<seq<bv8>>, length: nat, i := [], 0, 0;
    while i < |body.chunks|
      invariant 0 <= i <= |body.chunks|
      invariant AfterChunks(body.chunks[..i], maximum) == Keeping(chunks, length)
    {
      var chunk := body.chunks[i];
      NextTurn(body.chunks, i, maximum);
      if AfterChunks(body.chunks[..i + 1], maximum).Thrown? {
        ThrownIsFinal(body.chunks, i + 1, maximum);
      }
      if !chunk.Bytes? { return None; }
      length := length + |chunk.data|;
      if length > maximum { return None; }
      chunks := chunks + [chunk.data];
      i := i + 1;
    }
    assert body.chunks[..i] == body.chunks;
    if body.failed || length < 1 { return None; }
    return Some(Concat(chunks));
  }

  /** The body of a mobile request: all its bytes, if they are exactly as many as declared
      and no more than the bound. Its loop holds what `AfterChunks` says, too. */
  method ReadMobileBody(body: Stream, declared: Option<nat>) returns (bytes: Option<seq<bv8>>)
    ensures bytes == MobileEnd(AfterChunks(body.chunks, MOBILE_BOUND), body.failed, declared)
    ensures bytes == MobileBody(body, declared)
  {
    EndsAreBodies(body, MOBILE_BOUND, declared);
    var chunks: seq<seq<bv8>>, size: nat, i := [], 0, 0;
    while i < |body.chunks|
      invariant 0 <= i <= |body.chunks|
      invariant AfterChunks(body.chunks[..i], MOBILE_BOUND) == Keeping(chunks, size)
    {
      var chunk := body.chunks[i];
      NextTurn(body.chunks, i, MOBILE_BOUND);
      if AfterChunks(body.chunks[..i + 1], MOBILE_BOUND).Thrown? {
        ThrownIsFinal(body.chunks, i + 1, MOBILE_BOUND);
      }
      if !chunk.Bytes? { return None; }
      size := size + |chunk.data|;
      if size > MOBILE_BOUND { return None; }
      chunks := chunks + [chunk.data];
      i := i + 1;
    }
    assert body.chunks[..i] == body.chunks;
    if body.failed || declared != Some(size) { return None; }
    return Some(Concat(chunks));
  }

  /** The chunks that carry these pieces of data. */
  function AsChunks(pieces: seq<seq<bv8>>): (chunks: seq<Chunk>)
    ensures |chunks| == |pieces|
    ensures forall i :: 0 <= i < |chunks| ==> chunks[i] == Bytes(pieces[i])
  {
    seq(|pieces|, i requires 0 <= i < |pieces| => Bytes(pieces[i]))
  }

  lemma {:induction false} ChunksJoin(pieces: seq<seq<bv8>>)
    ensures Joined(AsChunks(pieces)) == Some(Concat(pieces))
  {
    if pieces != [] {
      var init := pieces[..|pieces| - 1];
      ChunksJoin(init);
      assert AsChunks(pieces)[..|pieces| - 1] == AsChunks(init);
    }
  }

  lemma {:induction false} ForeignNeverJoins(chunks: seq<Chunk>, i: nat)
    requires i < |chunks| && chunks[i].Foreign?
    ensures Joined(chunks).None?
  {
    if i < |chunks| - 1 {
      ForeignNeverJoins(chunks[..|chunks| - 1], i);
    }
  }

  /** A list of chunks either carries pieces of data or holds something foreign. */
  lemma PiecesOf(chunks: seq<Chunk>) returns (pieces: seq<seq<bv8>>)
    ensures (forall i :: 0 <= i < |chunks| ==> chunks[i].Bytes?) ==> chunks == AsChunks(pieces)
  {
    pieces := seq(|chunks|, i requires 0 <= i < |chunks| => if chunks[i].Bytes? then chunks[i].data else []);
  }

  /** However the same bytes are split into pieces, and whether or not the stream then
      breaks off, both readers make the same of them: messaging for every bound, mobile for
      every declared length. */
  lemma ChunkingIsIrrelevant(pieces1: seq<seq<bv8>>, pieces2: seq<seq<bv8>>, failed: bool, maximum: nat,
                             declared: Option<nat>)
    requires Concat(pieces1) == Concat(pieces2)
    ensures var body1, body2 := Stream(AsChunks(pieces1), failed), Stream(AsChunks(pieces2), failed);
            && MessagingBody(body1, maximum) == MessagingBody(body2, maximum)
            && MobileBody(body1, declared) == MobileBody(body2, declared)
  {
    ChunksJoin(pieces1);
    ChunksJoin(pieces2);
  }

  /** A reader accepts exactly streams that end, of byte chunks only, whose data has the
      right length; and it returns that data. */
  lemma ReadersReturnTheData(body: Stream, maximum: nat, declared: Option<nat>, data: seq<bv8>)
    ensures MessagingBody(body, maximum) == Some(data) <==>
            !body.failed && 1 <= |data| <= maximum && Carries(body.chunks, data)
    ensures MobileBody(body, declared) == Some(data) <==>
            !body.failed && |data| <= MOBILE_BOUND && declared == Some(|data|) && Carries(body.chunks, data)
  {
    var pieces := PiecesOf(body.chunks);
    if forall i :: 0 <= i < |body.chunks| ==> body.chunks[i].Bytes? {
      ChunksJoin(pieces);
      assert Carries(body.chunks, Concat(pieces));
    } else {
      var i :| 0 <= i < |body.chunks| && body.chunks[i].Foreign?;
      ForeignNeverJoins(body.chunks, i);
    }
    if Carries(body.chunks, data) {
      var others :| body.chunks == AsChunks(others) && Concat(others) == data;
      ChunksJoin(others);
    }
  }

  /** The chunks carry pieces of this data, in order, and nothing else. */
  ghost predicate Carries(chunks: seq<Chunk>, data: seq<bv8>) {
    exists pieces :: chunks == AsChunks(pieces) && Concat(pieces) == data
  }

  // --- the handler -------------------------------------------------------------

  datatype Response = Response(status: int, headers: seq<(string, HeaderValue)>, body: string)

  /** What the bff is asked; `body` is present only where one was read. */
  datatype BffRequest = BffRequest(verb: string, url: string, headers: map<string, string>, body: Option<string>)

  datatype BffOutcome = Replied(response: Response) | Threw

  /** What the handler is built from: the enabled mobile routes, the two decodings of body
      bytes (the lossy one always yields text), the expired transaction cookie and the bff;
      and `Number`, where it yields a size. */
  datatype Server = Server(
    mobileRoutes: seq<string>, lossy: seq<bv8> -> string, strict: seq<bv8> -> Option<string>, expiredCookie: string,
    bff: BffRequest -> BffOutcome, number: string -> Option<nat>)

  /** `Number` reads a canonical numeral as the number it spells; what it makes of other
      texts is left open. */
  ghost predicate ReadsNumerals(server: Server) {
    forall n: nat {:trigger Decimal(n)} :: server.number(Decimal(n)) == Some(n)
  }

  /** `createHttpHandler` refuses any other route. */
  predicate IsMobileRoute(path: string) {
    path == "/auth/logout" || "/auth/mobile/v1" <= path
  }

  predicate IsConfigured(server: Server) {
    forall i :: 0 <= i < |server.mobileRoutes| ==> IsMobileRoute(server.mobileRoutes[i])
  }

  const REJECTED := "{\"error\":\"request_rejected\"}"

  const SECURITY_HEADERS := [
    ("Cache-Control", One("no-store")), ("Referrer-Policy", One("no-referrer")),
    ("X-Content-Type-Options", One("nosniff")), ("Content-Type", One("application/json; charset=utf-8"))]

  function Rejection(server: Server, target: Target, framed: bool): Response {
    Response(if framed then 400 else 413,
             SECURITY_HEADERS
             + (if target.callback && !framed then [("Set-Cookie", One(server.expiredCookie))] else []),
             REJECTED)
  }

  const FAILURE := Response(500, SECURITY_HEADERS, REJECTED)

  /** What `Number` reads from the Content-Length the HTTP parser kept. */
  function DeclaredLength(server: Server, headers: map<string, HeaderValue>): Option<nat> {
    if "content-length" in headers && headers["content-length"].One?
    then server.number(headers["content-length"].value) else None
  }

  datatype BodyOutcome = NoBody | Text(text: string) | Unavailable

  /** The body a request hands to the bff. */
  function BodyOf(server: Server, request: Request): BodyOutcome {
    if IsMobile(server.mobileRoutes, request.target) then
      var bytes := MobileBody(request.body, DeclaredLength(server, request.headers));
      var text := if bytes.None? then None else server.strict(bytes.value);
      if text.None? then Unavailable else Text(text.value)
    else if IsMessagingPost(request.verb, request.target) then
      var bytes := MessagingBody(request.body, MessagingBound(request.target));
      if bytes.None? then Unavailable else Text(server.lossy(bytes.value))
    else NoBody
  }

  function SingleHeaders(headers: map<string, HeaderValue>): map<string, string> {
    map k | k in headers && headers[k].One? :: headers[k].value
  }

  function AskFor(server: Server, request: Request): BffRequest {
    var body := BodyOf(server, request);
    BffRequest(request.verb, request.url, SingleHeaders(request.headers),
               if body.Text? then Some(body.text) else None)
  }

  ghost predicate Admitted(server: Server, request: Request) {
    request.target.valid
    && Framed(multiset(Pairs(request.rawHeaders)), request.verb, request.target, server.mobileRoutes)
  }

  /** The requests made of the bff. */
  ghost function Asked(server: Server, request: Request): seq<BffRequest> {
    if !Admitted(server, request) || BodyOf(server, request).Unavailable? then [] else [AskFor(server, request)]
  }

  /** The one response. */
  ghost function Answer(server: Server, request: Request): Response {
    if !Admitted(server, request) then
      Rejection(server, request.target,
                Framed(multiset(Pairs(request.rawHeaders)), request.verb, request.target, server.mobileRoutes))
    else if BodyOf(server, request).Unavailable? then FAILURE
    else match server.bff(AskFor(server, request))
         case Replied(response) => response
         case Threw => FAILURE
  }

  function WithHeaders(headers: map<string, HeaderValue>, more: seq<(string, HeaderValue)>): map<string, HeaderValue> {
    if more == [] then headers
    else WithHeaders(headers, more[..|more| - 1])[more[|more| - 1].0 := more[|more| - 1].1]
  }

  class Outgoing {
    var statusCode: int
    var headers: map<string, HeaderValue>
    var ended: seq<string>

    method SetHeader(name: string, value: HeaderValue)
      modifies this
      ensures headers == old(headers)[name := value] && statusCode == old(statusCode) && ended == old(ended)
    {
      headers := headers[name := value];
    }

    method End(body: string)
      modifies this
      ensures ended == old(ended) + [body] && statusCode == old(statusCode) && headers == old(headers)
    {
      ended := ended + [body];
    }

    method Send(result: Response)
      modifies this
      ensures statusCode == result.status && headers == WithHeaders(old(headers), result.headers)
      ensures ended == old(ended) + [result.body]
    {
      statusCode := result.status;
      var i := 0;
      while i < |result.headers|
        invariant 0 <= i <= |result.headers|
        invariant statusCode == result.status && ended == old(ended)
        invariant headers == WithHeaders(old(headers), result.headers[..i])
      {
        assert result.headers[..i + 1][..i] == result.headers[..i];
        SetHeader(result.headers[i].0, result.headers[i].1);
        i := i + 1;
      }
      assert result.headers[..i] == result.headers;
      End(result.body);
    }
  }

  method CopySingleHeaders(incoming: map<string, HeaderValue>) returns (headers: map<string, string>)
    ensures headers == SingleHeaders(incoming)
  {
    headers := map[];
    var pending := incoming.Keys;
    while pending != {}
      invariant pending <= incoming.Keys
      invariant headers == map k | k in incoming && k !in pending && incoming[k].One? :: incoming[k].value
      decreases |pending|
    {
      var name :| name in pending;
      pending := pending - {name};
      if incoming[name].One? {
        headers := headers[name := incoming[name].value];
      }
    }
  }

  method ReadBody(server: Server, request: Request) returns (body: BodyOutcome)
    requires IsConfigured(server)
    ensures body == BodyOf(server, request)
  {
    body := NoBody;
    if IsMobile(server.mobileRoutes, request.target) {
      RoutesAreDisjoint(server, request);
      var bytes := ReadMobileBody(request.body, DeclaredLength(server, request.headers));
      if bytes.None? { return Unavailable; }
      var text := server.strict(bytes.value);
      if text.None? { return Unavailable; }
      body := Text(text.value);
    }
    if IsMessagingPost(request.verb, request.target) {
      var bytes := ReadMessagingBody(request.body, MessagingBound(request.target));
      if bytes.None? { return Unavailable; }
      body := Text(server.lossy(bytes.value));
    }
  }

  /** No enabled mobile route is a messaging route, so no body is read twice. */
  lemma RoutesAreDisjoint(server: Server, request: Request)
    requires IsConfigured(server) && IsMobile(server.mobileRoutes, request.target)
    ensures request.target.path !in [BINDINGS, INTENTS, AUTHORIZATIONS]
  {
    assert IsMobileRoute(request.target.path);
    assert BINDINGS[7] == 'e' && INTENTS[7] == 'e' && AUTHORIZATIONS[7] == 'e';
    assert "/auth/mobile/v1"[7] == 'o' && "/auth/logout"[6] == 'l';
  }

  /** Answers exactly once, and asks the bff exactly what it should. */
  method Handle(server: Server, request: Request, outgoing: Outgoing) returns (asked: seq<BffRequest>)
    requires IsConfigured(server)
    modifies outgoing
    ensures asked == Asked(server, request)
    ensures outgoing.ended == old(outgoing.ended) + [Answer(server, request).body]
    ensures outgoing.statusCode == Answer(server, request).status
    ensures outgoing.headers == WithHeaders(old(outgoing.headers), Answer(server, request).headers)
    ensures asked != [] && server.bff(asked[0]).Replied? ==>
              var reply := server.bff(asked[0]).response;
              && outgoing.statusCode == reply.status && outgoing.ended == old(outgoing.ended) + [reply.body]
              && outgoing.headers == WithHeaders(old(outgoing.headers), reply.headers)
    ensures asked == [] || server.bff(asked[0]).Threw? ==>
              && outgoing.statusCode in {400, 413, 500}
              && outgoing.ended == old(outgoing.ended) + ["{\"error\":\"request_rejected\"}"]
  {
    asked := [];
    var framed := MessagingBodyFraming(request, server.mobileRoutes);
    if !request.target.valid || !framed {
      outgoing.Send(Rejection(server, request.target, framed));
      return;
    }
    var headers := CopySingleHeaders(request.headers);
    var body := ReadBody(server, request);
    if body.Unavailable? {
      outgoing.Send(FAILURE);
      return;
    }
    var ask := BffRequest(request.verb, request.url, headers, if body.Text? then Some(body.text) else None);
    asked := [ask];
    match server.bff(ask) {
      case Replied(response) => outgoing.Send(response);
      case Threw => outgoing.Send(FAILURE);
    }
  }

  lemma BodyIgnoresRawHeaders(server: Server, request: Request, raw: seq<string>)
    ensures BodyOf(server, request.(rawHeaders := raw)) == BodyOf(server, request)
    ensures AskFor(server, request.(rawHeaders := raw)) == AskFor(server, request)
  {
  }

  /** Two requests that differ in their raw headers only, and there only in the order of
      the pairs, are treated alike. */
  ghost predicate TreatedAlike(server: Server, request: Request, other: Request) {
    && Admitted(server, other) == Admitted(server, request)
    && Asked(server, other) == Asked(server, request) && Answer(server, other) == Answer(server, request)
  }

  lemma SamePairsSameDecision(server: Server, request: Request, raw: seq<string>)
    requires multiset(Pairs(raw)) == multiset(Pairs(request.rawHeaders))
    ensures TreatedAlike(server, request, request.(rawHeaders := raw))
  {
    BodyIgnoresRawHeaders(server, request, raw);
    var other := request.(rawHeaders := raw);
    assert Admitted(server, other) == Admitted(server, request);
  }

  /** Every decision of the handler depends on the raw headers only through the multiset of
      their pairs: with the pairs in any other order, the header scan decides the same, the
      bff is asked the same and the answer is the same. */
  lemma PairOrderIsIrrelevant(server: Server, request: Request, order: seq<nat>, raw: seq<string>)
    requires |request.rawHeaders| % 2 == 0 && IsOrder(order, |request.rawHeaders| / 2)
    requires raw == Reordered(request.rawHeaders, order)
    ensures TreatedAlike(server, request, request.(rawHeaders := raw))
  {
    ReorderingKeepsPairs(request.rawHeaders, order);
    SamePairsSameDecision(server, request, raw);
  }

  // --- what reaches the bff ------------------------------------------------------

  /** The HTTP parser keeps the only Content-Length of the raw list as it stands. */
  ghost predicate ParserKeptLength(request: Request) {
    forall v :: Once(multiset(Pairs(request.rawHeaders)), "content-length", v) ==>
                  "content-length" in request.headers && request.headers["content-length"] == One(v)
  }

  function RouteBound(server: Server, request: Request): nat {
    if IsMobile(server.mobileRoutes, request.target) then MOBILE_BOUND else MessagingBound(request.target)
  }

  /** `text` decodes `bytes`, all the bytes delivered; one Content-Length declares `n`. Both
      are within the bound of the route, and on mobile routes they agree. */
  ghost predicate IsFramedBody(server: Server, request: Request, n: nat, bytes: seq<bv8>, text: string) {
    var mobile := IsMobile(server.mobileRoutes, request.target);
    && 1 <= n <= RouteBound(server, request)
    && Once(multiset(Pairs(request.rawHeaders)), "content-length", Decimal(n))
    && Delivered(request.body) == Some(bytes) && 1 <= |bytes| <= RouteBound(server, request)
    && Some(text) == (if mobile then server.strict(bytes) else Some(server.lossy(bytes)))
    && (mobile ==> |bytes| == n)
  }

  lemma MobileBodyIsFramed(server: Server, request: Request)
    requires ReadsNumerals(server) && ParserKeptLength(request) && Admitted(server, request)
    requires IsMobile(server.mobileRoutes, request.target)
    requires BodyOf(server, request).Text?
    ensures exists n: nat, bytes :: IsFramedBody(server, request, n, bytes, BodyOf(server, request).text)
  {
    var headers := multiset(Pairs(request.rawHeaders));
    assert DeclaresUpTo(headers, MOBILE_BOUND);
    var n: nat :| 1 <= n <= MOBILE_BOUND && Once(headers, "content-length", Decimal(n));
    assert DeclaredLength(server, request.headers) == Some(n);
    var bytes := Delivered(request.body).value;
    assert IsFramedBody(server, request, n, bytes, BodyOf(server, request).text);
  }

  lemma MessagingBodyIsFramed(server: Server, request: Request)
    requires Admitted(server, request) && !IsMobile(server.mobileRoutes, request.target)
    requires IsMessagingPost(request.verb, request.target) && BodyOf(server, request).Text?
    ensures exists n: nat, bytes :: IsFramedBody(server, request, n, bytes, BodyOf(server, request).text)
  {
    var headers := multiset(Pairs(request.rawHeaders));
    assert DeclaresUpTo(headers, MessagingBound(request.target));
    var n: nat :| 1 <= n <= MessagingBound(request.target) && Once(headers, "content-length", Decimal(n));
    var bytes := Delivered(request.body).value;
    assert IsFramedBody(server, request, n, bytes, BodyOf(server, request).text);
  }

  /** The bff is asked at most once, and never after a rejection. It gets a body exactly on
      the listed POST routes; that body is the decoding of all the bytes delivered, no more
      than the bound of the route, under one Content-Length and no Transfer-Encoding; and
      on mobile routes there are exactly as many bytes as declared. */
  lemma BffGetsOnlyFramedBodies(server: Server, request: Request)
    requires ReadsNumerals(server) && ParserKeptLength(request) && Asked(server, request) != []
    ensures |Asked(server, request)| == 1 && request.target.valid
    ensures Absent(multiset(Pairs(request.rawHeaders)), "transfer-encoding")
    ensures var mobile := IsMobile(server.mobileRoutes, request.target);
            var body := Asked(server, request)[0].body;
            && (body.Some? <==> (mobile && request.verb == "POST") || IsMessagingPost(request.verb, request.target))
            && (body.Some? ==> exists n: nat, bytes :: IsFramedBody(server, request, n, bytes, body.value))
  {
    if BodyOf(server, request).Text? {
      if IsMobile(server.mobileRoutes, request.target) {
        MobileBodyIsFramed(server, request);
      } else {
        MessagingBodyIsFramed(server, request);
      }
    }
  }

  // --- what the client receives --------------------------------------------------

  /** The rejection with this status, and these header pairs besides the fixed ones. */
  ghost predicate IsRejection(response: Response, status: int, more: seq<(string, HeaderValue)>) {
    && response.status == status && response.body == "{\"error\":\"request_rejected\"}"
    && response.headers ==
       [("Cache-Control", One("no-store")), ("Referrer-Policy", One("no-referrer")),
        ("X-Content-Type-Options", One("nosniff")), ("Content-Type", One("application/json; charset=utf-8"))] + more
  }

  /** The client receives the reply of the bff as it stands, whenever the bff was asked and
      replied. Otherwise it receives a rejection: 413 exactly if the headers break the rule,
      with the expired cookie exactly on the callback; 400 exactly if only the target is
      invalid; and 500 if the body could not be read or the bff threw. */
  lemma ClientReceives(server: Server, request: Request)
    ensures var asked, answer := Asked(server, request), Answer(server, request);
            var pairs := multiset(Pairs(request.rawHeaders));
            var framed := Framed(pairs, request.verb, request.target, server.mobileRoutes);
            && (asked != [] ==> framed && request.target.valid)
            && if asked != [] && server.bff(asked[0]).Replied? then answer == server.bff(asked[0]).response
               else if !framed then
                 IsRejection(answer, 413,
                             if request.target.callback then [("Set-Cookie", One(server.expiredCookie))] else [])
               else IsRejection(answer, if request.target.valid then 500 else 400, [])
  {
  }

  lemma WithoutLast(headers: map<string, HeaderValue>, more: seq<(string, HeaderValue)>, name: string)
    requires more != [] && more[|more| - 1].0 != name
    ensures var init := more[..|more| - 1];
            && (name in WithHeaders(headers, more) <==> name in WithHeaders(headers, init))
            && (name in WithHeaders(headers, init) ==>
                  WithHeaders(headers, more)[name] == WithHeaders(headers, init)[name])
  {
  }

  /** Each name in the list ends up with its last value there; other names stay. */
  lemma {:induction false} LastValueIsSet(headers: map<string, HeaderValue>, more: seq<(string, HeaderValue)>,
                                          name: string)
    ensures if exists i :: 0 <= i < |more| && more[i].0 == name
            then exists i :: && 0 <= i < |more| && more[i].0 == name
                             && (forall j :: i < j < |more| ==> more[j].0 != name)
                             && name in WithHeaders(headers, more) && WithHeaders(headers, more)[name] == more[i].1
            else && (name in WithHeaders(headers, more) <==> name in headers)
                 && (name in headers ==> WithHeaders(headers, more)[name] == headers[name])
  {
    if more != [] {
      var init, n := more[..|more| - 1], |more| - 1;
      if more[n].0 == name {
        assert WithHeaders(headers, more)[name] == more[n].1;
      } else {
        WithoutLast(headers, more, name);
        LastValueIsSet(headers, init, name);
        if i :| 0 <= i < |more| && more[i].0 == name {
          assert init[i] == more[i];
          var k :| && 0 <= k < |init| && init[k].0 == name && (forall j :: k < j < |init| ==> init[j].0 != name)
                   && name in WithHeaders(headers, init) && WithHeaders(headers, init)[name] == init[k].1;
          assert forall j :: k < j < |more| ==> more[j] == (if j < n then init[j] else more[n]);
          assert more[k] == init[k];
        }
      }
    }
  }

  // --- which headers are admitted --------------------------------------------------

  /** One Content-Length, spelled as the canonical decimal of a size from 1 to the bound. */
  ghost predicate HasLength(headers: multiset<Pair>, bound: int) {
    exists n: nat :: 1 <= n <= bound && Once(headers, "content-length", Decimal(n))
  }

  /** What the rule asks route by route. No route admits a Transfer-Encoding. An enabled
      mobile route admits only a POST without a query, with one length up to 65,536, without
      content coding or authorization, and with each of five headers at most once; a POST to
      a messaging route needs one length up to its bound; any other request may declare at
      most the length 0, and may lack it. */
  lemma AdmittedByRoute(headers: multiset<Pair>, verb: string, target: Target, mobileRoutes: seq<string>)
    ensures Framed(headers, verb, target, mobileRoutes) <==>
            && Absent(headers, "transfer-encoding")
            && if target.valid && target.path in mobileRoutes then
                 && verb == "POST" && !target.hasQuery && HasLength(headers, 65536)
                 && Absent(headers, "content-encoding") && Absent(headers, "authorization")
                 && Absent(headers, "x-hodlxxi-viewer-authorization")
                 && forall name :: name in ["host", "origin", "content-type", "cookie", "x-hodlxxi-mobile-csrf"] ==>
                                     Absent(headers, name) || exists v :: Once(headers, name, v)
               else if target.valid && verb == "POST" && target.path in [BINDINGS, INTENTS, AUTHORIZATIONS] then
                 HasLength(headers, if target.path == AUTHORIZATIONS then 16384 else 8192)
               else Absent(headers, "content-length") || Once(headers, "content-length", "0")
  {
    assert forall name :: name in ["host", "origin", "content-type", "cookie", "x-hodlxxi-mobile-csrf"] <==>
                          exists j :: 0 <= j < |SINGLE_NAMES| && SINGLE_NAMES[j] == name;
  }

  // --- when the bff is asked, and what ---------------------------------------------

  /** The stream ends and carries this data. */
  ghost predicate Brings(body: Stream, data: seq<bv8>) {
    !body.failed && Carries(body.chunks, data)
  }

  /** The body handed to the bff. */
  ghost predicate IsBodyFor(server: Server, request: Request, body: Option<string>) {
    if request.target.path in server.mobileRoutes then
      exists data :: && Brings(request.body, data) && |data| <= 65536
                     && "content-length" in request.headers && request.headers["content-length"].One?
                     && server.number(request.headers["content-length"].value) == Some(|data|)
                     && server.strict(data).Some? && body == server.strict(data)
    else if request.verb == "POST" && request.target.path in [BINDINGS, INTENTS, AUTHORIZATIONS] then
      exists data :: && Brings(request.body, data)
                     && 1 <= |data| <= (if request.target.path == AUTHORIZATIONS then 16384 else 8192)
                     && body == Some(server.lossy(data))
    else body == None
  }

  /** The bff is asked exactly if the target is valid, the headers obey the rule and the body
      of the route can be read: with the verb, the target and the single-valued headers of
      the request as they stand, and with that body. */
  lemma BffIsAskedTheRequest(server: Server, request: Request, ask: BffRequest)
    ensures Asked(server, request) == [ask] <==>
            && request.target.valid
            && Framed(multiset(Pairs(request.rawHeaders)), request.verb, request.target, server.mobileRoutes)
            && ask.verb == request.verb && ask.url == request.url
            && (forall k :: k in ask.headers <==> k in request.headers && request.headers[k].One?)
            && (forall k :: k in ask.headers ==> request.headers[k] == One(ask.headers[k]))
            && IsBodyFor(server, request, ask.body)
  {
    if request.target.valid {
      BodyIsHandedOn(server, request, ask.body);
      var body := BodyOf(server, request);
      BodyIsHandedOn(server, request, if body.Text? then Some(body.text) else None);
    }
    SameHeaders(request.headers, ask.headers);
  }

  lemma SameHeaders(headers: map<string, HeaderValue>, singles: map<string, string>)
    ensures singles == SingleHeaders(headers) <==>
            && (forall k :: k in singles <==> k in headers && headers[k].One?)
            && (forall k :: k in singles ==> headers[k] == One(singles[k]))
  {
  }

  lemma BodyIsHandedOn(server: Server, request: Request, body: Option<string>)
    requires request.target.valid
    ensures IsBodyFor(server, request, body) <==>
            !BodyOf(server, request).Unavailable?
            && body == if BodyOf(server, request).Text? then Some(BodyOf(server, request).text) else None
  {
    var declared, bound := DeclaredLength(server, request.headers), MessagingBound(request.target);
    forall data
      ensures MobileBody(request.body, declared) == Some(data) <==>
              Brings(request.body, data) && |data| <= 65536 && declared == Some(|data|)
      ensures MessagingBody(request.body, bound) == Some(data) <==> Brings(request.body, data) && 1 <= |data| <= bound
    {
      ReadersReturnTheData(request.body, bound, declared, data);
    }
  }
}
