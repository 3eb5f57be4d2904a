/** The canonical wire of the ciphertext envelope
    (src/server/message-envelope-v128f1.mjs): normaliser, serializer, parser and digest
    preimage. Inputs are JSON values; the digest itself is not part of this model. */
module MessageEnvelope {
  import opened Base64url
  import opened Delimited
  import opened Json
  import opened Permutations
  import opened Text

  const SCHEMA := "hodlxxi.social_" + "message_envelope.v1"
  const SUITE := "hodlxxi-hpke-x25519-hkdfsha256-" + "aes128gcm-aes256gcm-v1"
  const BODY_ALGORITHM := "aes-256-gcm"
  const WRAP_ALGORITHM := "hpke-base-x25519-hkdfsha256-" + "aes128gcm-v1"
  const DIGEST_DOMAIN := "HODLXXI_SOCIAL_MESSAGE_" + "ENVELOPE_DIGEST_V1"
  const MAX_WIRE_BYTES := 32768
  const MAX_DEVICES := 16
  const ONE := Numeral(false, "1", "", None)

  const TOP_LEVEL_FIELDS := ["schema", "version", "suite", "messageId", "recipientPackageSnapshotId",
                             "recipientDeviceHandles", "body", "keyWraps"]
  const BODY_FIELDS := ["algorithm", "nonce", "ciphertext"]
  const WRAP_FIELDS := ["deviceHandle", "algorithm", "enc", "ciphertext"]

  datatype Wrap = Wrap(deviceHandle: string, enc: string, ciphertext: string)

  /** A normalised envelope; its constant fields are left implicit. */
  datatype Envelope = Envelope(
    messageId: string, snapshotId: string, handles: seq<string>, nonce: string, ciphertext: string, wraps: seq<Wrap>)

  // --- validity --------------------------------------------------------------------

  predicate IsPrefixedId(value: string, prefix: char, bytes: nat) {
    && |value| == EncodedLength(bytes) + 2 && value[0] == prefix && value[1] == '_'
    && IsCanonical(value[2..], bytes, bytes)
  }

  predicate IsMessageId(value: string) { IsPrefixedId(value, 'm', 32) }

  predicate IsDeviceHandle(value: string) { IsPrefixedId(value, 'd', 16) }

  predicate IsSnapshotId(value: string) {
    "sha256:" <= value && IsLowerHex(value[7..], 64)
  }

  /** A bounded strictly ascending list of accepted handles. */
  predicate AreAscending(accepts: string -> bool, maximum: nat, handles: seq<string>) {
    && 1 <= |handles| <= maximum && Increasing(handles)
    && forall i :: 0 <= i < |handles| ==> accepts(handles[i])
  }

  predicate AreHandles(handles: seq<string>) {
    AreAscending(IsDeviceHandle, MAX_DEVICES, handles)
  }

  predicate IsWrap(wrap: Wrap, handle: string) {
    wrap.deviceHandle == handle && IsCanonical(wrap.enc, 32, 32) && IsCanonical(wrap.ciphertext, 48, 48)
  }

  predicate IsValid(e: Envelope) {
    && IsMessageId(e.messageId) && IsSnapshotId(e.snapshotId) && AreHandles(e.handles)
    && IsCanonical(e.nonce, 12, 12) && IsCanonical(e.ciphertext, 17, 16400)
    && |e.wraps| == |e.handles|
    && forall i :: 0 <= i < |e.wraps| ==> IsWrap(e.wraps[i], e.handles[i])
  }

  // --- the normaliser ----------------------------------------------------------------

  /** The value of a key; of a repeated key the last one. */
  function Lookup(members: seq<Member>, key: string): Option<Value> {
    if members == [] then None
    else
      var last := members[|members| - 1];
      if last.key == key then Some(last.value) else Lookup(members[..|members| - 1], key)
  }

  /** An object with exactly these keys. */
  predicate IsExactRecord(v: Value, fields: seq<string>) {
    && v.Object?
    && (forall f :: f in fields ==> Lookup(v.members, f).Some?)
    && (forall i :: 0 <= i < |v.members| ==> v.members[i].key in fields)
  }

  /** The values of exactly these fields, in this order. */
  function ExactRecord(v: Value, fields: seq<string>): (r: Option<seq<Value>>)
    ensures r.Some? ==> |r.value| == |fields|
  {
    if !IsExactRecord(v, fields) then None
    else Some(seq(|fields|, i requires 0 <= i < |fields| => Lookup(v.members, fields[i]).value))
  }

  function TextOf(v: Value): string {
    if v.String? then v.text else ""
  }

  function Texts(values: seq<Value>): seq<string> {
    seq(|values|, i requires 0 <= i < |values| => TextOf(values[i]))
  }

  function NormalizeAscending(accepts: string -> bool, maximum: nat, values: seq<Value>): Option<seq<string>> {
    if (forall i :: 0 <= i < |values| ==> values[i].String?) && AreAscending(accepts, maximum, Texts(values))
    then Some(Texts(values)) else None
  }

  /** The handles of an accepted list of values. */
  function NormalizeHandles(values: seq<Value>): Option<seq<string>> {
    NormalizeAscending(IsDeviceHandle, MAX_DEVICES, values)
  }

  lemma AcceptedHandle(accepts: string -> bool, maximum: nat, values: seq<Value>, i: nat)
    requires i < |values| && NormalizeAscending(accepts, maximum, values).Some?
    ensures values[i].String? && accepts(values[i].text)
    ensures i > 0 ==> Less(TextOf(values[i - 1]), values[i].text)
  {
    var texts := Texts(values);
    assert texts[i] == values[i].text && (i > 0 ==> texts[i - 1] == TextOf(values[i - 1]));
  }

  lemma NextAscends(texts: seq<string>, n: nat)
    requires n < |texts| && Increasing(texts[..n]) && (n > 0 ==> Less(texts[n - 1], texts[n]))
    ensures Increasing(texts[..n + 1])
  {
    var before, head := texts[..n], texts[..n + 1];
    forall j, k | 0 <= j < k < n + 1 ensures Less(head[j], head[k]) {
      if k < n {
        assert head[j] == before[j] && head[k] == before[k];
      } else if j < n - 1 {
        assert Less(before[j], before[n - 1]);
        LessIsTransitive(before[j], before[n - 1], texts[n]);
      }
    }
  }

  /** The loop of the normaliser: each value must be an accepted handle greater than the
      one before it; which makes the whole list strictly ascending. */
  method CheckAscending(accepts: string -> bool, maximum: nat, values: seq<Value>)
    returns (handles: Option<seq<string>>)
    ensures handles == NormalizeAscending(accepts, maximum, values)
  {
    if |values| < 1 || |values| > maximum { return None; }
    var accepted: seq<string>, previous: Option<string> := [], None;
    for i := 0 to |values|
      invariant accepted == Texts(values)[..i] && Increasing(Texts(values)[..i])
      invariant forall j :: 0 <= j < i ==> values[j].String? && accepts(values[j].text)
      invariant previous == if i == 0 then None else Some(TextOf(values[i - 1]))
    {
      var value := values[i];
      if NormalizeAscending(accepts, maximum, values).Some? {
        AcceptedHandle(accepts, maximum, values, i);
      }
      if !value.String? || !accepts(value.text) { return None; }
      if previous.Some? && !Less(previous.value, value.text) { return None; }
      NextAscends(Texts(values), i);
      accepted := accepted + [value.text];
      previous := Some(value.text);
    }
    assert Texts(values)[..|values|] == Texts(values);
    return Some(accepted);
  }

  function NormalizeWrap(v: Value, handle: string): Option<Wrap> {
    var record := ExactRecord(v, WRAP_FIELDS);
    if record.None? then None
    else
      var r := record.value;
      if r[0].String? && r[1] == String(WRAP_ALGORITHM) && r[2].String? && r[3].String?
         && IsWrap(Wrap(r[0].text, r[2].text, r[3].text), handle)
      then Some(Wrap(r[0].text, r[2].text, r[3].text)) else None
  }

  function WrapOptions(values: seq<Value>, handles: seq<string>): seq<Option<Wrap>>
    requires |values| == |handles|
  {
    seq(|values|, i requires 0 <= i < |values| => NormalizeWrap(values[i], handles[i]))
  }

  function NormalizeWraps(values: seq<Value>, handles: seq<string>): Option<seq<Wrap>>
    requires |values| == |handles|
  {
    Collect(WrapOptions(values, handles))
  }

  /** Nonce and ciphertext of an accepted body. */
  function NormalizeBody(v: Value): Option<(string, string)> {
    var record := ExactRecord(v, BODY_FIELDS);
    if record.None? then None
    else
      var r := record.value;
      if r[0] == String(BODY_ALGORITHM) && r[1].String? && IsCanonical(r[1].text, 12, 12)
         && r[2].String? && IsCanonical(r[2].text, 17, 16400)
      then Some((r[1].text, r[2].text)) else None
  }

  /** Schema, version, suite and the two identifiers; `isOne` says which numerals evaluate
      to 1. */
  predicate IsHeader(isOne: Numeral -> bool, schema: Value, version: Value, suite: Value, message: Value,
                     snapshot: Value) {
    && schema == String(SCHEMA) && version.Number? && isOne(version.numeral) && suite == String(SUITE)
    && message.String? && IsMessageId(message.text) && snapshot.String? && IsSnapshotId(snapshot.text)
  }

  function NormalizeLists(handles: Value, wraps: Value): Option<(seq<string>, seq<Wrap>)> {
    if !handles.Array? || !wraps.Array? then None
    else
      var accepted := NormalizeHandles(handles.items);
      if accepted.None? || |wraps.items| != |accepted.value| then None
      else
        var normalized := NormalizeWraps(wraps.items, accepted.value);
        if normalized.None? then None else Some((accepted.value, normalized.value))
  }

  /** None where the source throws. */
  function Normalize(isOne: Numeral -> bool, v: Value): Option<Envelope> {
    var record := ExactRecord(v, TOP_LEVEL_FIELDS);
    if record.None? then None
    else
      var r := record.value;
      var lists, body := NormalizeLists(r[5], r[7]), NormalizeBody(r[6]);
      if !IsHeader(isOne, r[0], r[1], r[2], r[3], r[4]) || lists.None? || body.None? then None
      else Some(Envelope(r[3].text, r[4].text, lists.value.0, body.value.0, body.value.1, lists.value.1))
  }

  // --- the serializer -----------------------------------------------------------------

  /** An object written out with these field names, in this order. */
  function WriteObject(fields: seq<string>, texts: seq<string>): string
    requires |fields| == |texts|
  {
    "{" + Join(seq(|fields|, i requires 0 <= i < |fields| => "\"" + fields[i] + "\"" + (":" + texts[i])), ',') + "}"
  }

  function SerializeWrap(w: Wrap): string {
    WriteObject(WRAP_FIELDS, [Quote(w.deviceHandle), Quote(WRAP_ALGORITHM), Quote(w.enc), Quote(w.ciphertext)])
  }

  function WriteArray(texts: seq<string>): string {
    "[" + Join(texts, ',') + "]"
  }

  function SerializeHandles(handles: seq<string>): string {
    WriteArray(seq(|handles|, i requires 0 <= i < |handles| => Quote(handles[i])))
  }

  function SerializeWraps(wraps: seq<Wrap>): string {
    WriteArray(seq(|wraps|, i requires 0 <= i < |wraps| => SerializeWrap(wraps[i])))
  }

  function SerializeBody(nonce: string, ciphertext: string): string {
    WriteObject(BODY_FIELDS, [Quote(BODY_ALGORITHM), Quote(nonce), Quote(ciphertext)])
  }

  /** The texts of the top-level fields, in their order. */
  function FieldTexts(e: Envelope): seq<string> {
    [Quote(SCHEMA), "1", Quote(SUITE), Quote(e.messageId), Quote(e.snapshotId), SerializeHandles(e.handles),
     SerializeBody(e.nonce, e.ciphertext), SerializeWraps(e.wraps)]
  }

  /** The wire, written out field by field in the fixed order. */
  function Serialize(e: Envelope): string {
    WriteObject(TOP_LEVEL_FIELDS, FieldTexts(e))
  }

  // --- the parser -----------------------------------------------------------------------

  predicate IsAscii(s: string) {
    forall i :: 0 <= i < |s| ==> s[i] as int < 128
  }

  /** The envelope of an accepted wire; the text a byte input spells is the same. */
  function ParseWire(isOne: Numeral -> bool, wire: string): Option<Envelope> {
    if |wire| > MAX_WIRE_BYTES || !IsAscii(wire) then None
    else
      var value := Parse(wire);
      if value.None? then None
      else
        var e := Normalize(isOne, value.value);
        if e.None? || Serialize(e.value) != wire then None else e
  }

  /** What is hashed. */
  function DigestPreimage(e: Envelope): string {
    DIGEST_DOMAIN + [0 as char] + Serialize(e)
  }

  // --- the envelope as a JSON value ---------------------------------------------------------

  function Record(fields: seq<string>, values: seq<Value>): (v: Value)
    requires |fields| == |values|
    ensures v.Object? && |v.members| == |fields|
  {
    Object(seq(|fields|, i requires 0 <= i < |fields| => Member(fields[i], values[i])))
  }

  function WrapValue(w: Wrap): Value {
    Record(WRAP_FIELDS, [String(w.deviceHandle), String(WRAP_ALGORITHM), String(w.enc), String(w.ciphertext)])
  }

  function BodyValue(nonce: string, ciphertext: string): Value {
    Record(BODY_FIELDS, [String(BODY_ALGORITHM), String(nonce), String(ciphertext)])
  }

  function HandleValues(handles: seq<string>): seq<Value> {
    seq(|handles|, i requires 0 <= i < |handles| => String(handles[i]))
  }

  function WrapValues(wraps: seq<Wrap>): seq<Value> {
    seq(|wraps|, i requires 0 <= i < |wraps| => WrapValue(wraps[i]))
  }

  function FieldValues(e: Envelope): seq<Value> {
    [String(SCHEMA), Number(ONE), String(SUITE), String(e.messageId), String(e.snapshotId),
     Array(HandleValues(e.handles)), BodyValue(e.nonce, e.ciphertext), Array(WrapValues(e.wraps))]
  }

  /** The normalised record. */
  function ToValue(e: Envelope): Value {
    Record(TOP_LEVEL_FIELDS, FieldValues(e))
  }

  // --- plain text -----------------------------------------------------------------------------

  predicate IsPlainChar(c: char) {
    ' ' <= c < 127 as char && c != '"' && c != '\\'
  }

  predicate IsPlain(s: string) {
    forall i :: 0 <= i < |s| ==> IsPlainChar(s[i])
  }

  lemma {:induction false} PlainIsUnescaped(s: string)
    requires IsPlain(s)
    ensures EscapeAll(s) == s
  {
    if s != [] {
      PlainIsUnescaped(s[1..]);
      assert Escape(s[0]) == [s[0]];
      assert [s[0]] + s[1..] == s;
    }
  }

  /** A plain text is quoted as it stands. */
  lemma QuotePlain(s: string)
    requires IsPlain(s)
    ensures Quote(s) == "\"" + s + "\"" && |Quote(s)| == |s| + 2 && IsAscii(Quote(s))
  {
    PlainIsUnescaped(s);
  }

  lemma PlainAppends(s: string, t: string)
    requires IsPlain(s) && IsPlain(t)
    ensures IsPlain(s + t) && |s + t| == |s| + |t|
  {
  }

  lemma NamesArePlain()
    ensures IsPlain(SCHEMA) && |SCHEMA| == 34 && IsPlain(BODY_ALGORITHM) && |BODY_ALGORITHM| == 11
  {
    PlainAppends("hodlxxi.social_", "message_envelope.v1");
  }

  lemma SuitesArePlain()
    ensures IsPlain(SUITE) && |SUITE| == 53 && IsPlain(WRAP_ALGORITHM) && |WRAP_ALGORITHM| == 40
  {
    PlainAppends("hodlxxi-hpke-x25519-hkdfsha256-", "aes128gcm-aes256gcm-v1");
    PlainAppends("hpke-base-x25519-hkdfsha256-", "aes128gcm-v1");
  }

  lemma Base64urlIsPlain(s: string)
    requires IsBase64url(s)
    ensures IsPlain(s)
  {
    forall i | 0 <= i < |s| ensures IsPlainChar(s[i]) {
      assert IsBase64urlChar(s[i]);
    }
  }

  lemma CanonicalIsPlain(s: string, minimum: nat, maximum: nat)
    requires IsCanonical(s, minimum, maximum)
    ensures IsPlain(s) && |s| <= EncodedLength(maximum)
  {
    Base64urlIsPlain(s);
  }

  lemma IdIsPlain(s: string, prefix: char, bytes: nat)
    requires IsPrefixedId(s, prefix, bytes) && IsPlainChar(prefix)
    ensures IsPlain(s)
  {
    CanonicalIsPlain(s[2..], bytes, bytes);
    forall i | 0 <= i < |s| ensures IsPlainChar(s[i]) {
      assert i >= 2 ==> s[i] == s[2..][i - 2];
    }
  }

  lemma SnapshotIsPlain(s: string)
    requires IsSnapshotId(s)
    ensures IsPlain(s) && |s| == 71
  {
    assert s == "sha256:" + s[7..];
    forall i | 0 <= i < |s| ensures IsPlainChar(s[i]) {
      assert i < 7 ==> s[i] == "sha256:"[i];
      assert i >= 7 ==> s[i] == s[7..][i - 7] && IsLowerHexDigit(s[i]);
    }
  }

  // --- the wire is `JSON.stringify` of the normalised record -----------------------------------

  lemma {:induction false} ItemsAreJoined(items: seq<Value>)
    ensures PrintItems(items) == Join(seq(|items|, i requires 0 <= i < |items| => Print(items[i])), ',')
  {
    var parts := seq(|items|, i requires 0 <= i < |items| => Print(items[i]));
    if |items| > 1 {
      ItemsAreJoined(items[1..]);
      assert parts[1..] == seq(|items| - 1, i requires 0 <= i < |items| - 1 => Print(items[1..][i]));
    }
  }

  function MemberTexts(members: seq<Member>): seq<string> {
    seq(|members|, i requires 0 <= i < |members| => PrintMember(members[i]))
  }

  lemma {:induction false} MembersAreJoined(members: seq<Member>)
    ensures PrintMembers(members) == Join(MemberTexts(members), ',')
  {
    if |members| > 1 {
      MembersAreJoined(members[1..]);
      assert MemberTexts(members)[1..] == MemberTexts(members[1..]);
    }
  }

  ghost predicate ArePlain(fields: seq<string>) {
    forall i :: 0 <= i < |fields| ==> IsPlain(fields[i])
  }

  /** Writing an object field by field is printing the record. */
  lemma ObjectIsPrinted(fields: seq<string>, values: seq<Value>, texts: seq<string>)
    requires ArePlain(fields) && |fields| == |values| == |texts|
    requires forall i :: 0 <= i < |fields| ==> texts[i] == Print(values[i])
    ensures WriteObject(fields, texts) == Print(Record(fields, values))
  {
    var members := Record(fields, values).members;
    MembersAreJoined(members);
    var written := seq(|fields|, i requires 0 <= i < |fields| => "\"" + fields[i] + "\"" + (":" + texts[i]));
    forall i | 0 <= i < |fields| ensures written[i] == MemberTexts(members)[i] {
      QuotePlain(fields[i]);
    }
    assert written == MemberTexts(members);
    assert "{" + Join(written, ',') + "}" == "{" + (Join(written, ',') + "}");
  }

  lemma ArrayIsPrinted(values: seq<Value>, texts: seq<string>)
    requires |values| == |texts| && forall i :: 0 <= i < |values| ==> texts[i] == Print(values[i])
    ensures WriteArray(texts) == Print(Array(values))
  {
    ItemsAreJoined(values);
    assert texts == seq(|values|, i requires 0 <= i < |values| => Print(values[i]));
    assert "[" + Join(texts, ',') + "]" == "[" + (Join(texts, ',') + "]");
  }

  lemma TopLevelFieldsArePlain()
    ensures ArePlain(TOP_LEVEL_FIELDS)
  {
    assert IsPlain("schema") && IsPlain("version") && IsPlain("suite") && IsPlain("messageId");
    assert IsPlain("recipientPackageSnapshotId") && IsPlain("recipientDeviceHandles");
    assert IsPlain("body") && IsPlain("keyWraps");
  }

  lemma PartFieldsArePlain()
    ensures ArePlain(BODY_FIELDS) && ArePlain(WRAP_FIELDS)
  {
    assert IsPlain("algorithm") && IsPlain("nonce") && IsPlain("ciphertext");
    assert IsPlain("deviceHandle") && IsPlain("enc");
  }

  lemma WrapIsPrinted(w: Wrap)
    ensures SerializeWrap(w) == Print(WrapValue(w))
  {
    PartFieldsArePlain();
    ObjectIsPrinted(WRAP_FIELDS, [String(w.deviceHandle), String(WRAP_ALGORITHM), String(w.enc), String(w.ciphertext)],
                    [Quote(w.deviceHandle), Quote(WRAP_ALGORITHM), Quote(w.enc), Quote(w.ciphertext)]);
  }

  lemma ThreeArePrinted(fields: seq<string>, a: string, b: string, c: string)
    requires |fields| == 3 && ArePlain(fields)
    ensures WriteObject(fields, [Quote(a), Quote(b), Quote(c)]) ==
            Print(Record(fields, [String(a), String(b), String(c)]))
  {
    ObjectIsPrinted(fields, [String(a), String(b), String(c)], [Quote(a), Quote(b), Quote(c)]);
  }

  lemma BodyIsPrinted(nonce: string, ciphertext: string)
    ensures SerializeBody(nonce, ciphertext) == Print(BodyValue(nonce, ciphertext))
  {
    PartFieldsArePlain();
    ThreeArePrinted(BODY_FIELDS, BODY_ALGORITHM, nonce, ciphertext);
  }

  lemma ArraysArePrinted(handles: seq<string>, wraps: seq<Wrap>)
    ensures SerializeHandles(handles) == Print(Array(HandleValues(handles)))
    ensures SerializeWraps(wraps) == Print(Array(WrapValues(wraps)))
  {
    ArrayIsPrinted(HandleValues(handles), seq(|handles|, i requires 0 <= i < |handles| => Quote(handles[i])));
    forall i | 0 <= i < |wraps| ensures SerializeWrap(wraps[i]) == Print(WrapValues(wraps)[i]) {
      WrapIsPrinted(wraps[i]);
    }
    ArrayIsPrinted(WrapValues(wraps), seq(|wraps|, i requires 0 <= i < |wraps| => SerializeWrap(wraps[i])));
  }

  lemma OneIsPrinted()
    ensures Print(Number(ONE)) == "1"
  {
  }

  lemma EightArePrinted(schema: string, one: Numeral, suite: string, message: string, snapshot: string,
                        handles: Value, body: Value, wraps: Value)
    ensures var texts := [Quote(schema), Print(Number(one)), Quote(suite), Quote(message), Quote(snapshot),
                          Print(handles), Print(body), Print(wraps)];
            var values := [String(schema), Number(one), String(suite), String(message), String(snapshot), handles, body,
                           wraps];
            forall i :: 0 <= i < |texts| ==> texts[i] == Print(values[i])
  {
  }

  lemma FieldsArePrinted(e: Envelope)
    ensures forall i :: 0 <= i < |FieldTexts(e)| ==> FieldTexts(e)[i] == Print(FieldValues(e)[i])
  {
    BodyIsPrinted(e.nonce, e.ciphertext);
    ArraysArePrinted(e.handles, e.wraps);
    OneIsPrinted();
    EightArePrinted(SCHEMA, ONE, SUITE, e.messageId, e.snapshotId, Array(HandleValues(e.handles)),
                    BodyValue(e.nonce, e.ciphertext), Array(WrapValues(e.wraps)));
  }

  /** The wire built field by field is exactly `JSON.stringify` of the normalised record. */
  lemma WireIsStringified(e: Envelope)
    ensures Serialize(e) == Print(ToValue(e))
  {
    TopLevelFieldsArePlain();
    FieldsArePrinted(e);
    ObjectIsPrinted(TOP_LEVEL_FIELDS, FieldValues(e), FieldTexts(e));
  }

  lemma RecordIsWellFormed(fields: seq<string>, values: seq<Value>)
    requires |fields| == |values| && forall i :: 0 <= i < |values| ==> IsWellFormed(values[i])
    ensures IsWellFormed(Record(fields, values))
  {
    var members := Record(fields, values).members;
    assert forall i :: 0 <= i < |members| ==> members[i].value == values[i];
  }

  lemma PartsAreWellFormed(e: Envelope)
    ensures IsWellFormed(BodyValue(e.nonce, e.ciphertext)) && IsWellFormed(Array(WrapValues(e.wraps)))
    ensures IsWellFormed(Array(HandleValues(e.handles)))
  {
    RecordIsWellFormed(BODY_FIELDS, [String(BODY_ALGORITHM), String(e.nonce), String(e.ciphertext)]);
    forall i | 0 <= i < |e.wraps| ensures IsWellFormed(WrapValues(e.wraps)[i]) {
      var w := e.wraps[i];
      RecordIsWellFormed(WRAP_FIELDS,
                         [String(w.deviceHandle), String(WRAP_ALGORITHM), String(w.enc), String(w.ciphertext)]);
    }
  }

  lemma EnvelopeIsWellFormed(e: Envelope)
    ensures IsWellFormed(ToValue(e))
  {
    PartsAreWellFormed(e);
    RecordIsWellFormed(TOP_LEVEL_FIELDS, FieldValues(e));
  }

  /** Reading the wire of an envelope gives its normalised record. */
  lemma WireParses(e: Envelope)
    ensures Parse(Serialize(e)) == Some(ToValue(e))
  {
    WireIsStringified(e);
    EnvelopeIsWellFormed(e);
    ParseOfPrint(ToValue(e));
  }

  // --- normalising the normalised record -----------------------------------------------------------

  lemma {:induction false} LookupFinds(members: seq<Member>, k: nat)
    requires k < |members| && forall j :: k < j < |members| ==> members[j].key != members[k].key
    ensures Lookup(members, members[k].key) == Some(members[k].value)
  {
    if k < |members| - 1 {
      LookupFinds(members[..|members| - 1], k);
    }
  }

  /** The exact fields of a record are its values. */
  lemma RecordRoundTrip(fields: seq<string>, values: seq<Value>)
    requires Distinct(fields) && |fields| == |values|
    ensures ExactRecord(Record(fields, values), fields) == Some(values)
  {
    var members := Record(fields, values).members;
    forall i | 0 <= i < |fields| ensures Lookup(members, fields[i]) == Some(values[i]) {
      LookupFinds(members, i);
    }
    forall f | f in fields ensures Lookup(members, f).Some? {
      var i :| 0 <= i < |fields| && fields[i] == f;
      assert Lookup(members, fields[i]) == Some(values[i]);
    }
    var r := ExactRecord(Record(fields, values), fields).value;
    assert forall i :: 0 <= i < |fields| ==> r[i] == values[i];
    assert r == values;
  }

  lemma FieldNamesDistinct()
    ensures Distinct(TOP_LEVEL_FIELDS) && Distinct(BODY_FIELDS) && Distinct(WRAP_FIELDS)
  {
    assert forall i, j :: 0 <= i < j < |TOP_LEVEL_FIELDS| ==> |TOP_LEVEL_FIELDS[i]| != |TOP_LEVEL_FIELDS[j]|;
    assert forall i, j :: 0 <= i < j < |BODY_FIELDS| ==> |BODY_FIELDS[i]| != |BODY_FIELDS[j]|;
    assert forall i, j :: 0 <= i < j < |WRAP_FIELDS| ==> |WRAP_FIELDS[i]| != |WRAP_FIELDS[j]|;
  }

  lemma WrapNormalizes(w: Wrap, handle: string)
    requires IsWrap(w, handle)
    ensures NormalizeWrap(WrapValue(w), handle) == Some(w)
  {
    FieldNamesDistinct();
    RecordRoundTrip(WRAP_FIELDS, [String(w.deviceHandle), String(WRAP_ALGORITHM), String(w.enc), String(w.ciphertext)]);
  }

  lemma WrapsNormalize(wraps: seq<Wrap>, handles: seq<string>)
    requires |wraps| == |handles| && forall i :: 0 <= i < |wraps| ==> IsWrap(wraps[i], handles[i])
    ensures NormalizeWraps(WrapValues(wraps), handles) == Some(wraps)
  {
    var options := WrapOptions(WrapValues(wraps), handles);
    forall i | 0 <= i < |wraps| ensures options[i] == Some(wraps[i]) {
      WrapNormalizes(wraps[i], handles[i]);
    }
    CollectAll(options, wraps);
  }

  lemma BodyNormalizes(nonce: string, ciphertext: string)
    requires IsCanonical(nonce, 12, 12) && IsCanonical(ciphertext, 17, 16400)
    ensures NormalizeBody(BodyValue(nonce, ciphertext)) == Some((nonce, ciphertext))
  {
    FieldNamesDistinct();
    RecordRoundTrip(BODY_FIELDS, [String(BODY_ALGORITHM), String(nonce), String(ciphertext)]);
  }

  lemma HandlesNormalize(handles: seq<string>)
    requires AreHandles(handles)
    ensures NormalizeHandles(HandleValues(handles)) == Some(handles)
  {
    assert Texts(HandleValues(handles)) == handles;
  }

  lemma ListsNormalize(handles: seq<string>, wraps: seq<Wrap>)
    requires AreHandles(handles) && |wraps| == |handles|
    requires forall i :: 0 <= i < |wraps| ==> IsWrap(wraps[i], handles[i])
    ensures NormalizeLists(Array(HandleValues(handles)), Array(WrapValues(wraps))) == Some((handles, wraps))
  {
    HandlesNormalize(handles);
    WrapsNormalize(wraps, handles);
  }

  /** The normaliser leaves a normalised record as it is. */
  lemma RecordNormalizes(isOne: Numeral -> bool, e: Envelope)
    requires isOne(ONE) && IsValid(e)
    ensures Normalize(isOne, ToValue(e)) == Some(e)
  {
    FieldNamesDistinct();
    RecordRoundTrip(TOP_LEVEL_FIELDS, FieldValues(e));
    BodyNormalizes(e.nonce, e.ciphertext);
    ListsNormalize(e.handles, e.wraps);
  }

  lemma NormalizedWraps(values: seq<Value>, handles: seq<string>)
    requires |values| == |handles| && NormalizeWraps(values, handles).Some?
    ensures var wraps := NormalizeWraps(values, handles).value;
            |wraps| == |handles| && forall i :: 0 <= i < |wraps| ==> IsWrap(wraps[i], handles[i])
  {
    var options, wraps := WrapOptions(values, handles), NormalizeWraps(values, handles).value;
    CollectedLength(options);
    CollectAll(options, wraps);
    forall i | 0 <= i < |wraps| ensures IsWrap(wraps[i], handles[i]) {
      assert options[i] == NormalizeWrap(values[i], handles[i]);
    }
  }

  lemma NormalizedLists(handles: Value, wraps: Value)
    requires NormalizeLists(handles, wraps).Some?
    ensures var lists := NormalizeLists(handles, wraps).value;
            && AreHandles(lists.0) && |lists.1| == |lists.0|
            && forall i :: 0 <= i < |lists.1| ==> IsWrap(lists.1[i], lists.0[i])
  {
    NormalizedWraps(wraps.items, NormalizeHandles(handles.items).value);
  }

  /** Whatever the normaliser returns is valid. */
  lemma NormalizedIsValid(isOne: Numeral -> bool, v: Value)
    requires Normalize(isOne, v).Some?
    ensures IsValid(Normalize(isOne, v).value)
  {
    var r := ExactRecord(v, TOP_LEVEL_FIELDS).value;
    NormalizedLists(r[5], r[7]);
  }

  // --- the size of a wire ----------------------------------------------------------------------------

  function Total(parts: seq<string>): nat {
    if parts == [] then 0 else |parts[0]| + Total(parts[1..])
  }

  ghost predicate AreAscii(parts: seq<string>) {
    forall i :: 0 <= i < |parts| ==> IsAscii(parts[i])
  }

  lemma {:induction false} JoinedLength(parts: seq<string>)
    requires parts != []
    ensures |Join(parts, ',')| == Total(parts) + |parts| - 1
    ensures AreAscii(parts) ==> IsAscii(Join(parts, ','))
  {
    if |parts| > 1 {
      JoinedLength(parts[1..]);
    }
  }

  lemma {:induction false} TotalOfNamed(fields: seq<string>, texts: seq<string>, named: seq<string>)
    requires |fields| == |texts| == |named|
    requires forall i :: 0 <= i < |fields| ==> |named[i]| == |fields[i]| + |texts[i]| + 3
    ensures Total(named) == Total(fields) + Total(texts) + 3 * |fields|
  {
    if fields != [] {
      TotalOfNamed(fields[1..], texts[1..], named[1..]);
    }
  }

  lemma ObjectLength(fields: seq<string>, texts: seq<string>)
    requires |fields| == |texts| > 0
    ensures |WriteObject(fields, texts)| == Total(fields) + Total(texts) + 4 * |fields| + 1
    ensures ArePlain(fields) && AreAscii(texts) ==> IsAscii(WriteObject(fields, texts))
  {
    var named := seq(|fields|, i requires 0 <= i < |fields| => "\"" + fields[i] + "\"" + (":" + texts[i]));
    JoinedLength(named);
    TotalOfNamed(fields, texts, named);
    if ArePlain(fields) && AreAscii(texts) {
      forall i | 0 <= i < |fields| ensures IsAscii(named[i]) {
        assert IsPlain(fields[i]) && IsAscii(texts[i]);
      }
    }
  }

  lemma {:induction false} TotalBound(parts: seq<string>, most: nat)
    requires forall i :: 0 <= i < |parts| ==> |parts[i]| <= most
    ensures Total(parts) <= |parts| * most
  {
    if parts != [] {
      TotalBound(parts[1..], most);
      assert |parts| * most == (|parts| - 1) * most + most;
    }
  }

  lemma ArrayLength(texts: seq<string>, most: nat)
    requires texts != [] && forall i :: 0 <= i < |texts| ==> |texts[i]| <= most && IsAscii(texts[i])
    ensures |WriteArray(texts)| <= |texts| * most + |texts| + 1 && IsAscii(WriteArray(texts))
  {
    JoinedLength(texts);
    TotalBound(texts, most);
  }

  lemma TotalOfFour(a: string, b: string, c: string, d: string)
    ensures Total([a, b, c, d]) == |a| + |b| + |c| + |d|
  {
    assert [a, b, c, d][1..] == [b, c, d] && [b, c, d][1..] == [c, d] && [c, d][1..] == [d] && [d][1..] == [];
    assert Total([d]) == |d| && Total([c, d]) == |c| + |d|;
  }

  lemma {:induction false} TotalOfAppend(a: seq<string>, b: seq<string>)
    ensures Total(a + b) == Total(a) + Total(b)
  {
    if a == [] {
      assert a + b == b;
    } else {
      assert (a + b)[1..] == a[1..] + b;
      TotalOfAppend(a[1..], b);
    }
  }

  lemma FieldTotals()
    ensures Total(TOP_LEVEL_FIELDS) == 87 && Total(BODY_FIELDS) == 24 && Total(WRAP_FIELDS) == 34
  {
    TotalOfFour("schema", "version", "suite", "messageId");
    TotalOfFour("recipientPackageSnapshotId", "recipientDeviceHandles", "body", "keyWraps");
    TotalOfAppend(["schema", "version", "suite", "messageId"],
                  ["recipientPackageSnapshotId", "recipientDeviceHandles", "body", "keyWraps"]);
    TotalOfFour("algorithm", "nonce", "ciphertext", "");
    TotalOfAppend(["algorithm", "nonce", "ciphertext"], [""]);
    TotalOfFour("deviceHandle", "algorithm", "enc", "ciphertext");
  }

  lemma FourFieldObject(fields: seq<string>, a: string, b: string, c: string, d: string)
    requires |fields| == 4 && ArePlain(fields) && IsAscii(a) && IsAscii(b) && IsAscii(c) && IsAscii(d)
    ensures |WriteObject(fields, [a, b, c, d])| == Total(fields) + |a| + |b| + |c| + |d| + 17
    ensures IsAscii(WriteObject(fields, [a, b, c, d]))
  {
    TotalOfFour(a, b, c, d);
    ObjectLength(fields, [a, b, c, d]);
  }

  lemma ThreeFieldObject(fields: seq<string>, a: string, b: string, c: string)
    requires |fields| == 3 && ArePlain(fields) && IsAscii(a) && IsAscii(b) && IsAscii(c)
    ensures |WriteObject(fields, [a, b, c])| == Total(fields) + |a| + |b| + |c| + 13
    ensures IsAscii(WriteObject(fields, [a, b, c]))
  {
    TotalOfFour(a, b, c, "");
    TotalOfAppend([a, b, c], [""]);
    assert [a, b, c] + [""] == [a, b, c, ""];
    ObjectLength(fields, [a, b, c]);
  }

  lemma EightFieldObject(fields: seq<string>, t: seq<string>)
    requires |fields| == |t| == 8 && ArePlain(fields) && AreAscii(t)
    ensures |WriteObject(fields, t)| ==
            Total(fields) + |t[0]| + |t[1]| + |t[2]| + |t[3]| + |t[4]| + |t[5]| + |t[6]| + |t[7]| + 33
    ensures IsAscii(WriteObject(fields, t))
  {
    TotalOfFour(t[0], t[1], t[2], t[3]);
    TotalOfFour(t[4], t[5], t[6], t[7]);
    TotalOfAppend(t[..4], t[4..]);
    assert t == t[..4] + t[4..] && t[..4] == [t[0], t[1], t[2], t[3]] && t[4..] == [t[4], t[5], t[6], t[7]];
    ObjectLength(fields, t);
  }

  lemma QuotedConstants()
    ensures |Quote(SCHEMA)| == 36 && |Quote(SUITE)| == 55
    ensures |Quote(BODY_ALGORITHM)| == 13 && |Quote(WRAP_ALGORITHM)| == 42
    ensures AreAscii([Quote(SCHEMA), Quote(SUITE), Quote(BODY_ALGORITHM), Quote(WRAP_ALGORITHM)])
  {
    NamesArePlain();
    SuitesArePlain();
    QuotePlain(SCHEMA);
    QuotePlain(SUITE);
    QuotePlain(BODY_ALGORITHM);
    QuotePlain(WRAP_ALGORITHM);
  }

  lemma QuotedCanonical(s: string, minimum: nat, maximum: nat)
    requires IsCanonical(s, minimum, maximum)
    ensures |Quote(s)| <= EncodedLength(maximum) + 2 && IsAscii(Quote(s))
  {
    CanonicalIsPlain(s, minimum, maximum);
    QuotePlain(s);
  }

  lemma QuotedId(s: string, prefix: char, bytes: nat)
    requires IsPrefixedId(s, prefix, bytes) && IsPlainChar(prefix)
    ensures |Quote(s)| == EncodedLength(bytes) + 4 && IsAscii(Quote(s))
  {
    IdIsPlain(s, prefix, bytes);
    QuotePlain(s);
  }

  predicate Fits(text: string, most: nat) {
    |text| <= most && IsAscii(text)
  }

  lemma WrapLength(handle: string, enc: string, ciphertext: string)
    requires Fits(Quote(handle), 26) && Fits(Quote(enc), 45) && Fits(Quote(ciphertext), 66)
    ensures Fits(SerializeWrap(Wrap(handle, enc, ciphertext)), 230)
  {
    QuotedConstants();
    FieldTotals();
    PartFieldsArePlain();
    var constants := [Quote(SCHEMA), Quote(SUITE), Quote(BODY_ALGORITHM), Quote(WRAP_ALGORITHM)];
    assert IsAscii(constants[3]);
    FourFieldObject(WRAP_FIELDS, Quote(handle), Quote(WRAP_ALGORITHM), Quote(enc), Quote(ciphertext));
  }

  lemma WrapFits(w: Wrap, handle: string)
    requires IsWrap(w, handle) && IsDeviceHandle(handle)
    ensures Fits(SerializeWrap(w), 230)
  {
    QuotedId(handle, 'd', 16);
    QuotedCanonical(w.enc, 32, 32);
    QuotedCanonical(w.ciphertext, 48, 48);
    WrapLength(w.deviceHandle, w.enc, w.ciphertext);
  }

  lemma BodyLength(nonce: string, ciphertext: string)
    requires Fits(Quote(nonce), 18) && Fits(Quote(ciphertext), 21869)
    ensures Fits(SerializeBody(nonce, ciphertext), 21937)
  {
    QuotedConstants();
    FieldTotals();
    PartFieldsArePlain();
    var constants := [Quote(SCHEMA), Quote(SUITE), Quote(BODY_ALGORITHM), Quote(WRAP_ALGORITHM)];
    assert IsAscii(constants[2]);
    ThreeFieldObject(BODY_FIELDS, Quote(BODY_ALGORITHM), Quote(nonce), Quote(ciphertext));
  }

  lemma BodyFits(nonce: string, ciphertext: string)
    requires IsCanonical(nonce, 12, 12) && IsCanonical(ciphertext, 17, 16400)
    ensures Fits(SerializeBody(nonce, ciphertext), 21937)
  {
    QuotedCanonical(nonce, 12, 12);
    QuotedCanonical(ciphertext, 17, 16400);
    BodyLength(nonce, ciphertext);
  }

  lemma HandleFits(handle: string)
    requires IsDeviceHandle(handle)
    ensures Fits(Quote(handle), 26)
  {
    QuotedId(handle, 'd', 16);
  }

  lemma IdsFit(message: string, snapshot: string)
    requires IsMessageId(message) && IsSnapshotId(snapshot)
    ensures Fits(Quote(message), 47) && Fits(Quote(snapshot), 73)
  {
    QuotedId(message, 'm', 32);
    SnapshotIsPlain(snapshot);
    QuotePlain(snapshot);
  }

  lemma ListsFit(handles: seq<string>, wraps: seq<Wrap>)
    requires AreHandles(handles) && |wraps| == |handles|
    requires forall i :: 0 <= i < |wraps| ==> IsWrap(wraps[i], handles[i])
    ensures Fits(SerializeHandles(handles), 434) && Fits(SerializeWraps(wraps), 3698)
  {
    var quoted := seq(|handles|, i requires 0 <= i < |handles| => Quote(handles[i]));
    var written := seq(|wraps|, i requires 0 <= i < |wraps| => SerializeWrap(wraps[i]));
    forall i | 0 <= i < |handles| ensures Fits(quoted[i], 26) && Fits(written[i], 230) {
      assert IsDeviceHandle(handles[i]);
      HandleFits(handles[i]);
      WrapFits(wraps[i], handles[i]);
    }
    ArrayLength(quoted, 26);
    ArrayLength(written, 230);
  }

  lemma TextsFit(schema: string, suite: string, t: seq<string>)
    requires |t| == 8 && t[0] == schema && t[1] == "1" && t[2] == suite
    requires Fits(schema, 36) && Fits(suite, 55) && Fits(t[3], 47) && Fits(t[4], 73) && Fits(t[5], 434)
    requires Fits(t[6], 21937) && Fits(t[7], 3698)
    ensures Fits(WriteObject(TOP_LEVEL_FIELDS, t), 26401)
  {
    FieldTotals();
    TopLevelFieldsArePlain();
    assert AreAscii(t);
    EightFieldObject(TOP_LEVEL_FIELDS, t);
  }

  lemma ConstantsFit()
    ensures Fits(Quote(SCHEMA), 36) && Fits(Quote(SUITE), 55)
  {
    QuotedConstants();
    var constants := [Quote(SCHEMA), Quote(SUITE), Quote(BODY_ALGORITHM), Quote(WRAP_ALGORITHM)];
    assert IsAscii(constants[0]) && IsAscii(constants[1]);
  }

  lemma PartsFit(e: Envelope)
    requires IsValid(e)
    ensures Fits(Quote(e.messageId), 47) && Fits(Quote(e.snapshotId), 73)
    ensures Fits(SerializeHandles(e.handles), 434) && Fits(SerializeBody(e.nonce, e.ciphertext), 21937)
    ensures Fits(SerializeWraps(e.wraps), 3698)
  {
    IdsFit(e.messageId, e.snapshotId);
    BodyFits(e.nonce, e.ciphertext);
    ListsFit(e.handles, e.wraps);
  }

  lemma EightFit(schema: string, version: string, suite: string, message: string, snapshot: string, list: string,
                 body: string, wraps: string)
    requires Fits(schema, 36) && version == "1" && Fits(suite, 55) && Fits(message, 47) && Fits(snapshot, 73)
    requires Fits(list, 434) && Fits(body, 21937) && Fits(wraps, 3698)
    ensures Fits(WriteObject(TOP_LEVEL_FIELDS, [schema, version, suite, message, snapshot, list, body, wraps]), 26401)
  {
    TextsFit(schema, suite, [schema, version, suite, message, snapshot, list, body, wraps]);
  }

  /** The wire of every valid envelope is ASCII and far below the cap: the cap refuses no
      valid envelope. */
  lemma WireFits(e: Envelope)
    requires IsValid(e)
    ensures |Serialize(e)| <= 26401 <= MAX_WIRE_BYTES && IsAscii(Serialize(e))
  {
    ConstantsFit();
    PartsFit(e);
    EightFit(Quote(SCHEMA), "1", Quote(SUITE), Quote(e.messageId), Quote(e.snapshotId), SerializeHandles(e.handles),
             SerializeBody(e.nonce, e.ciphertext), SerializeWraps(e.wraps));
  }

  // --- main results --------------------------------------------------------------------------------------

  /** Parsing the wire of a valid envelope gives that envelope back. */
  lemma WireRoundTrip(isOne: Numeral -> bool, e: Envelope)
    requires isOne(ONE) && IsValid(e)
    ensures ParseWire(isOne, Serialize(e)) == Some(e)
  {
    WireFits(e);
    WireParses(e);
    RecordNormalizes(isOne, e);
  }

  /** The accepted wires are exactly the prints of valid envelopes; each parses to the
      envelope it prints. So spaces, reordered or repeated fields, other escapes and other
      spellings of the version are all refused. */
  lemma AcceptedWiresArePrints(isOne: Numeral -> bool, wire: string)
    requires isOne(ONE)
    ensures ParseWire(isOne, wire).Some? <==> exists e :: IsValid(e) && Serialize(e) == wire
    ensures ParseWire(isOne, wire).Some? ==>
              IsValid(ParseWire(isOne, wire).value) && Serialize(ParseWire(isOne, wire).value) == wire
  {
    if ParseWire(isOne, wire).Some? {
      NormalizedIsValid(isOne, Parse(wire).value);
    }
    if e :| IsValid(e) && Serialize(e) == wire {
      WireRoundTrip(isOne, e);
    }
  }

  /** A text is the unpadded encoding of a number of bytes within these bounds. */
  ghost predicate Encodes(text: string, least: nat, most: nat) {
    exists bytes: seq<byte> :: least <= |bytes| <= most && Encode(bytes) == text
  }

  /** An identifier is its prefix and the encoding of so many bytes. */
  ghost predicate IsIdOf(text: string, prefix: string, size: nat) {
    prefix <= text && Encodes(text[|prefix|..], size, size)
  }

  /** The handles of 1 to 16 devices, of 16 bytes each, in ascending order. */
  ghost predicate AreHandlesOf(handles: seq<string>) {
    && 1 <= |handles| <= 16 && (forall i :: 0 <= i < |handles| ==> IsIdOf(handles[i], "d_", 16))
    && forall i, j :: 0 <= i < j < |handles| ==> Less(handles[i], handles[j])
  }

  /** One key of 32 bytes and one wrap of 48 under each handle. */
  ghost predicate AreWrapsOf(wraps: seq<Wrap>, handles: seq<string>) {
    && |wraps| == |handles|
    && forall i :: 0 <= i < |wraps| ==>
         wraps[i].deviceHandle == handles[i] && Encodes(wraps[i].enc, 32, 32) && Encodes(wraps[i].ciphertext, 48, 48)
  }

  lemma HandlesCarryBytes(handles: seq<string>)
    ensures AreHandles(handles) <==> AreHandlesOf(handles)
  {
    forall i | 0 <= i < |handles| ensures IsDeviceHandle(handles[i]) <==> IsIdOf(handles[i], "d_", 16) {
      IdCarriesBytes(handles[i], 'd', 16);
    }
  }

  lemma WrapsCarryBytes(wraps: seq<Wrap>, handles: seq<string>)
    requires |wraps| == |handles|
    ensures (forall i :: 0 <= i < |wraps| ==> IsWrap(wraps[i], handles[i])) <==> AreWrapsOf(wraps, handles)
  {
    forall i | 0 <= i < |wraps|
      ensures IsCanonical(wraps[i].enc, 32, 32) <==> Encodes(wraps[i].enc, 32, 32)
      ensures IsCanonical(wraps[i].ciphertext, 48, 48) <==> Encodes(wraps[i].ciphertext, 48, 48)
    {
      CanonicalIsEncoded(wraps[i].enc, 32, 32);
      CanonicalIsEncoded(wraps[i].ciphertext, 48, 48);
    }
  }

  lemma IdsCarryBytes(message: string, snapshot: string)
    ensures IsMessageId(message) && IsSnapshotId(snapshot) <==>
            IsIdOf(message, "m_", 32) && "sha256:" <= snapshot && IsLowerHex(snapshot[7..], 64)
  {
    IdCarriesBytes(message, 'm', 32);
  }

  lemma PartsCarryBytes(nonce: string, ciphertext: string)
    ensures IsCanonical(nonce, 12, 12) && IsCanonical(ciphertext, 17, 16400) <==>
            Encodes(nonce, 12, 12) && Encodes(ciphertext, 17, 16400)
  {
    CanonicalIsEncoded(nonce, 12, 12);
    CanonicalIsEncoded(ciphertext, 17, 16400);
  }

  /** A valid envelope carries identifiers of 32 bytes and of a digest, a nonce of 12 bytes, a
      ciphertext of 17 to 16,400, and for each of its devices one key and one wrap; and
      whatever carries these is valid. */
  lemma ValidEnvelopesCarryBytes(e: Envelope)
    ensures IsValid(e) <==>
            && IsIdOf(e.messageId, "m_", 32) && "sha256:" <= e.snapshotId && IsLowerHex(e.snapshotId[7..], 64)
            && AreHandlesOf(e.handles) && Encodes(e.nonce, 12, 12) && Encodes(e.ciphertext, 17, 16400)
            && AreWrapsOf(e.wraps, e.handles)
  {
    IdsCarryBytes(e.messageId, e.snapshotId);
    HandlesCarryBytes(e.handles);
    PartsCarryBytes(e.nonce, e.ciphertext);
    if |e.wraps| == |e.handles| {
      WrapsCarryBytes(e.wraps, e.handles);
    }
  }

  lemma IdCarriesBytes(text: string, prefix: char, size: nat)
    requires size > 0
    ensures IsPrefixedId(text, prefix, size) <==> IsIdOf(text, [prefix, '_'], size)
  {
    if |text| >= 2 {
      CanonicalIsEncoded(text[2..], size, size);
      if bytes: seq<byte> :| size <= |bytes| <= size && Encode(bytes) == text[2..] {
        EncodeLength(bytes);
      }
    }
  }

  /** Valid envelopes with one digest preimage are the same envelope. */
  lemma DigestPreimageIsInjective(a: Envelope, b: Envelope)
    requires IsValid(a) && IsValid(b) && DigestPreimage(a) == DigestPreimage(b)
    ensures a == b
  {
    var head := DIGEST_DOMAIN + [0 as char];
    assert DigestPreimage(a)[|head|..] == Serialize(a) && DigestPreimage(b)[|head|..] == Serialize(b);
    WireRoundTrip(_ => true, a);
    WireRoundTrip(_ => true, b);
  }

  /** The normaliser sees of the members only what their keys lead to. */
  lemma OnlyLookupsMatter(isOne: Numeral -> bool, a: seq<Member>, b: seq<Member>)
    requires forall k :: Lookup(a, k) == Lookup(b, k)
    ensures Normalize(isOne, Object(a)) == Normalize(isOne, Object(b))
  {
    SameRecord(a, b, TOP_LEVEL_FIELDS);
  }

  /** The members of an object, each with a key of its own. */
  ghost predicate HasDistinctKeys(members: seq<Member>) {
    forall i, j :: 0 <= i < j < |members| ==> members[i].key != members[j].key
  }

  lemma {:induction false} LookupIsMember(members: seq<Member>, key: string)
    requires Lookup(members, key).Some?
    ensures Member(key, Lookup(members, key).value) in members
  {
    if members[|members| - 1].key != key {
      LookupIsMember(members[..|members| - 1], key);
    }
  }

  lemma {:induction false} MemberIsLookedUp(members: seq<Member>, i: nat)
    requires HasDistinctKeys(members) && i < |members|
    ensures Lookup(members, members[i].key) == Some(members[i].value)
  {
    if i < |members| - 1 {
      MemberIsLookedUp(members[..|members| - 1], i);
    }
  }

  lemma ReorderedLookup(a: seq<Member>, b: seq<Member>, key: string)
    requires HasDistinctKeys(b) && multiset(a) == multiset(b) && Lookup(a, key).Some?
    ensures Lookup(b, key) == Lookup(a, key)
  {
    LookupIsMember(a, key);
    SameMembers(a, b);
    var i :| 0 <= i < |b| && b[i] == Member(key, Lookup(a, key).value);
    MemberIsLookedUp(b, i);
  }

  lemma ReorderingKeepsDistinctKeys(a: seq<Member>, b: seq<Member>)
    requires HasDistinctKeys(a) && multiset(a) == multiset(b)
    ensures HasDistinctKeys(b)
  {
    var keyOf := (m: Member) => m.key;
    MappedAlike(keyOf, a, b);
    DistinctIgnoresOrder(Mapped(keyOf, a), Mapped(keyOf, b));
  }

  /** Whatever order the members of an object are written in, the normaliser makes the same
      of it. */
  lemma MemberOrderIsIrrelevant(isOne: Numeral -> bool, a: seq<Member>, b: seq<Member>)
    requires HasDistinctKeys(a) && multiset(a) == multiset(b)
    ensures Normalize(isOne, Object(a)) == Normalize(isOne, Object(b))
  {
    ReorderingKeepsDistinctKeys(a, b);
    forall k ensures Lookup(a, k) == Lookup(b, k) {
      if Lookup(a, k).Some? {
        ReorderedLookup(a, b, k);
      } else if Lookup(b, k).Some? {
        ReorderedLookup(b, a, k);
      }
    }
    OnlyLookupsMatter(isOne, a, b);
  }

  lemma SameRecord(a: seq<Member>, b: seq<Member>, fields: seq<string>)
    requires forall k :: Lookup(a, k) == Lookup(b, k)
    ensures ExactRecord(Object(a), fields) == ExactRecord(Object(b), fields)
  {
    SameKeys(a, b, fields);
    SameKeys(b, a, fields);
    if IsExactRecord(Object(a), fields) {
      var ra, rb := ExactRecord(Object(a), fields).value, ExactRecord(Object(b), fields).value;
      assert forall i :: 0 <= i < |fields| ==> ra[i] == rb[i];
      assert ra == rb;
    }
  }

  lemma SameKeys(a: seq<Member>, b: seq<Member>, fields: seq<string>)
    requires forall k :: Lookup(a, k) == Lookup(b, k)
    ensures IsExactRecord(Object(a), fields) ==> IsExactRecord(Object(b), fields)
  {
    forall i | 0 <= i < |b| ensures exists j :: 0 <= j < |a| && a[j].key == b[i].key {
      KeyIsFound(b, i);
      FoundIsKey(a, b[i].key);
    }
  }

  lemma {:induction false} KeyIsFound(members: seq<Member>, i: nat)
    requires i < |members|
    ensures Lookup(members, members[i].key).Some?
  {
    if i < |members| - 1 {
      KeyIsFound(members[..|members| - 1], i);
    }
  }

  lemma {:induction false} FoundIsKey(members: seq<Member>, key: string)
    requires Lookup(members, key).Some?
    ensures exists j :: 0 <= j < |members| && members[j].key == key
  {
    var n := |members| - 1;
    if members[n].key != key {
      FoundIsKey(members[..n], key);
      var j :| 0 <= j < n && members[..n][j].key == key;
      assert members[j].key == key;
    }
  }

  // --- what the normaliser accepts -----------------------------------------------------------

  /** The last member of its key. */
  ghost predicate IsLast(members: seq<Member>, m: Member) {
    exists i :: 0 <= i < |members| && members[i] == m && forall j :: i < j < |members| ==> members[j].key != m.key
  }

  /** An object that holds these members, counting the last one of a repeated key, and has no
      other key. */
  ghost predicate HasExactly(v: Value, expected: seq<Member>) {
    && v.Object? && (forall i :: 0 <= i < |expected| ==> IsLast(v.members, expected[i]))
    && forall i :: 0 <= i < |v.members| ==> exists j :: 0 <= j < |expected| && expected[j].key == v.members[i].key
  }

  ghost predicate SpellsBody(v: Value, nonce: string, ciphertext: string) {
    HasExactly(v, [Member("algorithm", String(BODY_ALGORITHM)), Member("nonce", String(nonce)),
                   Member("ciphertext", String(ciphertext))])
  }

  ghost predicate SpellsWrap(v: Value, w: Wrap) {
    HasExactly(v, [Member("deviceHandle", String(w.deviceHandle)), Member("algorithm", String(WRAP_ALGORITHM)),
                   Member("enc", String(w.enc)), Member("ciphertext", String(w.ciphertext))])
  }

  ghost predicate SpellsHandles(v: Value, handles: seq<string>) {
    && v.Array? && |v.items| == |handles|
    && forall i :: 0 <= i < |handles| ==> v.items[i] == String(handles[i])
  }

  ghost predicate SpellsWraps(v: Value, wraps: seq<Wrap>) {
    && v.Array? && |v.items| == |wraps|
    && forall i :: 0 <= i < |wraps| ==> SpellsWrap(v.items[i], wraps[i])
  }

  ghost predicate SpellsTop(v: Value, e: Envelope, version: Numeral, handles: Value, body: Value, wraps: Value) {
    HasExactly(v, [Member("schema", String(SCHEMA)), Member("version", Number(version)), Member("suite", String(SUITE)),
                   Member("messageId", String(e.messageId)),
                   Member("recipientPackageSnapshotId", String(e.snapshotId)),
                   Member("recipientDeviceHandles", handles), Member("body", body), Member("keyWraps", wraps)])
  }

  /** The record of this envelope, with a version that evaluates to 1, at every level with
      exactly the documented keys. */
  ghost predicate Spells(isOne: Numeral -> bool, v: Value, e: Envelope) {
    exists version, handles, body, wraps ::
      && isOne(version) && SpellsTop(v, e, version, handles, body, wraps) && SpellsHandles(handles, e.handles)
      && SpellsBody(body, e.nonce, e.ciphertext) && SpellsWraps(wraps, e.wraps)
  }

  lemma {:induction false} LastIsLookedUp(members: seq<Member>, m: Member)
    ensures IsLast(members, m) <==> Lookup(members, m.key) == Some(m.value)
  {
    if members != [] {
      var n := |members| - 1;
      LastIsLookedUp(members[..n], m);
      if IsLast(members, m) && members[n].key != m.key {
        var i :| 0 <= i < |members| && members[i] == m && forall j :: i < j < |members| ==> members[j].key != m.key;
        assert members[..n][i] == m;
      }
      if IsLast(members[..n], m) && members[n].key != m.key {
        var i :| 0 <= i < n && members[..n][i] == m && forall j :: i < j < n ==> members[..n][j].key != m.key;
        assert members[i] == m;
        forall j | i < j < |members| ensures members[j].key != m.key {
          assert j < n ==> members[j] == members[..n][j];
        }
      }
    }
  }

  lemma KeyIsExpected(key: string, fields: seq<string>, expected: seq<Member>)
    requires |fields| == |expected| && forall i :: 0 <= i < |fields| ==> expected[i].key == fields[i]
    ensures key in fields <==> exists j :: 0 <= j < |expected| && expected[j].key == key
  {
  }

  /** A record holds exactly these members exactly when its fields read as their values. */
  lemma ExactlyIsRead(v: Value, fields: seq<string>, expected: seq<Member>)
    requires |fields| == |expected| && forall i :: 0 <= i < |fields| ==> expected[i].key == fields[i]
    ensures HasExactly(v, expected) <==>
            ExactRecord(v, fields) == Some(seq(|expected|, i requires 0 <= i < |expected| => expected[i].value))
  {
    if v.Object? {
      forall i | 0 <= i < |v.members|
        ensures v.members[i].key in fields <==> exists j :: 0 <= j < |expected| && expected[j].key == v.members[i].key
      {
        KeyIsExpected(v.members[i].key, fields, expected);
      }
      forall i | 0 <= i < |expected|
        ensures IsLast(v.members, expected[i]) <==> Lookup(v.members, fields[i]) == Some(expected[i].value)
      {
        LastIsLookedUp(v.members, expected[i]);
      }
      var values := seq(|expected|, i requires 0 <= i < |expected| => expected[i].value);
      if ExactRecord(v, fields).Some? {
        var r := ExactRecord(v, fields).value;
        assert forall i :: 0 <= i < |fields| ==> fields[i] in fields && r[i] == Lookup(v.members, fields[i]).value;
        assert r == values <==> forall i :: 0 <= i < |fields| ==> r[i] == values[i];
      } else {
        assert !IsExactRecord(v, fields);
      }
    }
  }

  lemma ThreeAreRead(v: Value, fields: seq<string>, a: Member, b: Member, c: Member)
    requires fields == [a.key, b.key, c.key]
    ensures HasExactly(v, [a, b, c]) <==> ExactRecord(v, fields) == Some([a.value, b.value, c.value])
  {
    var expected := [a, b, c];
    ExactlyIsRead(v, fields, expected);
    assert seq(|expected|, i requires 0 <= i < |expected| => expected[i].value) == [a.value, b.value, c.value];
  }

  lemma FourAreRead(v: Value, fields: seq<string>, a: Member, b: Member, c: Member, d: Member)
    requires fields == [a.key, b.key, c.key, d.key]
    ensures HasExactly(v, [a, b, c, d]) <==> ExactRecord(v, fields) == Some([a.value, b.value, c.value, d.value])
  {
    var expected := [a, b, c, d];
    ExactlyIsRead(v, fields, expected);
    assert seq(|expected|, i requires 0 <= i < |expected| => expected[i].value) ==
           [a.value, b.value, c.value, d.value];
  }

  lemma BodyIsSpelled(v: Value, nonce: string, ciphertext: string)
    ensures NormalizeBody(v) == Some((nonce, ciphertext)) <==>
            SpellsBody(v, nonce, ciphertext) && IsCanonical(nonce, 12, 12) && IsCanonical(ciphertext, 17, 16400)
  {
    ThreeAreRead(v, BODY_FIELDS, Member("algorithm", String(BODY_ALGORITHM)), Member("nonce", String(nonce)),
                 Member("ciphertext", String(ciphertext)));
    var record := ExactRecord(v, BODY_FIELDS);
    if record.Some? {
      assert record.value == [record.value[0], record.value[1], record.value[2]];
    }
  }

  lemma WrapIsSpelled(v: Value, handle: string, w: Wrap)
    ensures NormalizeWrap(v, handle) == Some(w) <==> SpellsWrap(v, w) && IsWrap(w, handle)
  {
    FourAreRead(v, WRAP_FIELDS, Member("deviceHandle", String(w.deviceHandle)),
                Member("algorithm", String(WRAP_ALGORITHM)), Member("enc", String(w.enc)),
                Member("ciphertext", String(w.ciphertext)));
    var record := ExactRecord(v, WRAP_FIELDS);
    if record.Some? {
      assert record.value == [record.value[0], record.value[1], record.value[2], record.value[3]];
    }
  }

  lemma WrapsAreSpelled(values: seq<Value>, handles: seq<string>, wraps: seq<Wrap>)
    requires |values| == |handles|
    ensures NormalizeWraps(values, handles) == Some(wraps) <==>
            SpellsWraps(Array(values), wraps) && forall i :: 0 <= i < |wraps| ==> IsWrap(wraps[i], handles[i])
  {
    var options := WrapOptions(values, handles);
    if NormalizeWraps(values, handles).Some? {
      CollectedLength(options);
    }
    if |wraps| == |values| {
      CollectAll(options, wraps);
      forall i | 0 <= i < |wraps|
        ensures options[i] == Some(wraps[i]) <==> SpellsWrap(values[i], wraps[i]) && IsWrap(wraps[i], handles[i])
      {
        WrapIsSpelled(values[i], handles[i], wraps[i]);
      }
    }
  }

  lemma HandlesAreSpelled(values: seq<Value>, handles: seq<string>)
    ensures NormalizeHandles(values) == Some(handles) <==> SpellsHandles(Array(values), handles) && AreHandles(handles)
  {
    if SpellsHandles(Array(values), handles) {
      assert Texts(values) == handles;
    }
  }

  lemma ListsAreSpelled(list: Value, items: Value, handles: seq<string>, wraps: seq<Wrap>)
    ensures NormalizeLists(list, items) == Some((handles, wraps)) <==>
            && SpellsHandles(list, handles) && SpellsWraps(items, wraps) && AreHandles(handles)
            && |wraps| == |handles| && forall i :: 0 <= i < |wraps| ==> IsWrap(wraps[i], handles[i])
  {
    if list.Array? && items.Array? {
      HandlesAreSpelled(list.items, handles);
      if |items.items| == |handles| {
        WrapsAreSpelled(items.items, handles, wraps);
      }
    }
  }

  lemma EightAreRead(v: Value, fields: seq<string>, a: Member, b: Member, c: Member, d: Member, e: Member, f: Member,
                     g: Member, h: Member)
    requires fields == [a.key, b.key, c.key, d.key, e.key, f.key, g.key, h.key]
    ensures HasExactly(v, [a, b, c, d, e, f, g, h]) <==>
            ExactRecord(v, fields) == Some([a.value, b.value, c.value, d.value, e.value, f.value, g.value, h.value])
  {
    var expected := [a, b, c, d, e, f, g, h];
    ExactlyIsRead(v, fields, expected);
    assert seq(|expected|, i requires 0 <= i < |expected| => expected[i].value) ==
           [a.value, b.value, c.value, d.value, e.value, f.value, g.value, h.value];
  }

  lemma TopIsRead(v: Value, e: Envelope, version: Numeral, handles: Value, body: Value, wraps: Value)
    ensures SpellsTop(v, e, version, handles, body, wraps) <==>
            ExactRecord(v, TOP_LEVEL_FIELDS) ==
            Some([String(SCHEMA), Number(version), String(SUITE), String(e.messageId), String(e.snapshotId), handles,
                  body, wraps])
  {
    EightAreRead(v, TOP_LEVEL_FIELDS, Member("schema", String(SCHEMA)), Member("version", Number(version)),
                 Member("suite", String(SUITE)), Member("messageId", String(e.messageId)),
                 Member("recipientPackageSnapshotId", String(e.snapshotId)),
                 Member("recipientDeviceHandles", handles), Member("body", body), Member("keyWraps", wraps));
  }

  lemma PartsAreSpelled(e: Envelope, handles: Value, body: Value, wraps: Value)
    requires IsMessageId(e.messageId) && IsSnapshotId(e.snapshotId)
    ensures NormalizeLists(handles, wraps) == Some((e.handles, e.wraps)) &&
            NormalizeBody(body) == Some((e.nonce, e.ciphertext)) <==>
            && IsValid(e) && SpellsHandles(handles, e.handles) && SpellsBody(body, e.nonce, e.ciphertext)
            && SpellsWraps(wraps, e.wraps)
  {
    ListsAreSpelled(handles, wraps, e.handles, e.wraps);
    BodyIsSpelled(body, e.nonce, e.ciphertext);
  }

  lemma NormalizesPartByPart(isOne: Numeral -> bool, v: Value, r: seq<Value>, e: Envelope)
    requires |r| == 8 && ExactRecord(v, TOP_LEVEL_FIELDS) == Some(r)
    ensures Normalize(isOne, v) == Some(e) <==>
            && IsHeader(isOne, r[0], r[1], r[2], r[3], r[4]) && r[3].text == e.messageId && r[4].text == e.snapshotId
            && NormalizeLists(r[5], r[7]) == Some((e.handles, e.wraps))
            && NormalizeBody(r[6]) == Some((e.nonce, e.ciphertext))
  {
    var lists, body := NormalizeLists(r[5], r[7]), NormalizeBody(r[6]);
    if lists.Some? && body.Some? {
      assert lists.value == (lists.value.0, lists.value.1) && body.value == (body.value.0, body.value.1);
    }
  }

  lemma HeaderIsListed(isOne: Numeral -> bool, r: seq<Value>)
    requires |r| == 8 && IsHeader(isOne, r[0], r[1], r[2], r[3], r[4])
    ensures r == [String(SCHEMA), Number(r[1].numeral), String(SUITE), String(r[3].text), String(r[4].text), r[5], r[6],
                  r[7]]
  {
  }

  lemma PartsSpell(isOne: Numeral -> bool, v: Value, e: Envelope, version: Numeral, handles: Value, body: Value,
                   wraps: Value)
    requires IsMessageId(e.messageId) && IsSnapshotId(e.snapshotId) && isOne(version)
    requires SpellsTop(v, e, version, handles, body, wraps)
    requires NormalizeLists(handles, wraps) == Some((e.handles, e.wraps))
    requires NormalizeBody(body) == Some((e.nonce, e.ciphertext))
    ensures IsValid(e) && Spells(isOne, v, e)
  {
    PartsAreSpelled(e, handles, body, wraps);
  }

  lemma NormalizedIsSpelled(isOne: Numeral -> bool, v: Value, r: seq<Value>, e: Envelope)
    requires |r| == 8 && ExactRecord(v, TOP_LEVEL_FIELDS) == Some(r) && Normalize(isOne, v) == Some(e)
    ensures IsValid(e) && Spells(isOne, v, e)
  {
    NormalizesPartByPart(isOne, v, r, e);
    HeaderIsListed(isOne, r);
    TopIsRead(v, e, r[1].numeral, r[5], r[6], r[7]);
    PartsSpell(isOne, v, e, r[1].numeral, r[5], r[6], r[7]);
  }

  lemma SpelledNormalizes(isOne: Numeral -> bool, v: Value, e: Envelope, version: Numeral, handles: Value, body: Value,
                          wraps: Value)
    requires IsValid(e) && isOne(version) && SpellsTop(v, e, version, handles, body, wraps)
    requires SpellsHandles(handles, e.handles) && SpellsBody(body, e.nonce, e.ciphertext)
    requires SpellsWraps(wraps, e.wraps)
    ensures Normalize(isOne, v) == Some(e)
  {
    TopIsRead(v, e, version, handles, body, wraps);
    PartsAreSpelled(e, handles, body, wraps);
    NormalizesPartByPart(isOne, v, ExactRecord(v, TOP_LEVEL_FIELDS).value, e);
  }

  /** The normaliser makes an envelope of a value exactly when the envelope is valid and the
      value is its record, with the documented keys and no others at every level. */
  lemma AcceptsExactlyTheRecords(isOne: Numeral -> bool, v: Value, e: Envelope)
    ensures Normalize(isOne, v) == Some(e) <==> IsValid(e) && Spells(isOne, v, e)
  {
    if Normalize(isOne, v) == Some(e) {
      NormalizedIsSpelled(isOne, v, ExactRecord(v, TOP_LEVEL_FIELDS).value, e);
    }
    if IsValid(e) && Spells(isOne, v, e) {
      var version, handles, body, wraps :|
        && isOne(version) && SpellsTop(v, e, version, handles, body, wraps) && SpellsHandles(handles, e.handles)
        && SpellsBody(body, e.nonce, e.ciphertext) && SpellsWraps(wraps, e.wraps);
      SpelledNormalizes(isOne, v, e, version, handles, body, wraps);
    }
  }
}
