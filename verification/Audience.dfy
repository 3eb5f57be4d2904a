/** The grammar of canonical HTTPS audiences: isCanonicalDeviceAudienceV1 in
    src/server/messaging-device-admission-v1.mjs. */
module Audience {
  import opened Delimited
  import opened Ipv6
  import opened Text

  const SCHEME := "https://"

  // --- the validator ------------------------------------------------------------

  predicate IsPrintable(s: string) {
    forall i :: 0 <= i < |s| ==> '!' <= s[i] <= '~'
  }

  predicate IsNameChar(c: char) {
    'a' <= c <= 'z' || IsDigit(c) || c == '.' || c == '-'
  }

  datatype Parts = Parts(host: string, port: Option<string>)

  /** How many characters the host takes: a bracketed host ends at its bracket, any other
      at the first colon. */
  function HostLength(s: string): (n: nat)
    ensures n <= |s|
  {
    if "[" <= s then (var i := IndexOf(s, ']'); if i < |s| then i + 1 else i) else IndexOf(s, ':')
  }

  predicate IsHostText(host: string) {
    if "[" <= host then
      |host| > 2 && host[|host| - 1] == ']' && forall i :: 1 <= i < |host| - 1 ==> IsHostChar(host[i])
    else host != "" && forall i :: 0 <= i < |host| ==> IsNameChar(host[i])
  }

  /** The host and the port digits that the pattern matches. */
  function Match(s: string): Option<Parts> {
    var host, tail := s[..HostLength(s)], s[HostLength(s)..];
    if !IsHostText(host) then None
    else if tail == "" then Some(Parts(host, None))
    else if tail[0] == ':' && |tail| > 1 && AllDigits(tail[1..]) then Some(Parts(host, Some(tail[1..])))
    else None
  }

  predicate IsPort(port: string) {
    && AllDigits(port) && 1 <= |port| <= 5 && port[0] != '0' && DecimalValue(port) <= 65535 && port != "443"
  }

  predicate IsOctet(part: string) {
    IsCanonicalNumeral(part) && |part| <= 3 && DecimalValue(part) <= 255
  }

  predicate IsAlphanumeric(c: char) {
    'a' <= c <= 'z' || IsDigit(c)
  }

  predicate IsLabel(part: string) {
    && 1 <= |part| <= 63 && IsAlphanumeric(part[0]) && IsAlphanumeric(part[|part| - 1])
    && (forall i :: 0 <= i < |part| ==> IsAlphanumeric(part[i]) || part[i] == '-')
    && !("xn--" <= part)
  }

  predicate IsDigits(part: string) {
    part != "" && AllDigits(part)
  }

  /** A final part that URL parsers read as a number. */
  predicate IsNumeric(part: string) {
    IsDigits(part) || ("0x" <= part && forall i :: 2 <= i < |part| ==> IsLowerHexDigit(part[i]))
  }

  predicate AllAre(labels: seq<string>, accepts: string -> bool) {
    forall i :: 0 <= i < |labels| ==> accepts(labels[i])
  }

  /** The dotted forms. */
  predicate IsDotted(labels: seq<string>)
    requires labels != []
  {
    if |labels| == 4 && AllAre(labels, IsDigits) then AllAre(labels, IsOctet)
    else !IsNumeric(labels[|labels| - 1]) && AllAre(labels, IsLabel)
  }

  ghost predicate IsHost(host: string) {
    if "[" <= host then |host| > 2 && IsCanonicalAddress(host[1..|host| - 1]) else IsDotted(Split(host, '.'))
  }

  ghost predicate IsCanonicalAudience(value: string) {
    && |value| <= 255 && IsPrintable(value) && SCHEME <= value
    && var parts := Match(value[|SCHEME|..]);
       && parts.Some? && (parts.value.port.Some? ==> IsPort(parts.value.port.value)) && IsHost(parts.value.host)
  }

  // --- the printer -------------------------------------------------------------------

  /** What an audience denotes. */
  datatype Host = Name(labels: seq<string>) | Address4(octets: seq<nat>) | Address6(pieces: seq<piece>)

  datatype Origin = Origin(host: Host, port: Option<nat>)

  function Decimals(octets: seq<nat>): (texts: seq<string>)
    ensures |texts| == |octets|
    ensures forall i :: 0 <= i < |texts| ==> texts[i] == Decimal(octets[i])
  {
    seq(|octets|, i requires 0 <= i < |octets| => Decimal(octets[i]))
  }

  function PrintHost(host: Host): string {
    match host
    case Name(labels) => Join(labels, '.')
    case Address4(octets) => Join(Decimals(octets), '.')
    case Address6(pieces) => "[" + Serialize(pieces) + "]"
  }

  function PrintPort(port: Option<nat>): string {
    if port.None? then "" else ":" + Decimal(port.value)
  }

  function Print(origin: Origin): string {
    SCHEME + (PrintHost(origin.host) + PrintPort(origin.port))
  }

  predicate IsValidHost(host: Host) {
    match host
    case Name(labels) => labels != [] && AllAre(labels, IsLabel) && !IsNumeric(labels[|labels| - 1])
    case Address4(octets) => |octets| == 4 && forall i :: 0 <= i < 4 ==> octets[i] <= 255
    case Address6(pieces) => |pieces| == PIECES
  }

  predicate IsValidPort(port: Option<nat>) {
    port.Some? ==> 1 <= port.value <= 65535 && port.value != 443
  }

  /** Hosts and ports the grammar can spell, in no more than 255 characters. */
  predicate IsValid(origin: Origin) {
    IsValidHost(origin.host) && IsValidPort(origin.port) && |Print(origin)| <= 255
  }

  // --- hosts ----------------------------------------------------------------------------

  /** The number of digits of a small number. */
  lemma DecimalLength(n: nat)
    ensures n < 1000 ==> |Decimal(n)| <= 3
    ensures n < 100000 ==> |Decimal(n)| <= 5
  {
    DecimalShrinks(n);
    DecimalShrinks(n / 10);
    DecimalShrinks(n / 10 / 10);
    DecimalShrinks(n / 10 / 10 / 10);
    DecimalShrinks(n / 10 / 10 / 10 / 10);
  }

  lemma DecimalShrinks(n: nat)
    ensures |Decimal(n)| == if n < 10 then 1 else 1 + |Decimal(n / 10)|
  {
  }

  lemma OctetPrints(n: nat)
    requires n <= 255
    ensures IsOctet(Decimal(n)) && IsDigits(Decimal(n)) && '.' !in Decimal(n)
  {
    DecimalRoundTrip(n);
    DecimalLength(n);
  }

  lemma OctetsArePrinted(octets: seq<nat>)
    requires forall i :: 0 <= i < |octets| ==> octets[i] <= 255
    ensures AllAre(Decimals(octets), IsOctet) && AllAre(Decimals(octets), IsDigits)
    ensures AreFreeOf(Decimals(octets), '.')
  {
    var texts := Decimals(octets);
    forall i | 0 <= i < |texts| ensures IsOctet(texts[i]) && IsDigits(texts[i]) && '.' !in texts[i] {
      OctetPrints(octets[i]);
    }
  }

  lemma LabelsAreFree(labels: seq<string>)
    requires AllAre(labels, IsLabel)
    ensures AreFreeOf(labels, '.')
  {
    forall i | 0 <= i < |labels| ensures '.' !in labels[i] {
      assert IsLabel(labels[i]);
    }
  }

  lemma {:induction false} JoinedNameChars(labels: seq<string>)
    requires forall i, k :: 0 <= i < |labels| && 0 <= k < |labels[i]| ==> IsNameChar(labels[i][k])
    ensures forall k :: 0 <= k < |Join(labels, '.')| ==> IsNameChar(Join(labels, '.')[k])
  {
    if |labels| > 1 {
      JoinedNameChars(labels[1..]);
    }
  }

  lemma JoinIsNotEmpty(labels: seq<string>)
    requires labels != [] && labels[0] != ""
    ensures Join(labels, '.') != "" && Join(labels, '.')[0] == labels[0][0]
  {
  }

  /** The text of a valid host is text the pattern matches, and a host. */
  lemma PrintedNameIsHost(labels: seq<string>)
    requires IsValidHost(Name(labels))
    ensures IsHostText(Join(labels, '.')) && !("[" <= Join(labels, '.')) && IsDotted(Split(Join(labels, '.'), '.'))
    ensures Split(Join(labels, '.'), '.') == labels
  {
    LabelsAreFree(labels);
    SplitOfJoin(labels, '.');
    assert IsLabel(labels[0]);
    JoinIsNotEmpty(labels);
    forall i, k | 0 <= i < |labels| && 0 <= k < |labels[i]| ensures IsNameChar(labels[i][k]) {
      assert IsLabel(labels[i]);
    }
    JoinedNameChars(labels);
    assert !IsDigits(labels[|labels| - 1]);
  }

  lemma PrintedOctetsAreHost(octets: seq<nat>)
    requires IsValidHost(Address4(octets))
    ensures var texts := Decimals(octets);
            && IsHostText(Join(texts, '.')) && !("[" <= Join(texts, '.')) && IsDotted(Split(Join(texts, '.'), '.'))
            && Split(Join(texts, '.'), '.') == texts
  {
    var texts := Decimals(octets);
    OctetsArePrinted(octets);
    SplitOfJoin(texts, '.');
    assert IsDigits(texts[0]);
    JoinIsNotEmpty(texts);
    forall i, k | 0 <= i < |texts| && 0 <= k < |texts[i]| ensures IsNameChar(texts[i][k]) {
      assert IsDigits(texts[i]);
    }
    JoinedNameChars(texts);
  }

  lemma BracketedText(inner: string)
    requires inner != "" && forall i :: 0 <= i < |inner| ==> IsHostChar(inner[i])
    ensures var host := "[" + inner + "]";
            && IsHostText(host) && "[" <= host && host[..|host| - 1] == "[" + inner && ']' !in "[" + inner
            && host[1..|host| - 1] == inner
  {
    var host := "[" + inner + "]";
    forall i | 0 <= i < |host| - 1 ensures host[i] != ']' && (i > 0 ==> IsHostChar(host[i])) {
      assert i > 0 ==> host[i] == inner[i - 1];
    }
  }

  lemma PrintedAddressIsHost(pieces: seq<piece>)
    requires |pieces| == PIECES
    ensures var host := PrintHost(Address6(pieces));
            && IsHostText(host) && "[" <= host && host[1..|host| - 1] == Serialize(pieces) && IsHost(host)
  {
    SerializedCharacters(pieces);
    BracketedText(Serialize(pieces));
    CanonicalAddressesAreSerialized(Serialize(pieces));
  }

  lemma PrintedHostIsHost(host: Host)
    requires IsValidHost(host)
    ensures IsHostText(PrintHost(host)) && IsHost(PrintHost(host))
  {
    match host
    case Name(labels) => PrintedNameIsHost(labels);
    case Address4(octets) => PrintedOctetsAreHost(octets);
    case Address6(pieces) => PrintedAddressIsHost(pieces);
  }

  lemma OctetsAreRead(labels: seq<string>) returns (octets: seq<nat>)
    requires |labels| == 4 && AllAre(labels, IsOctet)
    ensures IsValidHost(Address4(octets)) && Decimals(octets) == labels
  {
    octets := [];
    var i := 0;
    while i < 4
      invariant |octets| == i <= 4
      invariant forall k :: 0 <= k < i ==> octets[k] <= 255 && Decimal(octets[k]) == labels[k]
    {
      assert IsOctet(labels[i]);
      CanonicalNumeralIsPrinted(labels[i]);
      octets := octets + [DecimalValue(labels[i])];
      i := i + 1;
    }
    assert Decimals(octets) == labels;
  }

  lemma Unbracketed(text: string)
    requires "[" <= text && |text| > 2 && text[|text| - 1] == ']'
    ensures text == "[" + text[1..|text| - 1] + "]"
  {
  }

  lemma AddressIsRead(inner: string) returns (pieces: seq<piece>)
    requires IsCanonicalAddress(inner)
    ensures |pieces| == PIECES && Serialize(pieces) == inner
  {
    CanonicalAddressesAreSerialized(inner);
    pieces :| |pieces| == PIECES && Serialize(pieces) == inner;
  }

  /** Every accepted host is the text of a valid host. */
  lemma HostIsPrinted(text: string) returns (host: Host)
    requires IsHostText(text) && IsHost(text)
    ensures IsValidHost(host) && PrintHost(host) == text
  {
    if "[" <= text {
      Unbracketed(text);
      var pieces := AddressIsRead(text[1..|text| - 1]);
      return Address6(pieces);
    }
    var labels := Split(text, '.');
    JoinOfSplit(text, '.');
    if |labels| == 4 && AllAre(labels, IsDigits) {
      var octets := OctetsAreRead(labels);
      return Address4(octets);
    }
    return Name(labels);
  }

  /** Hosts of different kinds, or different hosts of one kind, are spelled differently. In
      particular no accepted DNS name is an accepted IPv4 address. */
  lemma HostsAreSpelledApart(a: Host, b: Host)
    requires IsValidHost(a) && IsValidHost(b) && PrintHost(a) == PrintHost(b)
    ensures a == b
  {
    PrintedHostIsHost(a);
    PrintedHostIsHost(b);
    if a.Address6? && b.Address6? {
      PrintedAddressIsHost(a.pieces);
      PrintedAddressIsHost(b.pieces);
      SerializeIsInjective(a.pieces, b.pieces);
    } else {
      var labels := LabelsOf(a);
      var others := LabelsOf(b);
      assert labels == others;
      SameLabels(a, b, labels);
    }
  }

  lemma LabelsOf(host: Host) returns (labels: seq<string>)
    requires IsValidHost(host)
    ensures host.Name? ==> labels == host.labels
    ensures host.Address4? ==> labels == Decimals(host.octets)
    ensures labels == Split(PrintHost(host), '.')
    ensures host.Address6? <==> "[" <= PrintHost(host)
  {
    match host
    case Name(ls) => PrintedNameIsHost(ls); return ls;
    case Address4(octets) => PrintedOctetsAreHost(octets); return Decimals(octets);
    case Address6(pieces) => PrintedAddressIsHost(pieces); return Split(PrintHost(host), '.');
  }

  lemma SameLabels(a: Host, b: Host, labels: seq<string>)
    requires IsValidHost(a) && IsValidHost(b) && a.Address6? == b.Address6? == false
    requires labels == if a.Name? then a.labels else Decimals(a.octets)
    requires labels == if b.Name? then b.labels else Decimals(b.octets)
    ensures a == b
  {
    if a.Address4? {
      OctetsArePrinted(a.octets);
      assert IsDigits(labels[3]);
    }
    if b.Address4? {
      OctetsArePrinted(b.octets);
      assert IsDigits(labels[3]);
    }
    if a.Address4? && b.Address4? {
      forall i | 0 <= i < 4 ensures a.octets[i] == b.octets[i] {
        DecimalIsInjective(a.octets[i], b.octets[i]);
      }
      assert a.octets == b.octets;
    }
  }

  // --- origins ---------------------------------------------------------------------------

  lemma PortPrints(port: Option<nat>)
    requires IsValidPort(port) && port.Some?
    ensures IsPort(Decimal(port.value))
  {
    DecimalRoundTrip(port.value);
    DecimalLength(port.value);
    DecimalRoundTrip(443);
    assert DecimalValue("443") == 443 by {
      assert "443"[..2] == "44" && "44"[..1] == "4" && "4"[..0] == "";
    }
  }

  lemma PortReads(port: string)
    requires IsPort(port)
    ensures IsValidPort(Some(DecimalValue(port))) && Decimal(DecimalValue(port)) == port
  {
    CanonicalNumeralIsPrinted(port);
    assert Decimal(443) == "443" by {
      assert Decimal(4) == "4" && Decimal(44) == "44";
    }
  }

  lemma {:induction false} IndexOfFirst(s: string, t: string, c: char)
    requires c !in s
    ensures IndexOf(s + t, c) == |s| + IndexOf(t, c)
  {
    if s != [] {
      assert s[0] in s && (s + t)[0] == s[0] && (s + t)[1..] == s[1..] + t;
      assert forall i :: 0 <= i < |s[1..]| ==> s[1..][i] == s[i + 1];
      IndexOfFirst(s[1..], t, c);
    } else {
      assert s + t == t;
    }
  }

  /** The host ends where its text ends. */
  lemma BracketEnds(inner: string, tail: string)
    requires inner != "" && forall i :: 0 <= i < |inner| ==> IsHostChar(inner[i])
    ensures HostLength("[" + inner + "]" + tail) == |inner| + 2
  {
    BracketedText(inner);
    assert "[" + inner + "]" + tail == ("[" + inner) + ("]" + tail);
    IndexOfFirst("[" + inner, "]" + tail, ']');
  }

  lemma NameEnds(text: string, tail: string)
    requires IsHostText(text) && !("[" <= text) && (tail == "" || tail[0] == ':')
    ensures HostLength(text + tail) == |text|
  {
    assert forall i :: 0 <= i < |text| ==> IsNameChar(text[i]);
    IndexOfFirst(text, tail, ':');
    assert (text + tail)[0] == text[0];
  }

  /** The host ends where its text ends. */
  lemma HostEnds(host: Host, tail: string)
    requires IsValidHost(host) && (tail == "" || tail[0] == ':')
    ensures HostLength(PrintHost(host) + tail) == |PrintHost(host)|
  {
    if host.Address6? {
      SerializedCharacters(host.pieces);
      BracketEnds(Serialize(host.pieces), tail);
    } else {
      var _ := LabelsOf(host);
      PrintedHostIsHost(host);
      NameEnds(PrintHost(host), tail);
    }
  }

  lemma PrintedMatches(origin: Origin)
    requires IsValidHost(origin.host)
    ensures var text := PrintHost(origin.host) + PrintPort(origin.port);
            Match(text) == Some(Parts(PrintHost(origin.host),
                                      if origin.port.None? then None else Some(Decimal(origin.port.value))))
  {
    var host, tail := PrintHost(origin.host), PrintPort(origin.port);
    HostEnds(origin.host, tail);
    PrintedHostIsHost(origin.host);
    assert (host + tail)[..|host|] == host && (host + tail)[|host|..] == tail;
    if origin.port.Some? {
      assert tail[1..] == Decimal(origin.port.value);
    }
  }

  lemma HostTextIsPrintable(host: string)
    requires IsHostText(host)
    ensures IsPrintable(host)
  {
    forall i | 0 <= i < |host| ensures '!' <= host[i] <= '~' {
      if "[" <= host {
        assert i == 0 || i == |host| - 1 || IsHostChar(host[i]);
      } else {
        assert IsNameChar(host[i]);
      }
    }
  }

  lemma PrintableAppends(s: string, t: string)
    requires IsPrintable(s) && IsPrintable(t)
    ensures IsPrintable(s + t)
  {
  }

  lemma PortIsPrintable(port: Option<nat>)
    ensures IsPrintable(PrintPort(port))
  {
    if port.Some? {
      assert AllDigits(Decimal(port.value));
    }
  }

  lemma HostIsPrintable(host: Host)
    requires IsValidHost(host)
    ensures IsPrintable(PrintHost(host))
  {
    PrintedHostIsHost(host);
    HostTextIsPrintable(PrintHost(host));
  }

  lemma SchemeIsPrintable()
    ensures IsPrintable(SCHEME)
  {
  }

  lemma PrintIsPrintable(origin: Origin)
    requires IsValidHost(origin.host)
    ensures IsPrintable(Print(origin))
  {
    HostIsPrintable(origin.host);
    PortIsPrintable(origin.port);
    SchemeIsPrintable();
    PrintableAppends(PrintHost(origin.host), PrintPort(origin.port));
    PrintableAppends(SCHEME, PrintHost(origin.host) + PrintPort(origin.port));
  }

  lemma ValidIsCanonical(origin: Origin)
    requires IsValid(origin)
    ensures IsCanonicalAudience(Print(origin))
  {
    PrintIsPrintable(origin);
    PrintedMatches(origin);
    PrintedHostIsHost(origin.host);
    assert Print(origin)[|SCHEME|..] == PrintHost(origin.host) + PrintPort(origin.port);
    if origin.port.Some? {
      PortPrints(origin.port);
    }
  }

  lemma MatchIsWhole(s: string)
    requires Match(s).Some?
    ensures var parts := Match(s).value;
            s == parts.host + (if parts.port.None? then "" else ":" + parts.port.value) && IsHostText(parts.host)
  {
    var n := HostLength(s);
    assert s == s[..n] + s[n..];
    if s[n..] != "" {
      assert s[n..] == ":" + s[n..][1..];
    }
  }

  lemma CanonicalIsPrinted(value: string) returns (origin: Origin)
    requires IsCanonicalAudience(value)
    ensures IsValid(origin) && Print(origin) == value
  {
    var rest := value[|SCHEME|..];
    var parts := Match(rest).value;
    MatchIsWhole(rest);
    var host := HostIsPrinted(parts.host);
    assert value == SCHEME + rest;
    if parts.port.None? {
      return Origin(host, None);
    }
    PortReads(parts.port.value);
    return Origin(host, Some(DecimalValue(parts.port.value)));
  }

  /** The accepted audiences are exactly the spellings of valid origins. */
  lemma AudiencesAreSpellings(value: string)
    ensures IsCanonicalAudience(value) <==> exists origin :: IsValid(origin) && Print(origin) == value
  {
    if IsCanonicalAudience(value) {
      var origin := CanonicalIsPrinted(value);
      assert IsValid(origin) && Print(origin) == value;
    }
    if origin :| IsValid(origin) && Print(origin) == value {
      ValidIsCanonical(origin);
    }
  }

  /** Every origin has one accepted spelling, and no two share one. */
  lemma SpellingsAreUnique(a: Origin, b: Origin)
    requires IsValid(a) && IsValid(b) && Print(a) == Print(b)
    ensures a == b
  {
    assert Print(a)[|SCHEME|..] == PrintHost(a.host) + PrintPort(a.port);
    assert Print(b)[|SCHEME|..] == PrintHost(b.host) + PrintPort(b.port);
    PrintedMatches(a);
    PrintedMatches(b);
    HostsAreSpelledApart(a.host, b.host);
    if a.port.Some? && b.port.Some? {
      DecimalIsInjective(a.port.value, b.port.value);
    }
  }

  /** A label of the documented grammar: 1 to 63 lower-case letters, digits and hyphens,
      without a hyphen at either end, and no IDN label. */
  ghost predicate IsDocumentedLabel(part: string) {
    && 1 <= |part| <= 63 && part[0] != '-' && part[|part| - 1] != '-'
    && (forall i :: 0 <= i < |part| ==> 'a' <= part[i] <= 'z' || '0' <= part[i] <= '9' || part[i] == '-')
    && (|part| >= 4 ==> part[..4] != "xn--")
  }

  /** A label that names a number, in decimal or hexadecimal. */
  ghost predicate NamesANumber(part: string) {
    || (forall i :: 0 <= i < |part| ==> '0' <= part[i] <= '9')
    || (|part| >= 2 && part[..2] == "0x"
        && forall i :: 2 <= i < |part| ==> '0' <= part[i] <= '9' || 'a' <= part[i] <= 'f')
  }

  /** The accepted audiences are those of the documented grammar: dotted labels of which the
      last names no number, four decimal octets, or eight pieces of an address in brackets;
      with any port from 1 to 65535 but the default one, and 255 characters at most. */
  lemma AudiencesFollowTheGrammar(value: string)
    ensures IsCanonicalAudience(value) <==>
            |value| <= 255 && exists origin :: IsDocumented(origin) && value == Print(origin)
  {
    AudiencesAreSpellings(value);
    if IsCanonicalAudience(value) {
      var origin :| IsValid(origin) && Print(origin) == value;
      DocumentedIsValid(origin);
      assert IsDocumented(origin) && value == Print(origin);
    }
    if origin :| |value| <= 255 && IsDocumented(origin) && value == Print(origin) {
      DocumentedIsValid(origin);
      assert IsValid(origin) && Print(origin) == value;
    }
  }

  ghost predicate IsDocumented(origin: Origin) {
    && (match origin.host
        case Name(labels) =>
          && labels != [] && (forall i :: 0 <= i < |labels| ==> IsDocumentedLabel(labels[i]))
          && !NamesANumber(labels[|labels| - 1])
        case Address4(octets) => |octets| == 4 && forall i :: 0 <= i < 4 ==> 0 <= octets[i] < 256
        case Address6(pieces) => |pieces| == 8)
    && (origin.port.Some? ==> 1 <= origin.port.value < 65536 && origin.port.value != 443)
  }

  lemma DocumentedIsValid(origin: Origin)
    ensures IsValid(origin) <==> IsDocumented(origin) && |Print(origin)| <= 255
  {
    if origin.host.Name? {
      var labels := origin.host.labels;
      forall i | 0 <= i < |labels|
        ensures IsLabel(labels[i]) <==> IsDocumentedLabel(labels[i])
        ensures labels[i] != "" ==> (IsNumeric(labels[i]) <==> NamesANumber(labels[i]))
      {
        LabelIsDocumented(labels[i]);
      }
      assert labels != [] && AllAre(labels, IsLabel) ==> IsLabel(labels[|labels| - 1]);
    }
  }

  lemma LabelIsDocumented(part: string)
    ensures IsLabel(part) <==> IsDocumentedLabel(part)
    ensures part != "" ==> (IsNumeric(part) <==> NamesANumber(part))
  {
  }
}
