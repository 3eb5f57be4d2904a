/** Normalising a public relay filter (src/nostr.mjs). A filter is the list of its own
    fields in whatever order they were added. */
module RelayFilter {
  import opened Domain
  import opened Text

  datatype Item = TextItem(text: string) | IntegerItem(value: int) | OtherItem

  /** A field value; a list may have holes. */
  datatype Value = List(items: seq<Option<Item>>) | Integer(value: int) | Other

  datatype Field = Field(name: string, value: Value)

  const FIELDS := ["ids", "authors", "kinds", "since", "until", "limit", "#e", "#p"]
  const MAX_LIMIT := 500

  predicate IsPrefixList(field: string) {
    field == "ids" || field == "authors" || field == "#e" || field == "#p"
  }

  predicate IsHexPrefix(s: string) {
    1 <= |s| <= 64 && forall i :: 0 <= i < |s| ==> IsHexDigit(s[i])
  }

  // --- one field ------------------------------------------------------------------

  /** The loop that copies a list element by element refuses it at its first hole. */
  method CopyDataValues(items: seq<Option<Item>>) returns (copied: Option<seq<Item>>)
    ensures copied == Collect(items)
  {
    var values: seq<Item> := [];
    for index := 0 to |items|
      invariant Collect(items[..index]) == Some(values)
    {
      assert items[..index + 1][..index] == items[..index];
      if items[index].None? {
        HoleIsRefused(items, index);
        return None;
      }
      values := values + [items[index].value];
    }
    assert items[..|items|] == items;
    return Some(values);
  }

  lemma HoleIsRefused(items: seq<Option<Item>>, i: nat)
    requires i < |items| && items[i].None?
    ensures Collect(items).None?
  {
    if Collect(items).Some? {
      CollectedLength(items);
      CollectAll(items, Collect(items).value);
    }
  }

  function Lowered(items: seq<Item>): (r: seq<Option<Item>>)
    ensures |r| == |items|
  {
    seq(|items|, i requires 0 <= i < |items| =>
      Some(if items[i].TextItem? then TextItem(ToLower(items[i].text)) else items[i]))
  }

  function Present(items: seq<Item>): (r: seq<Option<Item>>)
    ensures |r| == |items|
  {
    seq(|items|, i requires 0 <= i < |items| => Some(items[i]))
  }

  predicate ArePrefixes(items: seq<Item>) {
    forall i :: 0 <= i < |items| ==> items[i].TextItem? && IsHexPrefix(items[i].text)
  }

  predicate AreKinds(items: seq<Item>) {
    forall i :: 0 <= i < |items| ==> items[i].IntegerItem? && 0 <= items[i].value <= MAX_SAFE_INTEGER
  }

  /** The value a field is normalised to; None where the source throws. */
  function NormalizeValue(field: string, value: Value): Option<Value> {
    if IsPrefixList(field) || field == "kinds" then
      if !value.List? || Collect(value.items).None? then None
      else
        var items := Collect(value.items).value;
        if field == "kinds" then (if AreKinds(items) then Some(List(Present(items))) else None)
        else if ArePrefixes(items) then Some(List(Lowered(items))) else None
    else
      var least, most := if field == "limit" then 1 else 0, if field == "limit" then MAX_LIMIT else MAX_SAFE_INTEGER;
      if value.Integer? && least <= value.value <= most then Some(value) else None
  }

  // --- the filter -------------------------------------------------------------------

  function Lookup(filter: seq<Field>, name: string): Option<Value> {
    if filter == [] then None
    else if filter[0].name == name then Some(filter[0].value)
    else Lookup(filter[1..], name)
  }

  /** The first `n` allowed fields, normalised. */
  function NormalizeFields(filter: seq<Field>, n: nat): Option<seq<Field>>
    requires n <= |FIELDS|
  {
    if n == 0 then Some([])
    else
      var before, found := NormalizeFields(filter, n - 1), Lookup(filter, FIELDS[n - 1]);
      if before.None? || found.None? then before
      else
        var value := NormalizeValue(FIELDS[n - 1], found.value);
        if value.None? then None else Some(before.value + [Field(FIELDS[n - 1], value.value)])
  }

  predicate HasOnlyAllowed(filter: seq<Field>) {
    forall i :: 0 <= i < |filter| ==> filter[i].name in FIELDS
  }

  function Normalize(filter: seq<Field>): Option<seq<Field>> {
    if !HasOnlyAllowed(filter) then None else NormalizeFields(filter, |FIELDS|)
  }

  /** The loop over the allowed fields, which builds the result in their order. */
  method ValidatePublicRelayFilter(filter: seq<Field>) returns (result: Option<seq<Field>>)
    ensures result == Normalize(filter)
  {
    for i := 0 to |filter|
      invariant forall k :: 0 <= k < i ==> filter[k].name in FIELDS
    {
      if filter[i].name !in FIELDS { return None; }
    }
    var normalized: seq<Field> := [];
    for i := 0 to |FIELDS|
      invariant NormalizeFields(filter, i) == Some(normalized)
    {
      var found := Lookup(filter, FIELDS[i]);
      if found.Some? {
        var value := NormalizeValue(FIELDS[i], found.value);
        if value.None? {
          RefusalIsFinal(filter, i + 1, |FIELDS|);
          return None;
        }
        normalized := normalized + [Field(FIELDS[i], value.value)];
      }
    }
    return Some(normalized);
  }

  lemma {:induction false} RefusalIsFinal(filter: seq<Field>, n: nat, m: nat)
    requires n <= m <= |FIELDS| && NormalizeFields(filter, n).None?
    ensures NormalizeFields(filter, m).None?
  {
    if n < m {
      RefusalIsFinal(filter, n, m - 1);
    }
  }

  // --- idempotence ---------------------------------------------------------------------

  lemma ValueIsIdempotent(field: string, value: Value)
    requires NormalizeValue(field, value).Some?
    ensures NormalizeValue(field, NormalizeValue(field, value).value) == NormalizeValue(field, value)
  {
    if IsPrefixList(field) || field == "kinds" {
      var items := Collect(value.items).value;
      if field == "kinds" {
        CollectAll(Present(items), items);
      } else {
        var lowered := seq(|items|, i requires 0 <= i < |items| => TextItem(ToLower(items[i].text)));
        CollectAll(Lowered(items), lowered);
        forall i | 0 <= i < |items|
          ensures IsHexPrefix(lowered[i].text) && ToLower(lowered[i].text) == lowered[i].text
        {
          LoweredPrefix(items[i].text);
        }
        assert Lowered(lowered) == Lowered(items);
      }
    }
  }

  lemma LoweredPrefix(s: string)
    requires IsHexPrefix(s)
    ensures IsHexPrefix(ToLower(s)) && ToLower(ToLower(s)) == ToLower(s)
  {
  }

  /** What the result holds under each of the first `n` names, and nothing else. */
  ghost predicate Holds(filter: seq<Field>, n: nat, result: seq<Field>)
    requires n <= |FIELDS|
  {
    && (forall k :: 0 <= k < |FIELDS| ==>
          Lookup(result, FIELDS[k]) ==
          if k >= n || Lookup(filter, FIELDS[k]).None? then None
          else NormalizeValue(FIELDS[k], Lookup(filter, FIELDS[k]).value))
    && HasOnlyAllowed(result)
  }

  lemma {:induction false} LookupOfAppend(filter: seq<Field>, last: Field, name: string)
    ensures Lookup(filter + [last], name) ==
            if Lookup(filter, name).Some? then Lookup(filter, name)
            else if last.name == name then Some(last.value) else None
  {
    if filter == [] {
      assert filter + [last] == [last];
    } else {
      assert (filter + [last])[1..] == filter[1..] + [last];
      LookupOfAppend(filter[1..], last, name);
    }
  }

  lemma FieldsAreDistinct(i: nat, j: nat)
    requires i < |FIELDS| && j < |FIELDS| && FIELDS[i] == FIELDS[j]
    ensures i == j
  {
    assert "ids"[0] == 'i' && "authors"[0] == 'a' && "kinds"[0] == 'k' && "since"[0] == 's';
    assert "until"[0] == 'u' && "limit"[0] == 'l' && "#e"[1] == 'e' && "#p"[1] == 'p';
  }

  lemma AppendHolds(filter: seq<Field>, n: nat, before: seq<Field>, value: Value)
    requires 0 < n <= |FIELDS| && Holds(filter, n - 1, before) && Lookup(filter, FIELDS[n - 1]).Some?
    requires NormalizeValue(FIELDS[n - 1], Lookup(filter, FIELDS[n - 1]).value) == Some(value)
    ensures Holds(filter, n, before + [Field(FIELDS[n - 1], value)])
  {
    var last := Field(FIELDS[n - 1], value);
    forall k | 0 <= k < |FIELDS|
      ensures Lookup(before + [last], FIELDS[k]) ==
              if k >= n || Lookup(filter, FIELDS[k]).None? then None
              else NormalizeValue(FIELDS[k], Lookup(filter, FIELDS[k]).value)
    {
      LookupOfAppend(before, last, FIELDS[k]);
      if FIELDS[k] == FIELDS[n - 1] {
        FieldsAreDistinct(k, n - 1);
      }
    }
  }

  lemma {:induction false} ResultHolds(filter: seq<Field>, n: nat)
    requires n <= |FIELDS| && NormalizeFields(filter, n).Some?
    ensures Holds(filter, n, NormalizeFields(filter, n).value)
  {
    if n > 0 {
      ResultHolds(filter, n - 1);
      var before := NormalizeFields(filter, n - 1).value;
      var found := Lookup(filter, FIELDS[n - 1]);
      if found.Some? {
        AppendHolds(filter, n, before, NormalizeValue(FIELDS[n - 1], found.value).value);
      }
    }
  }

  lemma {:induction false} FieldsAreIdempotent(filter: seq<Field>, result: seq<Field>, n: nat)
    requires n <= |FIELDS| && NormalizeFields(filter, n).Some? && Holds(filter, |FIELDS|, result)
    ensures NormalizeFields(result, n) == NormalizeFields(filter, n)
  {
    if n > 0 {
      FieldsAreIdempotent(filter, result, n - 1);
      var found := Lookup(filter, FIELDS[n - 1]);
      if found.Some? {
        ValueIsIdempotent(FIELDS[n - 1], found.value);
      }
    }
  }

  /** Normalising again changes nothing. */
  lemma NormalizationIsIdempotent(filter: seq<Field>)
    requires Normalize(filter).Some?
    ensures Normalize(Normalize(filter).value) == Normalize(filter)
  {
    ResultHolds(filter, |FIELDS|);
    FieldsAreIdempotent(filter, Normalize(filter).value, |FIELDS|);
  }

  // --- order ------------------------------------------------------------------------------

  lemma {:induction false} LookupOfField(filter: seq<Field>, i: nat)
    requires i < |filter| && forall j, k :: 0 <= j < k < |filter| ==> filter[j].name != filter[k].name
    ensures Lookup(filter, filter[i].name) == Some(filter[i].value)
  {
    if i > 0 {
      assert filter[1..][i - 1] == filter[i];
      LookupOfField(filter[1..], i - 1);
    }
  }

  lemma {:induction false} LookupIsField(filter: seq<Field>, name: string)
    requires Lookup(filter, name).Some?
    ensures Field(name, Lookup(filter, name).value) in filter
  {
    if filter[0].name != name {
      LookupIsField(filter[1..], name);
    }
  }

  /** The fields of an object have distinct names. */
  ghost predicate IsObject(filter: seq<Field>) {
    forall j, k :: 0 <= j < k < |filter| ==> filter[j].name != filter[k].name
  }

  lemma SameLookup(a: seq<Field>, b: seq<Field>, name: string)
    requires IsObject(a) && IsObject(b) && forall f :: f in a <==> f in b
    ensures Lookup(a, name) == Lookup(b, name)
  {
    if Lookup(a, name).Some? {
      LookupIsField(a, name);
      var i :| 0 <= i < |b| && b[i] == Field(name, Lookup(a, name).value);
      LookupOfField(b, i);
    } else if Lookup(b, name).Some? {
      LookupIsField(b, name);
      var i :| 0 <= i < |a| && a[i] == Field(name, Lookup(b, name).value);
      LookupOfField(a, i);
    }
  }

  lemma {:induction false} SameFields(a: seq<Field>, b: seq<Field>, n: nat)
    requires n <= |FIELDS| && forall name :: Lookup(a, name) == Lookup(b, name)
    ensures NormalizeFields(a, n) == NormalizeFields(b, n)
  {
    if n > 0 {
      SameFields(a, b, n - 1);
    }
  }

  /** The order in which the fields were added does not matter. */
  lemma FieldOrderIsIrrelevant(a: seq<Field>, b: seq<Field>)
    requires IsObject(a) && IsObject(b) && forall f :: f in a <==> f in b
    ensures Normalize(a) == Normalize(b)
  {
    forall name ensures Lookup(a, name) == Lookup(b, name) {
      SameLookup(a, b, name);
    }
    SameFields(a, b, |FIELDS|);
    assert HasOnlyAllowed(a) <==> forall f :: f in a ==> f.name in FIELDS;
    assert HasOnlyAllowed(b) <==> forall f :: f in b ==> f.name in FIELDS;
  }

  function Position(name: string): nat {
    PositionIn(FIELDS, name)
  }

  function PositionIn(names: seq<string>, name: string): (i: nat)
    ensures i <= |names| && (i < |names| ==> names[i] == name)
  {
    if names == [] || names[0] == name then 0 else 1 + PositionIn(names[1..], name)
  }

  lemma PositionOfField(i: nat)
    requires i < |FIELDS|
    ensures Position(FIELDS[i]) == i
  {
    FoundAtOrBefore(FIELDS, i);
    FieldsAreDistinct(i, Position(FIELDS[i]));
  }

  lemma {:induction false} FoundAtOrBefore(names: seq<string>, i: nat)
    requires i < |names|
    ensures PositionIn(names, names[i]) <= i
  {
    if i > 0 && names[0] != names[i] {
      FoundAtOrBefore(names[1..], i - 1);
    }
  }

  lemma {:induction false} PrefixIsOrdered(filter: seq<Field>, n: nat)
    requires n <= |FIELDS| && NormalizeFields(filter, n).Some?
    ensures var r := NormalizeFields(filter, n).value;
            && (forall i :: 0 <= i < |r| ==> Position(r[i].name) < n)
            && (forall i, j :: 0 <= i < j < |r| ==> Position(r[i].name) < Position(r[j].name))
  {
    if n > 0 {
      PrefixIsOrdered(filter, n - 1);
      PositionOfField(n - 1);
      var before, r := NormalizeFields(filter, n - 1).value, NormalizeFields(filter, n).value;
      if r != before {
        assert r == before + [r[|before|]] && Position(r[|before|].name) == n - 1;
      }
    }
  }

  /** The result holds exactly the given fields, each once, in the fixed order, and under
      each the normal form of its value. */
  lemma ResultIsOrdered(filter: seq<Field>)
    requires Normalize(filter).Some?
    ensures var r := Normalize(filter).value;
            && HasOnlyAllowed(r)
            && (forall i, j :: 0 <= i < j < |r| ==> Position(r[i].name) < Position(r[j].name))
            && (forall k :: 0 <= k < |FIELDS| ==>
                  match Lookup(filter, FIELDS[k])
                  case None => Lookup(r, FIELDS[k]).None?
                  case Some(value) => Lookup(r, FIELDS[k]).Some? &&
                                      Lookup(r, FIELDS[k]) == NormalizeValue(FIELDS[k], value))
  {
    PrefixIsOrdered(filter, |FIELDS|);
    ResultHolds(filter, |FIELDS|);
    forall k | 0 <= k < |FIELDS| && Lookup(filter, FIELDS[k]).Some?
      ensures NormalizeValue(FIELDS[k], Lookup(filter, FIELDS[k]).value).Some?
    {
      NothingWasRefused(filter, k, |FIELDS|);
    }
  }

  lemma {:induction false} NothingWasRefused(filter: seq<Field>, k: nat, n: nat)
    requires k < n <= |FIELDS| && NormalizeFields(filter, n).Some? && Lookup(filter, FIELDS[k]).Some?
    ensures NormalizeValue(FIELDS[k], Lookup(filter, FIELDS[k]).value).Some?
  {
    if k < n - 1 {
      NothingWasRefused(filter, k, n - 1);
    }
  }

  // --- meaning ---------------------------------------------------------------------------------

  /** The list selects the key: one of its texts is a prefix of it, letter case aside. */
  ghost predicate Selects(value: Value, key: string) {
    value.List? &&
    exists i :: 0 <= i < |value.items| && value.items[i].Some? && value.items[i].value.TextItem?
                && ToLower(value.items[i].value.text) <= ToLower(key)
  }

  /** Lowercasing a list of prefixes leaves the keys it selects the same. */
  lemma SelectionIsPreserved(filter: seq<Field>, k: nat, key: string)
    requires k < |FIELDS| && IsPrefixList(FIELDS[k]) && Normalize(filter).Some? && Lookup(filter, FIELDS[k]).Some?
    ensures Lookup(Normalize(filter).value, FIELDS[k]).Some?
    ensures Selects(Lookup(Normalize(filter).value, FIELDS[k]).value, key) <==>
            Selects(Lookup(filter, FIELDS[k]).value, key)
  {
    ResultHolds(filter, |FIELDS|);
    NothingWasRefused(filter, k, |FIELDS|);
    var value := Lookup(filter, FIELDS[k]).value;
    PrefixesSelectTheSame(FIELDS[k], value, key);
  }

  lemma PrefixesSelectTheSame(field: string, value: Value, key: string)
    requires IsPrefixList(field) && NormalizeValue(field, value).Some?
    ensures Selects(NormalizeValue(field, value).value, key) <==> Selects(value, key)
  {
    var items := Collect(value.items).value;
    var lowered := NormalizeValue(field, value).value;
    CollectedLength(value.items);
    CollectAll(value.items, items);
    forall i | 0 <= i < |items|
      ensures lowered.items[i].value.TextItem?
      ensures ToLower(lowered.items[i].value.text) == ToLower(value.items[i].value.text)
    {
      LoweredPrefix(items[i].text);
    }
  }

  /** What a field may hold: a prefix list texts of 1 to 64 hexadecimal digits, `kinds`
      whole numbers from 0, `limit` a whole number from 1 to 500, the times one from 0. */
  ghost predicate IsAcceptable(field: string, value: Value) {
    if field in ["ids", "authors", "#e", "#p"] then
      && value.List?
      && forall i :: 0 <= i < |value.items| ==>
           && value.items[i].Some? && value.items[i].value.TextItem?
           && var text := value.items[i].value.text;
              1 <= |text| <= 64 && forall j :: 0 <= j < |text| ==> IsHexDigit(text[j])
    else if field == "kinds" then
      && value.List?
      && forall i :: 0 <= i < |value.items| ==>
           && value.items[i].Some? && value.items[i].value.IntegerItem?
           && 0 <= value.items[i].value.value <= 9007199254740991
    else if field == "limit" then value.Integer? && 1 <= value.value <= 500
    else value.Integer? && 0 <= value.value <= 9007199254740991
  }

  /** What it then holds: the very value, but the texts of a prefix list in lower case. */
  ghost predicate IsKept(field: string, value: Value, result: Value) {
    if field in ["ids", "authors", "#e", "#p"] then
      && value.List? && result.List? && |result.items| == |value.items|
      && forall i :: 0 <= i < |value.items| ==>
           && value.items[i].Some? && value.items[i].value.TextItem?
           && result.items[i] == Some(TextItem(ToLower(value.items[i].value.text)))
    else result == value
  }

  lemma TextsAreKept(field: string, value: Value)
    requires field in ["ids", "authors", "#e", "#p"]
    ensures NormalizeValue(field, value).Some? <==> IsAcceptable(field, value)
    ensures IsAcceptable(field, value) ==> IsKept(field, value, NormalizeValue(field, value).value)
  {
    if value.List? {
      ItemsOf(value.items);
    }
  }

  lemma KindsAreKept(value: Value)
    ensures NormalizeValue("kinds", value).Some? <==> IsAcceptable("kinds", value)
    ensures IsAcceptable("kinds", value) ==> NormalizeValue("kinds", value).value == value
  {
    if value.List? {
      ItemsOf(value.items);
      if Collect(value.items).Some? {
        assert Present(Collect(value.items).value) == value.items;
      }
    }
  }

  lemma ItemsOf(items: seq<Option<Item>>)
    ensures Collect(items).Some? <==> forall i :: 0 <= i < |items| ==> items[i].Some?
    ensures Collect(items).Some? ==>
              |Collect(items).value| == |items|
              && forall i :: 0 <= i < |items| ==> items[i] == Some(Collect(items).value[i])
  {
    if Collect(items).Some? {
      CollectedLength(items);
      CollectAll(items, Collect(items).value);
    } else if forall i :: 0 <= i < |items| ==> items[i].Some? {
      var values := seq(|items|, i requires 0 <= i < |items| => items[i].value);
      CollectAll(items, values);
    }
  }

  lemma ValueIsKept(field: string, value: Value)
    ensures NormalizeValue(field, value).Some? <==> IsAcceptable(field, value)
    ensures IsAcceptable(field, value) ==> IsKept(field, value, NormalizeValue(field, value).value)
  {
    if field in ["ids", "authors", "#e", "#p"] {
      TextsAreKept(field, value);
    } else if field == "kinds" {
      KindsAreKept(value);
    }
  }

  lemma {:induction false} FieldsAreAccepted(filter: seq<Field>, n: nat)
    requires n <= |FIELDS|
    ensures NormalizeFields(filter, n).Some? <==>
            forall k :: 0 <= k < n && Lookup(filter, FIELDS[k]).Some? ==>
                          NormalizeValue(FIELDS[k], Lookup(filter, FIELDS[k]).value).Some?
  {
    if n > 0 {
      FieldsAreAccepted(filter, n - 1);
    }
  }

  /** A filter is accepted exactly if it has allowed fields only and each holds what it may;
      and then every field keeps what it held. */
  lemma AcceptedFiltersKeepTheirMeaning(filter: seq<Field>)
    ensures Normalize(filter).Some? <==>
            && (forall i :: 0 <= i < |filter| ==>
                  filter[i].name in ["ids", "authors", "kinds", "since", "until", "limit", "#e", "#p"])
            && forall k :: 0 <= k < |FIELDS| && Lookup(filter, FIELDS[k]).Some? ==>
                             IsAcceptable(FIELDS[k], Lookup(filter, FIELDS[k]).value)
    ensures Normalize(filter).Some? ==>
              forall k :: 0 <= k < |FIELDS| ==>
                match Lookup(filter, FIELDS[k])
                case None => Lookup(Normalize(filter).value, FIELDS[k]).None?
                case Some(value) =>
                  && Lookup(Normalize(filter).value, FIELDS[k]).Some?
                  && IsKept(FIELDS[k], value, Lookup(Normalize(filter).value, FIELDS[k]).value)
  {
    FieldsAreAccepted(filter, |FIELDS|);
    forall k | 0 <= k < |FIELDS| && Lookup(filter, FIELDS[k]).Some?
      ensures var value := Lookup(filter, FIELDS[k]).value;
              && (NormalizeValue(FIELDS[k], value).Some? <==> IsAcceptable(FIELDS[k], value))
              && (IsAcceptable(FIELDS[k], value) ==> IsKept(FIELDS[k], value, NormalizeValue(FIELDS[k], value).value))
    {
      ValueIsKept(FIELDS[k], Lookup(filter, FIELDS[k]).value);
    }
    if Normalize(filter).Some? {
      ResultHolds(filter, |FIELDS|);
    }
  }
}
