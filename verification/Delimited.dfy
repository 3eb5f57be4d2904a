/** `split` at a single character, and `join` with it. */
module Delimited {

  /** Where a character first occurs, or the length. */
  function IndexOf(s: string, c: char): (i: nat)
    ensures i <= |s| && c !in s[..i] && (i < |s| ==> s[i] == c)
  {
    if s == [] || s[0] == c then 0 else 1 + IndexOf(s[1..], c)
  }

  function Split(s: string, c: char): (parts: seq<string>)
    ensures parts != []
  {
    if s == [] then [""]
    else if s[0] == c then [""] + Split(s[1..], c)
    else var rest := Split(s[1..], c); [[s[0]] + rest[0]] + rest[1..]
  }

  function Join(parts: seq<string>, c: char): string {
    if parts == [] then "" else if |parts| == 1 then parts[0] else parts[0] + ([c] + Join(parts[1..], c))
  }

  ghost predicate AreFreeOf(parts: seq<string>, c: char) {
    forall i :: 0 <= i < |parts| ==> c !in parts[i]
  }

  lemma {:induction false} SplitOfPlain(s: string, c: char)
    requires c !in s
    ensures Split(s, c) == [s]
  {
    if s != [] {
      assert s[0] in s;
      SplitOfPlain(s[1..], c);
      assert s == [s[0]] + s[1..];
    }
  }

  lemma SplitUnfold(s: string, c: char)
    requires s != []
    ensures var rest := Split(s[1..], c);
            Split(s, c) == if s[0] == c then [""] + rest else [[s[0]] + rest[0]] + rest[1..]
  {
  }

  lemma SplitAtStart(b: string, c: char)
    ensures Split("" + ([c] + b), c) == Split("", c) + Split(b, c)
  {
    var s := "" + ([c] + b);
    assert s[0] == c && s[1..] == b;
    SplitUnfold(s, c);
  }

  lemma SplitLonger(a: string, after: string, right: seq<string>, c: char)
    requires a != [] && Split(a[1..] + after, c) == Split(a[1..], c) + right
    ensures Split(a + after, c) == Split(a, c) + right
  {
    assert (a + after)[1..] == a[1..] + after;
    SplitUnfold(a + after, c);
    SplitUnfold(a, c);
  }

  /** Splitting at one occurrence splits both sides. */
  lemma {:induction false} SplitAt(a: string, b: string, c: char)
    ensures Split(a + ([c] + b), c) == Split(a, c) + Split(b, c)
  {
    if a == [] {
      SplitAtStart(b, c);
    } else {
      SplitAt(a[1..], b, c);
      SplitLonger(a, [c] + b, Split(b, c), c);
    }
  }

  lemma {:induction false} SplitOfJoin(parts: seq<string>, c: char)
    requires parts != [] && AreFreeOf(parts, c)
    ensures Split(Join(parts, c), c) == parts
  {
    SplitOfPlain(parts[0], c);
    if |parts| > 1 {
      SplitOfJoin(parts[1..], c);
      SplitAt(parts[0], Join(parts[1..], c), c);
      assert parts == [parts[0]] + parts[1..];
    }
  }

  lemma JoinOfCons(first: string, rest: seq<string>, c: char)
    ensures rest != [] ==> Join([first] + rest, c) == first + ([c] + Join(rest, c))
  {
    assert ([first] + rest)[1..] == rest;
  }

  lemma JoinOfLonger(first: string, longer: string, rest: seq<string>, c: char)
    requires longer != [] && longer[1..] == first
    ensures Join([longer] + rest, c) == [longer[0]] + Join([first] + rest, c)
  {
    assert ([first] + rest)[1..] == rest && ([longer] + rest)[1..] == rest;
    assert longer == [longer[0]] + first;
  }

  lemma {:induction false} JoinOfSplit(s: string, c: char)
    ensures Join(Split(s, c), c) == s && AreFreeOf(Split(s, c), c)
  {
    if s != [] {
      var rest := Split(s[1..], c);
      SplitUnfold(s, c);
      JoinOfSplit(s[1..], c);
      if s[0] == c {
        JoinOfCons("", rest, c);
      } else {
        JoinOfLonger(rest[0], [s[0]] + rest[0], rest[1..], c);
        assert [rest[0]] + rest[1..] == rest;
      }
      assert s == [s[0]] + s[1..];
    }
  }

  lemma {:induction false} JoinOfAppend(a: seq<string>, b: seq<string>, c: char)
    requires a != [] && b != []
    ensures Join(a + b, c) == Join(a, c) + ([c] + Join(b, c))
  {
    if |a| == 1 {
      assert (a + b)[1..] == b;
    } else {
      assert (a + b)[1..] == a[1..] + b;
      JoinOfAppend(a[1..], b, c);
    }
  }

  lemma {:induction false} JoinAvoids(parts: seq<string>, c: char, d: char)
    requires c != d && AreFreeOf(parts, d)
    ensures d !in Join(parts, c)
  {
    if |parts| > 1 {
      JoinAvoids(parts[1..], c, d);
    }
  }
}
