/** Static files of the rehearsal server: the lexical check of a request target and the
    resolution of what it accepts below the web root
    (scripts/hodlxxi-social-auth-rehearsal.mjs), with POSIX `resolve`. */
module StaticPath {
  import opened Delimited
  import opened Text

  // --- POSIX resolution ---------------------------------------------------------

  /** Empty and `.` segments fall away; `..` removes the segment before it, if any. */
  function Normalize(parts: seq<string>): seq<string> {
    if parts == [] then []
    else
      var done, last := Normalize(parts[..|parts| - 1]), parts[|parts| - 1];
      if last == "" || last == "." then done
      else if last == ".." then (if done == [] then [] else done[..|done| - 1])
      else done + [last]
  }

  function PathOf(segments: seq<string>): string {
    "/" + Join(segments, '/')
  }

  /** `resolve(root, relative)` for an absolute `root` and a relative second argument. */
  function Resolve(root: string, relative: string): string {
    PathOf(Normalize(Split(root + ("/" + relative), '/')))
  }

  predicate IsName(segment: string) {
    segment != "" && segment != "." && segment != ".." && '/' !in segment
  }

  predicate AreNames(segments: seq<string>) {
    forall i :: 0 <= i < |segments| ==> IsName(segments[i])
  }

  lemma {:induction false} NamesStay(parts: seq<string>, names: seq<string>)
    requires AreNames(names)
    ensures Normalize(parts + names) == Normalize(parts) + names
  {
    if names == [] {
      assert parts + names == parts;
    } else {
      var init, last := names[..|names| - 1], names[|names| - 1];
      NamesStay(parts, init);
      assert (parts + names)[..|parts + names| - 1] == parts + init;
      assert IsName(last);
    }
  }

  // --- the check -------------------------------------------------------------------

  /** The revisioned assets and their revision. */
  datatype Assets = Assets(revision: string, paths: set<string>)

  predicate IsPlain(target: string) {
    "/" <= target && !("//" <= target) && '#' !in target && '%' !in target && '\\' !in target
  }

  predicate QueryAllowed(assets: Assets, pathname: string, query: string) {
    query == "v=" + assets.revision && pathname in assets.paths
  }

  predicate IsEmptyOrDots(segment: string) {
    segment == "" || segment == "." || segment == ".."
  }

  predicate HasEmptyOrDots(segments: seq<string>) {
    exists i :: 0 <= i < |segments| && IsEmptyOrDots(segments[i])
  }

  /** The accepted pathname. */
  function StaticPath(assets: Assets, target: string): Option<string> {
    if !IsPlain(target) then None
    else
      var q := IndexOf(target, '?');
      var rawPath := target[..q];
      var pathname := if rawPath == "/" then "/index.html" else rawPath;
      if q < |target| && !QueryAllowed(assets, pathname, target[q + 1..]) then None
      else if HasEmptyOrDots(Split(pathname[1..], '/')) then None
      else Some(pathname)
  }

  // --- confinement -------------------------------------------------------------------

  lemma NamesAreSegments(segments: seq<string>)
    requires AreFreeOf(segments, '/')
    ensures AreNames(segments) <==> !HasEmptyOrDots(segments)
  {
    if AreNames(segments) {
      assert forall i :: 0 <= i < |segments| ==> IsName(segments[i]);
    }
    forall i | 0 <= i < |segments| && !HasEmptyOrDots(segments) ensures IsName(segments[i]) {
      assert !IsEmptyOrDots(segments[i]);
    }
  }

  /** What is accepted is one or more names below `/`. */
  lemma AcceptedIsNames(assets: Assets, target: string)
    requires StaticPath(assets, target).Some?
    ensures var names := Split(StaticPath(assets, target).value[1..], '/');
            names != [] && AreNames(names) && StaticPath(assets, target).value == PathOf(names)
  {
    var pathname := StaticPath(assets, target).value;
    JoinOfSplit(pathname[1..], '/');
    assert pathname == "/" + pathname[1..];
    NamesAreSegments(Split(pathname[1..], '/'));
  }

  lemma SplitOfPrefixed(first: string, rest: string)
    requires '/' !in first
    ensures Split(first + ("/" + rest), '/') == [first] + Split(rest, '/')
  {
    SplitAt(first, rest, '/');
    SplitOfPlain(first, '/');
  }

  lemma SplitOfResolved(root: string, relative: string)
    ensures Split(("/" + root) + ("/" + ("." + ("/" + relative))), '/') ==
            [""] + Split(root, '/') + (["."] + Split(relative, '/'))
  {
    SplitAt("/" + root, "." + ("/" + relative), '/');
    assert "/" + root == "" + ("/" + root);
    SplitOfPrefixed("", root);
    SplitOfPrefixed(".", relative);
  }

  lemma ResolveAppends(root: seq<string>, names: seq<string>)
    requires AreNames(root) && AreNames(names) && names != []
    ensures Resolve(PathOf(root), "." + PathOf(names)) == PathOf(root + names)
  {
    var middle := if root == [] then [""] else root;
    if root != [] {
      SplitOfJoin(root, '/');
    }
    SplitOfJoin(names, '/');
    SplitOfResolved(Join(root, '/'), Join(names, '/'));
    assert Split(Join(root, '/'), '/') == middle;
    assert [""] + middle + (["."] + names) == [""] + middle + ["."] + names;
    NormalizeRoot(root, middle);
    NamesStay([""] + middle + ["."], names);
  }

  lemma NormalizeRoot(root: seq<string>, middle: seq<string>)
    requires AreNames(root) && middle == if root == [] then [""] else root
    ensures Normalize([""] + middle + ["."]) == root
  {
    var parts := [""] + middle + ["."];
    assert parts[..|parts| - 1] == [""] + middle;
    assert [""][..0] == [];
    assert Normalize([""]) == [];
    if root == [] {
      assert ([""] + middle)[..1] == [""];
    } else {
      NamesStay([""], root);
    }
  }

  /** The test of the handler after resolution. */
  predicate IsConfined(root: string, filename: string) {
    filename == root || root + "/" <= filename
  }

  /** Every accepted target resolves to the segments of the root followed by its own
      names; so the confinement test passes, exactly unless the root is `/` itself. */
  lemma AcceptedTargetsStayBelowRoot(assets: Assets, target: string, root: seq<string>)
    requires AreNames(root) && StaticPath(assets, target).Some?
    ensures var filename := Resolve(PathOf(root), "." + StaticPath(assets, target).value);
            && filename == PathOf(root + Split(StaticPath(assets, target).value[1..], '/'))
            && (IsConfined(PathOf(root), filename) <==> PathOf(root) != "/")
  {
    var names := Split(StaticPath(assets, target).value[1..], '/');
    AcceptedIsNames(assets, target);
    ResolveAppends(root, names);
    assert IsName(names[0]);
    if root == [] {
      assert root + names == names;
      FirstOfJoin(names);
      assert PathOf(names)[1] == names[0][0];
    } else {
      JoinOfAppend(root, names, '/');
      assert PathOf(root + names) == PathOf(root) + ("/" + Join(names, '/'));
      assert IsName(root[0]);
      FirstOfJoin(root);
    }
  }

  lemma FirstOfJoin(names: seq<string>)
    requires names != [] && names[0] != ""
    ensures Join(names, '/') != "" && Join(names, '/')[0] == names[0][0]
  {
  }

  /** Two accepted targets reach one file only if they were accepted as one pathname. */
  lemma ResolutionIsInjective(assets: Assets, target1: string, target2: string, root: seq<string>)
    requires AreNames(root) && StaticPath(assets, target1).Some? && StaticPath(assets, target2).Some?
    requires Resolve(PathOf(root), "." + StaticPath(assets, target1).value) ==
             Resolve(PathOf(root), "." + StaticPath(assets, target2).value)
    ensures StaticPath(assets, target1) == StaticPath(assets, target2)
  {
    var names1 := Split(StaticPath(assets, target1).value[1..], '/');
    var names2 := Split(StaticPath(assets, target2).value[1..], '/');
    AcceptedIsNames(assets, target1);
    AcceptedIsNames(assets, target2);
    ResolveAppends(root, names1);
    ResolveAppends(root, names2);
    assert PathOf(root + names1)[1..] == Join(root + names1, '/');
    assert PathOf(root + names2)[1..] == Join(root + names2, '/');
    SplitOfJoin(root + names1, '/');
    SplitOfJoin(root + names2, '/');
    assert names1 == (root + names1)[|root|..] && names2 == (root + names2)[|root|..];
  }

  /** A path without a query is accepted exactly when it is `/`, or one or more names below
      it free of the characters that would be decoded or cut. */
  lemma AcceptsExactlyNames(assets: Assets, names: seq<string>)
    requires names != [] && AreFreeOf(names, '/') && AreFreeOf(names, '?')
    ensures StaticPath(assets, PathOf(names)) ==
            if names == [""] then Some("/index.html")
            else if AreNames(names) && IsPlain(PathOf(names)) then Some(PathOf(names)) else None
  {
    var target := PathOf(names);
    JoinAvoids(names, '/', '?');
    SplitOfJoin(names, '/');
    NamesAreSegments(names);
    WithoutQuery(assets, target);
    assert target[1..] == Join(names, '/');
    IndexPageIsAName();
    assert Join(names, '/') == "" ==> Split("", '/') == names;
  }

  lemma IndexPageIsAName()
    ensures !HasEmptyOrDots(Split("/index.html"[1..], '/')) && IsPlain("/")
  {
    assert "/index.html"[1..] == "index.html";
    SplitOfPlain("index.html", '/');
  }

  lemma WithoutQuery(assets: Assets, target: string)
    requires '?' !in target
    ensures StaticPath(assets, target) ==
            var pathname := if target == "/" then "/index.html" else target;
            if IsPlain(target) && !HasEmptyOrDots(Split(pathname[1..], '/')) then Some(pathname) else None
  {
    assert IndexOf(target, '?') == |target|;
    assert target[..|target|] == target;
  }

  /** A query is accepted exactly if it names the revision, in characters that are neither
      decoded nor cut, and what stands before it is, by itself, an accepted pathname of a
      revisioned asset; it leads to that same file. */
  lemma OnlyTheRevisionMayBeAsked(assets: Assets, path: string, query: string)
    requires '?' !in path
    ensures StaticPath(assets, path + ("?" + query)) ==
            if query == "v=" + assets.revision && '#' !in query && '%' !in query && '\\' !in query
               && StaticPath(assets, path).Some? && StaticPath(assets, path).value in assets.paths
            then StaticPath(assets, path) else None
  {
    var target := path + ("?" + query);
    QueryBegins(path, query);
    WithoutQuery(assets, path);
    QueryIsPlain(path, query);
    assert target[..|path|] == path && target[|path| + 1..] == query;
  }

  lemma {:induction false} QueryBegins(path: string, query: string)
    requires '?' !in path
    ensures IndexOf(path + ("?" + query), '?') == |path|
  {
    if path == "" {
      assert path + ("?" + query) == "?" + query;
    } else {
      assert (path + ("?" + query))[1..] == path[1..] + ("?" + query);
      QueryBegins(path[1..], query);
    }
  }

  lemma QueryIsPlain(path: string, query: string)
    ensures IsPlain(path + ("?" + query)) <==> IsPlain(path) && '#' !in query && '%' !in query && '\\' !in query
  {
    var target := path + ("?" + query);
    assert forall c :: c in target <==> c in path || c == '?' || c in query;
    if path != "" {
      assert target[0] == path[0] && (|path| == 1 ==> target[1] == '?') && (|path| > 1 ==> target[1] == path[1]);
    } else {
      assert target[0] == '?';
    }
  }
}
