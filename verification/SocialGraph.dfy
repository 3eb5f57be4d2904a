/** Relationship context and social visibility (src/visibility.mjs): a scan of the edge
    list against shortest paths in the undirected friend graph. */
module SocialGraph {
  import opened Text
  import opened Domain

  datatype Context = Self | Direct | FriendOfFriend | Unrelated

  datatype Visibility = Visibility(visible: bool, reason: string)

  function Friends(edges: seq<Edge>): (r: seq<Edge>)
    ensures forall e :: e in r <==> e in edges && e.kind == Friend
  {
    if edges == [] then []
    else if edges[0].kind == Friend then [edges[0]] + Friends(edges[1..])
    else Friends(edges[1..])
  }

  predicate Adjacent(friends: seq<Edge>, x: string, y: string) {
    exists e :: e in friends && ((e.from == x && e.to == y) || (e.from == y && e.to == x))
  }

  function Nodes(friends: seq<Edge>): set<string> {
    (set e | e in friends :: e.from) + (set e | e in friends :: e.to)
  }

  /** None where the source throws on a malformed key. */
  function RelationshipContext(viewer: string, subject: string, edges: seq<Edge>): Option<Context> {
    match (NormalizePublicKey(viewer), NormalizePublicKey(subject))
    case (Some(a), Some(b)) =>
      var friends := Friends(edges);
      if a == b then Some(Self)
      else if Adjacent(friends, a, b) then Some(Direct)
      else if exists middle :: middle in Nodes(friends) && Adjacent(friends, a, middle) && Adjacent(friends, middle, b)
      then Some(FriendOfFriend)
      else Some(Unrelated)
    case _ => None
  }

  /** None stands for a status or context outside the closed lists. */
  function VisibilityDecision(status: Option<AccessStatus>, context: Option<Context>, policy: string): Visibility {
    if status.None? then Visibility(false, "deny-by-default")
    else if policy != "social" || context.None? then Visibility(false, "deny-by-default")
    else if context.value == Self then Visibility(true, "self")
    else
      match status.value
      case Limited => Visibility(context.value == Direct, "limited-direct-only")
      case Full => Visibility(context.value != Unrelated, "full-social-graph")
      case Operator => Visibility(context.value != Unrelated, "full-social-graph")
  }

  // --- shortest paths --------------------------------------------------------

  /** Some friendship joins the two, whichever of them declared it. */
  ghost predicate Joined(edges: seq<Edge>, x: string, y: string) {
    Edge(Friend, x, y) in edges || Edge(Friend, y, x) in edges
  }

  ghost predicate IsPath(edges: seq<Edge>, path: seq<string>, a: string, b: string) {
    && path != [] && path[0] == a && path[|path| - 1] == b
    && forall i :: 0 <= i < |path| - 1 ==> Joined(edges, path[i], path[i + 1])
  }

  /** Some path of at most `n` friendships leads from one to the other. */
  ghost predicate Within(edges: seq<Edge>, a: string, b: string, n: nat) {
    exists path :: IsPath(edges, path, a, b) && |path| <= n + 1
  }

  ghost predicate Distance(edges: seq<Edge>, a: string, b: string, n: nat) {
    Within(edges, a, b, n) && forall m: nat :: m < n ==> !Within(edges, a, b, m)
  }

  lemma AdjacentIsJoined(edges: seq<Edge>, x: string, y: string)
    ensures Adjacent(Friends(edges), x, y) <==> Joined(edges, x, y)
  {
  }

  lemma ShortPaths(edges: seq<Edge>, a: string, b: string)
    ensures Within(edges, a, b, 0) <==> a == b
    ensures Within(edges, a, b, 1) <==> a == b || Joined(edges, a, b)
    ensures Within(edges, a, b, 2) <==>
            a == b || Joined(edges, a, b) || exists m :: Joined(edges, a, m) && Joined(edges, m, b)
  {
    if a == b {
      assert IsPath(edges, [a], a, b);
    }
    if Joined(edges, a, b) {
      assert IsPath(edges, [a, b], a, b);
    }
    if m :| Joined(edges, a, m) && Joined(edges, m, b) {
      assert IsPath(edges, [a, m, b], a, b);
    }
    if Within(edges, a, b, 2) {
      var path :| IsPath(edges, path, a, b) && |path| <= 3;
      if |path| == 3 {
        assert Joined(edges, path[0], path[1]) && Joined(edges, path[1], path[2]);
      }
    }
  }

  lemma MiddleIsANode(edges: seq<Edge>, a: string, m: string)
    requires Joined(edges, a, m)
    ensures m in Nodes(Friends(edges))
  {
    var friends := Friends(edges);
    var e := if Edge(Friend, a, m) in edges then Edge(Friend, a, m) else Edge(Friend, m, a);
    assert e in friends;
  }

  /** The scan finds the shortest friend path, up to length two, in every edge list. */
  lemma ContextIsDistance(viewer: string, subject: string, edges: seq<Edge>)
    requires IsHexKey(viewer) && IsHexKey(subject)
    ensures var a, b := ToLower(viewer), ToLower(subject);
            var context := RelationshipContext(viewer, subject, edges);
            && (context == Some(Self) <==> Distance(edges, a, b, 0))
            && (context == Some(Direct) <==> Distance(edges, a, b, 1))
            && (context == Some(FriendOfFriend) <==> Distance(edges, a, b, 2))
            && (context == Some(Unrelated) <==> !Within(edges, a, b, 2))
  {
    var a, b, friends := ToLower(viewer), ToLower(subject), Friends(edges);
    ShortPaths(edges, a, b);
    AdjacentIsJoined(edges, a, b);
    forall m ensures Adjacent(friends, a, m) <==> Joined(edges, a, m) {
      AdjacentIsJoined(edges, a, m);
    }
    forall m ensures Adjacent(friends, m, b) <==> Joined(edges, m, b) {
      AdjacentIsJoined(edges, m, b);
    }
    if m :| Joined(edges, a, m) && Joined(edges, m, b) {
      MiddleIsANode(edges, a, m);
    }
  }

  lemma WithinIsSymmetric(edges: seq<Edge>, a: string, b: string, n: nat)
    requires Within(edges, a, b, n)
    ensures Within(edges, b, a, n)
  {
    var path :| IsPath(edges, path, a, b) && |path| <= n + 1;
    var back := seq(|path|, i requires 0 <= i < |path| => path[|path| - 1 - i]);
    forall i | 0 <= i < |back| - 1 ensures Joined(edges, back[i], back[i + 1]) {
      assert Joined(edges, path[|path| - 2 - i], path[|path| - 2 - i + 1]);
    }
    assert IsPath(edges, back, b, a);
  }

  /** Only which friendships exist matters: sponsor-trust edges, repetitions and the
      order of the list do not. */
  lemma OnlyFriendshipsMatter(viewer: string, subject: string, edges: seq<Edge>, other: seq<Edge>)
    requires forall e: Edge :: e.kind == Friend ==> (e in edges <==> e in other)
    ensures RelationshipContext(viewer, subject, edges) == RelationshipContext(viewer, subject, other)
  {
    var f, g := Friends(edges), Friends(other);
    forall x, y ensures Adjacent(f, x, y) <==> Adjacent(g, x, y) {
      AdjacentIsJoined(edges, x, y);
      AdjacentIsJoined(other, x, y);
    }
    forall x ensures x in Nodes(f) <==> x in Nodes(g) {
    }
  }

  lemma ContextIsSymmetric(viewer: string, subject: string, edges: seq<Edge>)
    ensures RelationshipContext(viewer, subject, edges) == RelationshipContext(subject, viewer, edges)
  {
    if IsHexKey(viewer) && IsHexKey(subject) {
      var a, b := ToLower(viewer), ToLower(subject);
      ContextIsDistance(viewer, subject, edges);
      ContextIsDistance(subject, viewer, edges);
      forall n: nat ensures Within(edges, a, b, n) <==> Within(edges, b, a, n) {
        if Within(edges, a, b, n) {
          WithinIsSymmetric(edges, a, b, n);
        }
        if Within(edges, b, a, n) {
          WithinIsSymmetric(edges, b, a, n);
        }
      }
    }
  }

  // --- policy on top of distance --------------------------------------------

  ghost function Radius(status: AccessStatus): nat {
    if status == Limited then 1 else 2
  }

  predicate Visible(status: AccessStatus, viewer: string, subject: string, edges: seq<Edge>) {
    VisibilityDecision(Some(status), RelationshipContext(viewer, subject, edges), "social").visible
  }

  /** A viewer sees exactly the subjects within one friendship for Limited and two for
      Full and Operator. */
  lemma VisibleIsWithinRadius(status: AccessStatus, viewer: string, subject: string, edges: seq<Edge>)
    ensures Visible(status, viewer, subject, edges) <==>
            IsHexKey(viewer) && IsHexKey(subject) && Within(edges, ToLower(viewer), ToLower(subject), Radius(status))
  {
    if IsHexKey(viewer) && IsHexKey(subject) {
      ContextIsDistance(viewer, subject, edges);
      ShortPaths(edges, ToLower(viewer), ToLower(subject));
    }
  }

  /** Adding friendships or raising Limited to Full or Operator never hides anyone. */
  lemma VisibilityOnlyGrows(status: AccessStatus, raised: AccessStatus, viewer: string, subject: string,
                            edges: seq<Edge>, more: seq<Edge>)
    requires Radius(status) <= Radius(raised)
    requires forall e :: e in edges ==> e in more
    requires Visible(status, viewer, subject, edges)
    ensures Visible(raised, viewer, subject, more)
  {
    VisibleIsWithinRadius(status, viewer, subject, edges);
    VisibleIsWithinRadius(raised, viewer, subject, more);
    var a, b := ToLower(viewer), ToLower(subject);
    var path :| IsPath(edges, path, a, b) && |path| <= Radius(status) + 1;
    assert IsPath(more, path, a, b);
  }

  /** Everything is denied by default: a subject is visible only under the one policy, to a
      known status and in a known context. The reason says which rule decided: that default,
      the viewer's own page, or the reach of the status. */
  lemma DecisionsAreReasoned(status: Option<AccessStatus>, context: Option<Context>, policy: string)
    ensures var decision := VisibilityDecision(status, context, policy);
            && (decision.reason == "deny-by-default" <==> status.None? || context.None? || policy != "social")
            && (decision.reason == "deny-by-default" ==> !decision.visible)
            && (decision.reason == "self" <==> status.Some? && context == Some(Self) && policy == "social")
            && (decision.reason == "self" ==> decision.visible)
            && (decision.reason == "limited-direct-only" ==>
                  status == Some(Limited) && (decision.visible <==> context == Some(Direct)))
            && (decision.reason == "full-social-graph" ==>
                  && status in {Some(Full), Some(Operator)}
                  && (decision.visible <==> context in {Some(Direct), Some(FriendOfFriend)}))
            && decision.reason in {"deny-by-default", "self", "limited-direct-only", "full-social-graph"}
  {
    assert "deny-by-default"[0] == 'd' && "self"[0] == 's' && "limited-direct-only"[0] == 'l';
    assert "full-social-graph"[0] == 'f';
  }
}
