/** Layered expansion of search results along strong, in-scope edges, with decaying scores. */
module GraphExpansion {
  import opened Wrappers
  import opened Ranking

  const WEIGHT_THRESHOLD: real := 0.5

  const HOP_DECAY: real := 0.7

  const GENERAL_DISCOUNT: real := 0.9

  const FOREIGN_DISCOUNT: real := 0.5

  const GENERAL_PROJECT: string := "general"

  datatype Policy = Policy(crossProject: bool, graphHops: nat, includeGeneral: bool, allowlist: Option<seq<string>>,
                           source: string)

  datatype Link = Link(target: Id, weight: real)

  /** The bounded neighbour list each memory is fetched with, and the project of each memory. */
  datatype Graph = Graph(links: map<Id, seq<Link>>, projects: map<Id, string>) {
    function Neighbors(x: Id): seq<Link> {
      if x in links then links[x] else []
    }

    function Project(x: Id): string {
      if x in projects then projects[x] else ""
    }
  }

  predicate IsInScope(project: string, policy: Policy) {
    if project == policy.source then true
    else if project == GENERAL_PROJECT then policy.includeGeneral
    else if !policy.crossProject then false
    else if policy.allowlist.Some? then project in policy.allowlist.value
    else true
  }

  function ProjectDiscount(project: string, policy: Policy): real {
    if project == policy.source then 1.0
    else if project == GENERAL_PROJECT then GENERAL_DISCOUNT
    else FOREIGN_DISCOUNT
  }

  // ---- the filtered graph --------------------------------------------------------------

  predicate Follows(g: Graph, policy: Policy, link: Link) {
    link.weight >= WEIGHT_THRESHOLD && IsInScope(g.Project(link.target), policy)
  }

  predicate Edge(g: Graph, policy: Policy, x: Id, y: Id) {
    exists i :: 0 <= i < |g.Neighbors(x)| && g.Neighbors(x)[i].target == y && Follows(g, policy, g.Neighbors(x)[i])
  }

  function Targets(g: Graph, policy: Policy, xs: set<Id>): set<Id> {
    set x, i | x in xs && 0 <= i < |g.Neighbors(x)| && Follows(g, policy, g.Neighbors(x)[i]) :: g.Neighbors(x)[i].target
  }

  /** Memories first met after exactly `k` hops, and all met within `k`. */
  function Layer(g: Graph, policy: Policy, seeds: set<Id>, k: nat): set<Id>
    decreases k, 1
  {
    if k == 0 then seeds else Targets(g, policy, Layer(g, policy, seeds, k - 1)) - Within(g, policy, seeds, k - 1)
  }

  function Within(g: Graph, policy: Policy, seeds: set<Id>, k: nat): set<Id>
    decreases k, 2
  {
    if k == 0 then seeds else Within(g, policy, seeds, k - 1) + Layer(g, policy, seeds, k)
  }

  /** A walk of `|w| - 1` edges from a seed. */
  ghost predicate Walk(g: Graph, policy: Policy, seeds: set<Id>, w: seq<Id>) {
    |w| > 0 && w[0] in seeds && forall i :: 0 < i < |w| ==> Edge(g, policy, w[i - 1], w[i])
  }

  ghost predicate WalkTo(g: Graph, policy: Policy, seeds: set<Id>, x: Id, k: nat) {
    exists w :: Walk(g, policy, seeds, w) && |w| == k + 1 && w[k] == x
  }

  lemma TargetsAreEdges(g: Graph, policy: Policy, xs: set<Id>, y: Id)
    ensures y in Targets(g, policy, xs) <==> exists x :: x in xs && Edge(g, policy, x, y)
  {
    if y in Targets(g, policy, xs) {
      var x, i :| x in xs && 0 <= i < |g.Neighbors(x)| && Follows(g, policy, g.Neighbors(x)[i]) &&
        g.Neighbors(x)[i].target == y;
      assert Edge(g, policy, x, y);
    }
  }

  lemma LayerBack(g: Graph, policy: Policy, seeds: set<Id>, x: Id, k: nat) returns (y: Id)
    requires k > 0 && x in Layer(g, policy, seeds, k)
    ensures y in Layer(g, policy, seeds, k - 1) && Edge(g, policy, y, x)
  {
    var previous := Layer(g, policy, seeds, k - 1);
    TargetsAreEdges(g, policy, previous, x);
    y :| y in previous && Edge(g, policy, y, x);
  }

  lemma WalkOn(g: Graph, policy: Policy, seeds: set<Id>, y: Id, x: Id, k: nat)
    requires WalkTo(g, policy, seeds, y, k) && Edge(g, policy, y, x)
    ensures WalkTo(g, policy, seeds, x, k + 1)
  {
    var w :| Walk(g, policy, seeds, w) && |w| == k + 1 && w[k] == y;
    var v := w + [x];
    assert Walk(g, policy, seeds, v) && v[k + 1] == x;
  }

  lemma {:induction false} LayerHasWalk(g: Graph, policy: Policy, seeds: set<Id>, x: Id, k: nat)
    requires x in Layer(g, policy, seeds, k)
    ensures WalkTo(g, policy, seeds, x, k)
    decreases k
  {
    if k == 0 {
      assert Walk(g, policy, seeds, [x]) && [x][0] == x;
    } else {
      var y := LayerBack(g, policy, seeds, x, k);
      LayerHasWalk(g, policy, seeds, y, k - 1);
      WalkOn(g, policy, seeds, y, x, k - 1);
    }
  }

  lemma {:induction false} NextWithin(g: Graph, policy: Policy, seeds: set<Id>, x: Id, y: Id, k: nat)
    requires x in Within(g, policy, seeds, k) && Edge(g, policy, x, y)
    ensures y in Within(g, policy, seeds, k + 1)
  {
    if x in Layer(g, policy, seeds, k) {
      TargetsAreEdges(g, policy, Layer(g, policy, seeds, k), y);
    } else {
      NextWithin(g, policy, seeds, x, y, k - 1);
    }
  }

  lemma {:induction false} WalkStaysWithin(g: Graph, policy: Policy, seeds: set<Id>, w: seq<Id>, k: nat)
    requires Walk(g, policy, seeds, w) && |w| == k + 1
    ensures w[k] in Within(g, policy, seeds, k)
  {
    if k == 0 {
    } else {
      WalkStaysWithin(g, policy, seeds, w[..k], k - 1);
      NextWithin(g, policy, seeds, w[k - 1], w[k], k - 1);
    }
  }

  lemma {:induction false} WithinGrows(g: Graph, policy: Policy, seeds: set<Id>, j: nat, k: nat)
    requires j <= k
    ensures Within(g, policy, seeds, j) <= Within(g, policy, seeds, k)
    decreases k
  {
    if j == k {
    } else {
      WithinGrows(g, policy, seeds, j, k - 1);
    }
  }

  lemma {:induction false} WithinHasLayer(g: Graph, policy: Policy, seeds: set<Id>, x: Id, k: nat) returns (j: nat)
    requires x in Within(g, policy, seeds, k)
    ensures j <= k && x in Layer(g, policy, seeds, j)
  {
    j := k;
    if x !in Layer(g, policy, seeds, k) {
      j := WithinHasLayer(g, policy, seeds, x, k - 1);
    }
  }

  /** A memory is in layer `k` exactly when `k` is its distance from the seeds in the filtered graph. */
  lemma LayerIsDistance(g: Graph, policy: Policy, seeds: set<Id>, x: Id, k: nat)
    ensures x in Layer(g, policy, seeds, k) <==>
              WalkTo(g, policy, seeds, x, k) && forall j :: 0 <= j < k ==> !WalkTo(g, policy, seeds, x, j)
  {
    if x in Layer(g, policy, seeds, k) {
      LayerHasWalk(g, policy, seeds, x, k);
      forall j | 0 <= j < k ensures !WalkTo(g, policy, seeds, x, j) {
        if WalkTo(g, policy, seeds, x, j) {
          var w :| Walk(g, policy, seeds, w) && |w| == j + 1 && w[j] == x;
          WalkStaysWithin(g, policy, seeds, w, j);
          WithinGrows(g, policy, seeds, j, k - 1);
          assert false;
        }
      }
    } else if WalkTo(g, policy, seeds, x, k) {
      var w :| Walk(g, policy, seeds, w) && |w| == k + 1 && w[k] == x;
      WalkStaysWithin(g, policy, seeds, w, k);
      var j := WithinHasLayer(g, policy, seeds, x, k);
      LayerHasWalk(g, policy, seeds, x, j);
    }
  }

  /** What is found within `k` hops is exactly what a walk of at most `k` edges reaches. */
  lemma WithinIsReachable(g: Graph, policy: Policy, seeds: set<Id>, x: Id, k: nat)
    ensures x in Within(g, policy, seeds, k) <==> exists j :: 0 <= j <= k && WalkTo(g, policy, seeds, x, j)
  {
    if x in Within(g, policy, seeds, k) {
      var j := WithinHasLayer(g, policy, seeds, x, k);
      LayerHasWalk(g, policy, seeds, x, j);
    }
    if j :| 0 <= j <= k && WalkTo(g, policy, seeds, x, j) {
      var w :| Walk(g, policy, seeds, w) && |w| == j + 1 && w[j] == x;
      WalkStaysWithin(g, policy, seeds, w, j);
      WithinGrows(g, policy, seeds, j, k);
    }
  }

  lemma {:induction false} EmptyLayerEnds(g: Graph, policy: Policy, seeds: set<Id>, k: nat, n: nat)
    requires Layer(g, policy, seeds, k + 1) == {} && k <= n
    ensures Layer(g, policy, seeds, n + 1) == {} && Within(g, policy, seeds, n) == Within(g, policy, seeds, k)
    decreases n
  {
    if k == n {
    } else {
      EmptyLayerEnds(g, policy, seeds, k, n - 1);
      assert Targets(g, policy, {}) == {};
    }
  }

  // ---- scores --------------------------------------------------------------------------

  function NextScore(g: Graph, policy: Policy, score: real, target: Id): real {
    score * HOP_DECAY * ProjectDiscount(g.Project(target), policy)
  }

  ghost predicate Step(g: Graph, policy: Policy, y: Scored, x: Scored) {
    Edge(g, policy, y.id, x.id) && x.score == NextScore(g, policy, y.score, x.id)
  }

  /** The score came down from a seed, one decayed and discounted edge at a time. */
  ghost predicate Derives(g: Graph, policy: Policy, seeds: seq<Scored>, x: Scored, k: nat)
    decreases k
  {
    if k == 0 then x in seeds
    else exists y: Scored :: Derives(g, policy, seeds, y, k - 1) && Step(g, policy, y, x)
  }

  /** The largest seed score after `k` hops of decay. */
  function Decayed(largest: real, k: nat): real {
    if k == 0 then largest else HOP_DECAY * Decayed(largest, k - 1)
  }

  lemma StepDecays(g: Graph, policy: Policy, score: real, target: Id)
    requires 0.0 <= score
    ensures 0.0 <= NextScore(g, policy, score, target) <= HOP_DECAY * score
  {
    var kept, discount := score * HOP_DECAY, ProjectDiscount(g.Project(target), policy);
    assert 0.0 <= kept * discount <= kept * 1.0;
  }

  /** With nonnegative seed scores, a score found after `k` hops is at most the decayed largest one. */
  lemma {:induction false} ScoreIsDecayed(g: Graph, policy: Policy, seeds: seq<Scored>, x: Scored, k: nat,
                                          largest: real)
    requires Derives(g, policy, seeds, x, k)
    requires forall s :: s in seeds ==> 0.0 <= s.score <= largest
    ensures 0.0 <= x.score <= Decayed(largest, k)
    decreases k
  {
    if k == 0 {
    } else {
      var y: Scored :| Derives(g, policy, seeds, y, k - 1) && Step(g, policy, y, x);
      ScoreIsDecayed(g, policy, seeds, y, k - 1, largest);
      StepDecays(g, policy, y.score, x.id);
    }
  }

  // ---- the plain rules -----------------------------------------------------------------

  /** Which project a listed memory may be of, whatever led to it. */
  predicate MayBeListed(project: string, policy: Policy) {
    || project == policy.source
    || (project == "general" && policy.includeGeneral)
    || (project != "general" && policy.crossProject
        && (policy.allowlist == None || project in policy.allowlist.value))
  }

  predicate StrongLink(g: Graph, x: Id, y: Id) {
    exists i :: 0 <= i < |g.Neighbors(x)| && g.Neighbors(x)[i].target == y && g.Neighbors(x)[i].weight >= 0.5
  }

  function PlainTargets(g: Graph, policy: Policy, xs: set<Id>): set<Id> {
    set x, i | x in xs && 0 <= i < |g.Neighbors(x)|
               && g.Neighbors(x)[i].weight >= 0.5
               && MayBeListed(g.Project(g.Neighbors(x)[i].target), policy) :: g.Neighbors(x)[i].target
  }

  /** What strong links to permitted projects reach from the seeds in at most `k` hops. */
  function ReachedBy(g: Graph, policy: Policy, seeds: set<Id>, k: nat): set<Id> {
    if k == 0 then seeds
    else ReachedBy(g, policy, seeds, k - 1) + PlainTargets(g, policy, ReachedBy(g, policy, seeds, k - 1))
  }

  /** The share of a score that one hop passes on, by the project it leads to. */
  function Share(project: string, source: string): real {
    if project == source then 0.7 else if project == "general" then 0.63 else 0.35
  }

  /** `x` was found over one strong link from `y`, with that share of its score. */
  predicate CameFrom(g: Graph, policy: Policy, y: Scored, x: Scored) {
    && StrongLink(g, y.id, x.id)
    && x.score == y.score * Share(g.Project(x.id), policy.source)
  }

  ghost predicate HasParent(g: Graph, policy: Policy, seeds: seq<Scored>, list: seq<Scored>, x: Scored) {
    exists y :: (y in seeds || y in list) && CameFrom(g, policy, y, x)
  }

  /** Every entry came from a seed or from another entry. */
  ghost predicate Rooted(g: Graph, policy: Policy, seeds: seq<Scored>, list: seq<Scored>) {
    forall x :: x in list ==> HasParent(g, policy, seeds, list, x)
  }

  lemma ScopeIsPlain(project: string, policy: Policy)
    ensures IsInScope(project, policy) <==> MayBeListed(project, policy)
  {
  }

  lemma EdgeIsPlain(g: Graph, policy: Policy, x: Id, y: Id)
    ensures Edge(g, policy, x, y) <==> StrongLink(g, x, y) && MayBeListed(g.Project(y), policy)
  {
    ScopeIsPlain(g.Project(y), policy);
    if StrongLink(g, x, y) && MayBeListed(g.Project(y), policy) {
      var i :| 0 <= i < |g.Neighbors(x)| && g.Neighbors(x)[i].target == y && g.Neighbors(x)[i].weight >= 0.5;
      assert Follows(g, policy, g.Neighbors(x)[i]);
    }
  }

  lemma PlainTargetsAreLinked(g: Graph, policy: Policy, xs: set<Id>, y: Id)
    ensures y in PlainTargets(g, policy, xs) <==> exists x :: x in xs && Edge(g, policy, x, y)
  {
    if y in PlainTargets(g, policy, xs) {
      var x, i :| x in xs && 0 <= i < |g.Neighbors(x)| && g.Neighbors(x)[i].weight >= 0.5
                  && MayBeListed(g.Project(g.Neighbors(x)[i].target), policy) && g.Neighbors(x)[i].target == y;
      assert StrongLink(g, x, y);
      EdgeIsPlain(g, policy, x, y);
    }
    if x :| x in xs && Edge(g, policy, x, y) {
      EdgeIsPlain(g, policy, x, y);
      var i :| 0 <= i < |g.Neighbors(x)| && g.Neighbors(x)[i].target == y && g.Neighbors(x)[i].weight >= 0.5;
    }
  }

  lemma StepIsPlain(g: Graph, policy: Policy, y: Scored, x: Scored)
    requires Step(g, policy, y, x)
    ensures CameFrom(g, policy, y, x) && MayBeListed(g.Project(x.id), policy)
  {
    EdgeIsPlain(g, policy, y.id, x.id);
  }

  lemma LayerIsWithin(g: Graph, policy: Policy, seeds: set<Id>, x: Id, k: nat)
    requires x in Layer(g, policy, seeds, k)
    ensures x in Within(g, policy, seeds, k)
  {
  }

  lemma LayerIsReached(g: Graph, policy: Policy, seeds: set<Id>, reached: set<Id>, x: Id, k: nat)
    requires k > 0 && reached == Within(g, policy, seeds, k - 1) && x in Layer(g, policy, seeds, k)
    ensures x in PlainTargets(g, policy, reached)
  {
    var y := LayerBack(g, policy, seeds, x, k);
    LayerIsWithin(g, policy, seeds, y, k - 1);
    PlainTargetsAreLinked(g, policy, reached, x);
  }

  lemma TargetIsWithin(g: Graph, policy: Policy, seeds: set<Id>, reached: set<Id>, x: Id, k: nat)
    requires k > 0 && reached == Within(g, policy, seeds, k - 1) && x in PlainTargets(g, policy, reached)
    ensures x in Within(g, policy, seeds, k)
  {
    PlainTargetsAreLinked(g, policy, reached, x);
    var y :| y in reached && Edge(g, policy, y, x);
    NextWithin(g, policy, seeds, y, x, k - 1);
  }

  /** The layers together are what the plain rules reach. */
  lemma {:induction false} WithinIsReachedBy(g: Graph, policy: Policy, seeds: set<Id>, k: nat)
    ensures Within(g, policy, seeds, k) == ReachedBy(g, policy, seeds, k)
  {
    if k == 0 {
    } else {
      var reached := ReachedBy(g, policy, seeds, k - 1);
      WithinIsReachedBy(g, policy, seeds, k - 1);
      forall x | x in Layer(g, policy, seeds, k) ensures x in PlainTargets(g, policy, reached) {
        LayerIsReached(g, policy, seeds, reached, x, k);
      }
      forall x | x in PlainTargets(g, policy, reached) ensures x in Within(g, policy, seeds, k) {
        TargetIsWithin(g, policy, seeds, reached, x, k);
      }
    }
  }

  /** What the plain rules reach beyond the seeds is of a permitted project. */
  lemma {:induction false} ReachedMayBeListed(g: Graph, policy: Policy, seeds: set<Id>, x: Id, k: nat)
    requires x in ReachedBy(g, policy, seeds, k) && x !in seeds
    ensures MayBeListed(g.Project(x), policy)
  {
    if k == 0 {
    } else if x in ReachedBy(g, policy, seeds, k - 1) {
      ReachedMayBeListed(g, policy, seeds, x, k - 1);
    } else {
      PlainTargetsAreLinked(g, policy, ReachedBy(g, policy, seeds, k - 1), x);
      var y :| y in ReachedBy(g, policy, seeds, k - 1) && Edge(g, policy, y, x);
      EdgeIsPlain(g, policy, y, x);
    }
  }

  // ---- the expansion -------------------------------------------------------------------

  /** Everything expanded so far: found at its own distance, from 1 to `k`. */
  ghost predicate Found(g: Graph, policy: Policy, seeds: seq<Scored>, list: seq<Scored>, k: nat) {
    forall e :: e in list ==>
      exists h :: 1 <= h <= k && e.id in Layer(g, policy, Ids(seeds), h) && Derives(g, policy, seeds, e, h)
  }

  /** What is listed sits at its exact distance, and its score is bounded by that distance. */
  lemma FoundAtItsDistance(g: Graph, policy: Policy, seeds: seq<Scored>, list: seq<Scored>, hops: nat, e: Scored,
                           largest: real)
    requires Found(g, policy, seeds, list, hops) && e in list
    requires forall s :: s in seeds ==> 0.0 <= s.score <= largest
    ensures exists h :: 1 <= h <= hops && WalkTo(g, policy, Ids(seeds), e.id, h)
                        && (forall j :: 0 <= j < h ==> !WalkTo(g, policy, Ids(seeds), e.id, j))
                        && 0.0 <= e.score <= Decayed(largest, h)
  {
    var h :| 1 <= h <= hops && e.id in Layer(g, policy, Ids(seeds), h) && Derives(g, policy, seeds, e, h);
    LayerIsDistance(g, policy, Ids(seeds), e.id, h);
    ScoreIsDecayed(g, policy, seeds, e, h, largest);
  }

  lemma {:induction false} NoSeeds(g: Graph, policy: Policy, k: nat)
    ensures Within(g, policy, {}, k) == {} && Layer(g, policy, {}, k) == {}
  {
    if k == 0 {
    } else {
      NoSeeds(g, policy, k - 1);
      assert Targets(g, policy, {}) == {};
    }
  }

  /** The followed targets among the first `n` links. */
  function FollowedFrom(g: Graph, policy: Policy, links: seq<Link>, n: nat): set<Id>
    requires n <= |links|
  {
    set i | 0 <= i < n && Follows(g, policy, links[i]) :: links[i].target
  }

  lemma FollowedNext(g: Graph, policy: Policy, links: seq<Link>, n: nat)
    requires n < |links|
    ensures FollowedFrom(g, policy, links, n + 1)
            == FollowedFrom(g, policy, links, n) + if Follows(g, policy, links[n]) then {links[n].target} else {}
  {
  }

  /** The in-scope targets of one memory that are not known yet, each once. */
  method ExpandNode(g: Graph, policy: Policy, ghost seeds: seq<Scored>, node: Scored, known: set<Id>, ghost hop: nat)
    returns (found: seq<Scored>)
    requires Derives(g, policy, seeds, node, hop)
    ensures Ids(found) == FollowedFrom(g, policy, g.Neighbors(node.id), |g.Neighbors(node.id)|) - known
    ensures DistinctIds(found)
    ensures forall e :: e in found ==> Derives(g, policy, seeds, e, hop + 1) && CameFrom(g, policy, node, e)
  {
    found := [];
    var links := g.Neighbors(node.id);
    for n := 0 to |links|
      invariant Ids(found) == FollowedFrom(g, policy, links, n) - known
      invariant DistinctIds(found)
      invariant forall e :: e in found ==> Derives(g, policy, seeds, e, hop + 1) && CameFrom(g, policy, node, e)
    {
      var link := links[n];
      FollowedNext(g, policy, links, n);
      if link.target in known || link.target in Ids(found) || link.weight < WEIGHT_THRESHOLD
         || !IsInScope(g.Project(link.target), policy) {
        continue;
      }
      var next := Scored(link.target, NextScore(g, policy, node.score, link.target));
      assert Edge(g, policy, node.id, next.id) && Step(g, policy, node, next);
      assert Derives(g, policy, seeds, next, hop + 1);
      StepIsPlain(g, policy, node, next);
      SingleId(next);
      AppendIds(found, [next]);
      found := found + [next];
    }
  }

  lemma FrontierTargets(g: Graph, policy: Policy, frontier: seq<Scored>, f: nat)
    requires f < |frontier|
    ensures Targets(g, policy, Ids(frontier[..f + 1]))
            == Targets(g, policy, Ids(frontier[..f]))
               + FollowedFrom(g, policy, g.Neighbors(frontier[f].id), |g.Neighbors(frontier[f].id)|)
  {
    assert frontier[..f + 1] == frontier[..f] + [frontier[f]];
    AppendIds(frontier[..f], [frontier[f]]);
    SingleId(frontier[f]);
  }

  /** One hop: the unseen in-scope targets of the frontier, each once. */
  method ExpandFrontier(g: Graph, policy: Policy, ghost seeds: seq<Scored>, frontier: seq<Scored>, seen: set<Id>,
                        ghost hop: nat)
    returns (next: seq<Scored>)
    requires forall e :: e in frontier ==> Derives(g, policy, seeds, e, hop)
    ensures Ids(next) == Targets(g, policy, Ids(frontier)) - seen
    ensures DistinctIds(next)
    ensures forall e :: e in next ==> Derives(g, policy, seeds, e, hop + 1) && HasParent(g, policy, [], frontier, e)
  {
    next := [];
    for f := 0 to |frontier|
      invariant Ids(next) == Targets(g, policy, Ids(frontier[..f])) - seen
      invariant DistinctIds(next)
      invariant forall e :: e in next ==> Derives(g, policy, seeds, e, hop + 1) && HasParent(g, policy, [], frontier, e)
    {
      var found := ExpandNode(g, policy, seeds, frontier[f], seen + Ids(next), hop);
      AppendIds(next, found);
      forall e | e in found ensures HasParent(g, policy, [], frontier, e) {
        assert frontier[f] in frontier && CameFrom(g, policy, frontier[f], e);
      }
      FrontierTargets(g, policy, frontier, f);
      next := next + found;
    }
    assert frontier[..|frontier|] == frontier;
  }

  lemma RootedOn(g: Graph, policy: Policy, seeds: seq<Scored>, list: seq<Scored>, frontier: seq<Scored>,
                 next: seq<Scored>)
    requires Rooted(g, policy, seeds, list) && (forall e :: e in frontier ==> e in seeds || e in list)
    requires forall e :: e in next ==> HasParent(g, policy, [], frontier, e)
    ensures Rooted(g, policy, seeds, list + next)
  {
    forall x | x in list + next ensures HasParent(g, policy, seeds, list + next, x) {
      if x in list {
        assert HasParent(g, policy, seeds, list, x);
        var y :| (y in seeds || y in list) && CameFrom(g, policy, y, x);
      } else {
        var y :| (y in [] || y in frontier) && CameFrom(g, policy, y, x);
      }
    }
  }

  lemma RootedSorted(g: Graph, policy: Policy, seeds: seq<Scored>, list: seq<Scored>, sorted: seq<Scored>)
    requires Rooted(g, policy, seeds, list) && forall e :: e in list <==> e in sorted
    ensures Rooted(g, policy, seeds, sorted)
  {
    forall x | x in sorted ensures HasParent(g, policy, seeds, sorted, x) {
      assert HasParent(g, policy, seeds, list, x);
      var y :| (y in seeds || y in list) && CameFrom(g, policy, y, x);
    }
  }

  /** Everything within `hops` hops is listed once, found at its own distance and over a link from another entry. */
  ghost predicate Expands(g: Graph, policy: Policy, seeds: seq<Scored>, list: seq<Scored>, hops: nat) {
    && Ids(list) == Within(g, policy, Ids(seeds), hops) - Ids(seeds) && DistinctIds(list)
    && Found(g, policy, seeds, list, hops) && Rooted(g, policy, seeds, list)
  }

  /** One more hop. */
  lemma ExpandsOn(g: Graph, policy: Policy, seeds: seq<Scored>, list: seq<Scored>, frontier: seq<Scored>,
                  next: seq<Scored>, hop: nat)
    requires Expands(g, policy, seeds, list, hop) && (forall e :: e in frontier ==> e in seeds || e in list)
    requires Ids(next) == Layer(g, policy, Ids(seeds), hop + 1) && DistinctIds(next)
    requires forall e :: e in next ==> Derives(g, policy, seeds, e, hop + 1) && HasParent(g, policy, [], frontier, e)
    ensures Expands(g, policy, seeds, list + next, hop + 1)
  {
    WithinGrows(g, policy, Ids(seeds), 0, hop);
    AppendIds(list, next);
    RootedOn(g, policy, seeds, list, frontier, next);
    forall e | e in list + next
      ensures exists n :: 1 <= n <= hop + 1 && e.id in Layer(g, policy, Ids(seeds), n) &&
                Derives(g, policy, seeds, e, n)
    {
      if e in next {
        IdsOf(next);
      }
    }
  }

  /** Once a hop finds nothing, no later one does. */
  lemma ExpandsForGood(g: Graph, policy: Policy, seeds: seq<Scored>, list: seq<Scored>, hop: nat, hops: nat)
    requires Expands(g, policy, seeds, list, hop) && hop <= hops && Layer(g, policy, Ids(seeds), hop + 1) == {}
    ensures Expands(g, policy, seeds, list, hops)
  {
    EmptyLayerEnds(g, policy, Ids(seeds), hop, hops);
    assert Found(g, policy, seeds, list, hops);
  }

  /** Sorting changes nothing of this. */
  lemma SortedExpands(g: Graph, policy: Policy, seeds: seq<Scored>, list: seq<Scored>, sorted: seq<Scored>, hops: nat)
    requires Expands(g, policy, seeds, list, hops) && SameEntries(list, sorted)
    ensures Expands(g, policy, seeds, sorted, hops)
  {
    EntriesKept(list, sorted);
    DistinctKept(list, sorted);
    RootedSorted(g, policy, seeds, list, sorted);
  }

  /** What is listed is what the plain rules reach, and of permitted projects. */
  lemma ExpandsPlainly(g: Graph, policy: Policy, seeds: seq<Scored>, list: seq<Scored>, hops: nat)
    requires Expands(g, policy, seeds, list, hops)
    ensures Ids(list) == ReachedBy(g, policy, Ids(seeds), hops) - Ids(seeds)
    ensures forall e :: e in list ==> MayBeListed(g.Project(e.id), policy)
  {
    WithinIsReachedBy(g, policy, Ids(seeds), hops);
    forall e | e in list ensures MayBeListed(g.Project(e.id), policy) {
      IdsOf(list);
      assert e.id in Ids(list);
      ReachedMayBeListed(g, policy, Ids(seeds), e.id, hops);
    }
  }

  method GraphExpand(g: Graph, seeds: seq<Scored>, policy: Policy) returns (expanded: seq<Scored>)
    ensures Ids(expanded) == Within(g, policy, Ids(seeds), policy.graphHops) - Ids(seeds)
    ensures DistinctIds(expanded) && Descending(expanded)
    ensures Found(g, policy, seeds, expanded, policy.graphHops)
    ensures Ids(expanded) == ReachedBy(g, policy, Ids(seeds), policy.graphHops) - Ids(seeds)
    ensures forall e :: e in expanded ==> MayBeListed(g.Project(e.id), policy)
    ensures Rooted(g, policy, seeds, expanded)
  {
    if policy.graphHops == 0 || seeds == [] {
      NoSeeds(g, policy, policy.graphHops);
      assert seeds == [] ==> Ids(seeds) == {};
      ExpandsPlainly(g, policy, seeds, [], policy.graphHops);
      return [];
    }
    expanded := [];
    var seen := Ids(seeds);
    var frontier := seeds;
    for hop := 0 to policy.graphHops
      invariant Ids(frontier) == Layer(g, policy, Ids(seeds), hop)
      invariant forall e :: e in frontier ==> Derives(g, policy, seeds, e, hop) && (e in seeds || e in expanded)
      invariant seen == Within(g, policy, Ids(seeds), hop)
      invariant Expands(g, policy, seeds, expanded, hop)
    {
      var next := ExpandFrontier(g, policy, seeds, frontier, seen, hop);
      assert Ids(next) == Layer(g, policy, Ids(seeds), hop + 1);
      if next == [] {
        ExpandsForGood(g, policy, seeds, expanded, hop, policy.graphHops);
        break;
      }
      ExpandsOn(g, policy, seeds, expanded, frontier, next, hop);
      seen := seen + Ids(next);
      expanded := expanded + next;
      frontier := next;
    }
    var sorted := SortDescending(expanded);
    SortedExpands(g, policy, seeds, expanded, sorted, policy.graphHops);
    ExpandsPlainly(g, policy, seeds, sorted, policy.graphHops);
    return sorted;
  }
}
