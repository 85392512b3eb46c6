/**
 Which leaf routes dispatch tries below a router, and in which order (router.go): one for each way down to a leaf
 through the includes, in registration order at every router.
 */
module RouterLeaves {
  import opened Options
  import opened RouterGraph
  import opened RouterScan

  /**
   p is a way down from r to the leaf f: a route's place at each router, all of them includes but the last. The chain
   of f lists the routers on the way, the last one first, and its middleware is the last one's own.
   */
  ghost predicate IsLeafAt<R, P>(w: World<R, P>, r: R, p: seq<nat>, f: FlatLeaf<R, P>) {
    var n := |p|;
    && n > 0 && |f.chain| == n && f.chain[n - 1] == r
    && (forall j | 0 <= j < n :: f.chain[j] in w.g)
    && (forall j | 0 <= j < n - 1 :: Leads(w, f.chain[n - 1 - j], p[j], f.chain[n - 2 - j]))
    && p[n - 1] < |w.g[f.chain[0]].routes| && w.g[f.chain[0]].routes[p[n - 1]] == f.leaf && f.leaf.Leaf?
    && f.middlewares == w.g[f.chain[0]].middlewares
  }

  /** Route i of r includes sub. */
  ghost predicate Leads<R, P>(w: World<R, P>, r: R, i: nat, sub: R) {
    r in w.g && i < |w.g[r].routes| && w.g[r].routes[i] == Sub(sub)
  }

  /** p turns off to an earlier route than q does. */
  predicate IsBefore(p: seq<nat>, q: seq<nat>) {
    exists k :: 0 <= k < |p| && k < |q| && p[k] < q[k] && p[..k] == q[..k]
  }

  predicate AllBefore(ps: seq<seq<nat>>) {
    forall i, j | 0 <= i < j < |ps| :: IsBefore(ps[i], ps[j])
  }

  /** ps and leaves belong together, place by place. */
  ghost predicate Matches<R, P>(w: World<R, P>, r: R, ps: seq<seq<nat>>, leaves: seq<FlatLeaf<R, P>>) {
    |ps| == |leaves| && forall k | 0 <= k < |ps| :: IsLeafAt(w, r, ps[k], leaves[k])
  }

  /** All ways down that begin with i, from those below route i. */
  function Under(i: nat, ps: seq<seq<nat>>): seq<seq<nat>> {
    seq(|ps|, k requires 0 <= k < |ps| => [i] + ps[k])
  }

  lemma LeafAtUnder<R, P>(w: World<R, P>, r: R, i: nat, sub: R, p: seq<nat>, f: FlatLeaf<R, P>)
    requires Leads(w, r, i, sub) && IsLeafAt(w, sub, p, f)
    ensures IsLeafAt(w, r, [i] + p, f.(chain := f.chain + [r]))
  {
    var n := |p|;
    var f', p' := f.(chain := f.chain + [r]), [i] + p;
    forall j | 0 <= j < n ensures Leads(w, f'.chain[n - j], p'[j], f'.chain[n - 1 - j]) {
      if j > 0 {
        assert Leads(w, f.chain[n - 1 - (j - 1)], p[j - 1], f.chain[n - 2 - (j - 1)]);
      }
    }
  }

  lemma UnderBefore(i: nat, p: seq<nat>, q: seq<nat>)
    requires IsBefore(p, q)
    ensures IsBefore([i] + p, [i] + q)
  {
    var k :| 0 <= k < |p| && k < |q| && p[k] < q[k] && p[..k] == q[..k];
    assert ([i] + p)[..k + 1] == [i] + p[..k] && ([i] + q)[..k + 1] == [i] + q[..k];
    assert ([i] + p)[k + 1] < ([i] + q)[k + 1];
  }

  lemma EarlierRoute(p: seq<nat>, q: seq<nat>)
    requires p != [] && q != [] && p[0] < q[0]
    ensures IsBefore(p, q)
  {
    assert p[..0] == q[..0];
  }

  /** The ways down through r's routes from the i-th on. */
  ghost function WaysFrom<R, P>(w: World<R, P>, r: R, i: nat): seq<seq<nat>>
    requires w.Ranked() && r in w.g && i <= |w.g[r].routes|
    decreases w.rank[r], |w.g[r].routes| - i
  {
    if i == |w.g[r].routes| then [] else WaysThrough(w, r, i) + WaysFrom(w, r, i + 1)
  }

  ghost function WaysThrough<R, P>(w: World<R, P>, r: R, i: nat): seq<seq<nat>>
    requires w.Ranked() && r in w.g && i < |w.g[r].routes|
    decreases w.rank[r], |w.g[r].routes| - i, 0
  {
    match w.g[r].routes[i]
    case Leaf(_, _, _, _, _) => [[i]]
    case Sub(sub) => Under(i, WaysFrom(w, sub, 0))
  }

  ghost function LeavesThrough<R, P>(w: World<R, P>, r: R, i: nat): seq<FlatLeaf<R, P>>
    requires w.Ranked() && r in w.g && i < |w.g[r].routes|
  {
    match w.g[r].routes[i]
    case Leaf(_, _, _, _, _) => [FlatLeaf(w.g[r].routes[i], w.g[r].middlewares, [r])]
    case Sub(sub) => Around(LeavesFrom(w, sub, 0), r)
  }

  lemma LeavesOfRoute<R, P>(w: World<R, P>, r: R, i: nat)
    requires w.Ranked() && r in w.g && i < |w.g[r].routes|
    ensures LeavesFrom(w, r, i) == LeavesThrough(w, r, i) + LeavesFrom(w, r, i + 1)
  {
  }

  lemma MatchesUnder<R, P>(w: World<R, P>, r: R, i: nat, sub: R, ps: seq<seq<nat>>, leaves: seq<FlatLeaf<R, P>>)
    requires Leads(w, r, i, sub) && Matches(w, sub, ps, leaves)
    ensures Matches(w, r, Under(i, ps), Around(leaves, r))
  {
    forall k | 0 <= k < |ps| ensures IsLeafAt(w, r, Under(i, ps)[k], Around(leaves, r)[k]) {
      LeafAtUnder(w, r, i, sub, ps[k], leaves[k]);
    }
  }

  lemma MatchesAppend<R, P>(w: World<R, P>, r: R, ps: seq<seq<nat>>, leaves: seq<FlatLeaf<R, P>>,
                            qs: seq<seq<nat>>, more: seq<FlatLeaf<R, P>>)
    requires Matches(w, r, ps, leaves) && Matches(w, r, qs, more)
    ensures Matches(w, r, ps + qs, leaves + more)
  {
    hide IsLeafAt;
  }

  lemma {:induction false} WaysMatch<R, P>(w: World<R, P>, r: R, i: nat)
    requires w.Ranked() && r in w.g && i <= |w.g[r].routes|
    ensures Matches(w, r, WaysFrom(w, r, i), LeavesFrom(w, r, i))
    decreases w.rank[r], |w.g[r].routes| - i
  {
    if i < |w.g[r].routes| {
      WaysMatch(w, r, i + 1);
      LeavesOfRoute(w, r, i);
      var rt := w.g[r].routes[i];
      if rt.Sub? {
        WaysMatch(w, rt.sub, 0);
        MatchesUnder(w, r, i, rt.sub, WaysFrom(w, rt.sub, 0), LeavesFrom(w, rt.sub, 0));
      }
      hide LeavesFrom;
      assert Matches(w, r, WaysThrough(w, r, i), LeavesThrough(w, r, i));
      hide Matches;
      MatchesAppend(w, r, WaysThrough(w, r, i), LeavesThrough(w, r, i), WaysFrom(w, r, i + 1), LeavesFrom(w, r, i + 1));
    }
  }

  predicate AllFrom(ps: seq<seq<nat>>, i: nat) {
    forall k | 0 <= k < |ps| :: ps[k] != [] && i <= ps[k][0]
  }

  lemma AscendingUnder(i: nat, ps: seq<seq<nat>>)
    requires AllBefore(ps)
    ensures AllBefore(Under(i, ps))
  {
    forall j, k | 0 <= j < k < |ps| ensures IsBefore(Under(i, ps)[j], Under(i, ps)[k]) {
      UnderBefore(i, ps[j], ps[k]);
    }
  }

  lemma AscendingAppend(i: nat, ps: seq<seq<nat>>, qs: seq<seq<nat>>)
    requires AllBefore(ps) && AllBefore(qs) && AllFrom(qs, i + 1)
    requires forall k | 0 <= k < |ps| :: ps[k] != [] && ps[k][0] == i
    ensures AllBefore(ps + qs) && AllFrom(ps + qs, i)
  {
    forall j, k | 0 <= j < k < |ps + qs| ensures IsBefore((ps + qs)[j], (ps + qs)[k]) {
      if j < |ps| <= k {
        EarlierRoute(ps[j], qs[k - |ps|]);
      }
    }
  }

  lemma {:induction false} WaysAscend<R, P>(w: World<R, P>, r: R, i: nat)
    requires w.Ranked() && r in w.g && i <= |w.g[r].routes|
    ensures AllBefore(WaysFrom(w, r, i)) && AllFrom(WaysFrom(w, r, i), i)
    decreases w.rank[r], |w.g[r].routes| - i
  {
    if i < |w.g[r].routes| {
      WaysAscend(w, r, i + 1);
      var rt := w.g[r].routes[i];
      if rt.Sub? {
        WaysAscend(w, rt.sub, 0);
        AscendingUnder(i, WaysFrom(w, rt.sub, 0));
      }
      AscendingAppend(i, WaysThrough(w, r, i), WaysFrom(w, r, i + 1));
    }
  }

  /** Below the first include of a way down, the rest is a way down. */
  lemma WayBelow<R, P>(w: World<R, P>, r: R, p: seq<nat>, f: FlatLeaf<R, P>) returns (below: FlatLeaf<R, P>)
    requires IsLeafAt(w, r, p, f) && |p| > 1
    ensures r in w.g && p[0] < |w.g[r].routes| && w.g[r].routes[p[0]].Sub?
    ensures IsLeafAt(w, w.g[r].routes[p[0]].sub, p[1..], below)
  {
    var n := |p|;
    assert Leads(w, f.chain[n - 1 - 0], p[0], f.chain[n - 2 - 0]);
    below := f.(chain := f.chain[..n - 1]);
    forall j | 0 <= j < n - 2 ensures Leads(w, below.chain[n - 2 - j], p[1..][j], below.chain[n - 3 - j]) {
      assert Leads(w, f.chain[n - 1 - (j + 1)], p[j + 1], f.chain[n - 2 - (j + 1)]);
    }
  }

  lemma {:induction false} EveryWayIsListed<R, P>(w: World<R, P>, r: R, i: nat, p: seq<nat>, f: FlatLeaf<R, P>)
    requires w.Ranked() && r in w.g && i <= |w.g[r].routes| && IsLeafAt(w, r, p, f) && i <= p[0]
    ensures p in WaysFrom(w, r, i)
    decreases w.rank[r], |w.g[r].routes| - i
  {
    if |p| > 1 {
      var below := WayBelow(w, r, p, f);
      if i == p[0] {
        var sub := w.g[r].routes[i].sub;
        EveryWayIsListed(w, sub, 0, p[1..], below);
        var k :| 0 <= k < |WaysFrom(w, sub, 0)| && WaysFrom(w, sub, 0)[k] == p[1..];
        assert Under(i, WaysFrom(w, sub, 0))[k] == p;
        assert p in WaysThrough(w, r, i);
      }
    } else {
      assert p == [p[0]] && f.chain == [r];
    }
    if i < p[0] {
      EveryWayIsListed(w, r, i + 1, p, f);
    }
  }

  /**
   The leaves below a router, said without the recursion: one for each way down to a leaf, with that leaf's route, its
   own router's middleware and the routers on the way, in the order in which the ways turn off.
   */
  lemma LeavesInOrder<R, P>(w: World<R, P>, r: R) returns (ps: seq<seq<nat>>)
    requires w.Ranked() && r in w.g
    ensures Matches(w, r, ps, Leaves(w, r)) && AllBefore(ps)
    ensures forall p, f :: IsLeafAt(w, r, p, f) ==> p in ps
  {
    ps := WaysFrom(w, r, 0);
    WaysMatch(w, r, 0);
    WaysAscend(w, r, 0);
    forall p, f | IsLeafAt(w, r, p, f) ensures p in ps {
      EveryWayIsListed(w, r, 0, p, f);
    }
  }

  /** Dispatch, said on the routers: the first leaf on these ways that matches and does not skip settles the update. */
  lemma DispatchExplained<R, P>(w: World<R, P>, r: R, ctx: Ctx<P>)
    returns (ps: seq<seq<nat>>, stacks: seq<seq<Handler<P>>>, k: nat)
    requires w.Ranked() && r in w.g
    ensures Matches(w, r, ps, Leaves(w, r)) && AllBefore(ps)
    ensures forall p, f :: IsLeafAt(w, r, p, f) ==> p in ps
    ensures AllLeaves(Leaves(w, r)) && AreStacks(stacks, Leaves(w, r))
    ensures Explains(w, stacks, Leaves(w, r), ctx, DispatchResult(w, r, ctx), k)
  {
    hide IsLeafAt, Explains, LeavesFrom;
    LeavesAreLeaves(w, r, 0);
    ps := LeavesInOrder(w, r);
    stacks, k := ScanExplained(w, Leaves(w, r), ctx);
  }
}
