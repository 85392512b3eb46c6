/**
 The router as the mutable object it is (router.go). Every method changes the objects exactly as the operation on
 the world of routers says, and dispatch gives exactly the linear scan's result.

 all is the set of routers made so far. A method that panics in the source returns ok == false here and changes
 nothing.
 */
module RouterClass {
  import opened Options
  import opened RouterGraph
  import opened RouterScan

  class Router<!P(!new)> {
    var middlewares: seq<Middleware<P>>
    var routes: seq<Route<Router<P>, P>>
    var onError: bool
    var frozen: bool
    ghost var rank: nat

    ghost function Value(): RouterVal<Router<P>, P>
      reads this
    {
      RouterVal(middlewares, routes, onError, frozen)
    }

    constructor ()
      ensures Value() == RouterVal([], [], false, false) && rank == 0
    {
      middlewares, routes, onError, frozen, rank := [], [], false, false, 0;
    }

    method Use(mw: Middleware<P>, ghost all: set<Router<P>>) returns (ok: bool)
      requires this in all && WorldOf(all).Valid()
      modifies this`middlewares
      ensures ok == !frozen && middlewares == if ok then old(middlewares) + [mw] else old(middlewares)
      ensures ok == !Panics(old(WorldOf(all)), Op.Use(this, mw))
      ensures WorldOf(all) == Apply(old(WorldOf(all)), Op.Use(this, mw)) && WorldOf(all).Valid()
    {
      ghost var w := WorldOf(all);
      ApplyKeepsValid(w, Op.Use(this, mw));
      if frozen {
        return false;
      }
      middlewares := middlewares + [mw];
      assert WorldOf(all).g == Apply(w, Op.Use(this, mw)).g;
      return true;
    }

    /** Sets the error handler; registering nil, present being false, takes it away again. */
    method OnError(present: bool, ghost all: set<Router<P>>) returns (ok: bool)
      requires this in all && WorldOf(all).Valid()
      modifies this`onError
      ensures ok == !frozen && onError == if ok then present else old(onError)
      ensures ok == !Panics(old(WorldOf(all)), Op.OnError(this, present))
      ensures WorldOf(all) == Apply(old(WorldOf(all)), Op.OnError(this, present)) && WorldOf(all).Valid()
    {
      ghost var w := WorldOf(all);
      ApplyKeepsValid(w, Op.OnError(this, present));
      if frozen {
        return false;
      }
      onError := present;
      assert WorldOf(all).g == Apply(w, Op.OnError(this, present)).g;
      return true;
    }

    method Handle(leaf: Route<Router<P>, P>, ghost all: set<Router<P>>) returns (ok: bool)
      requires this in all && WorldOf(all).Valid() && leaf.Leaf?
      modifies this`routes
      ensures ok == !frozen && routes == if ok then old(routes) + [leaf] else old(routes)
      ensures ok == !Panics(old(WorldOf(all)), Op.Handle(this, leaf))
      ensures WorldOf(all) == Apply(old(WorldOf(all)), Op.Handle(this, leaf)) && WorldOf(all).Valid()
    {
      ghost var w := WorldOf(all);
      ApplyKeepsValid(w, Op.Handle(this, leaf));
      if frozen {
        return false;
      }
      routes := routes + [leaf];
      assert WorldOf(all).g == Apply(w, Op.Handle(this, leaf)).g;
      return true;
    }

    /** Terminates, and decides exactly whether target is reached. */
    method Reaches(target: Router<P>, ghost all: set<Router<P>>) returns (b: bool)
      requires this in all && WorldOf(all).Valid()
      ensures b == WorldOf(all).Reaches(this, target)
      decreases rank
    {
      if this == target {
        return true;
      }
      ghost var w := WorldOf(all);
      assert w.g[this].routes == routes;
      for i := 0 to |routes|
        invariant forall j | 0 <= j < i && routes[j].Sub? :: !w.Reaches(routes[j].sub, target)
      {
        if routes[i].Sub? {
          assert w.g[this].routes[i].sub in all && w.rank[routes[i].sub] < w.rank[this];
          var below := routes[i].sub.Reaches(target, all);
          if below {
            return true;
          }
        }
      }
      return false;
    }

    method Include(sub: Router?<P>, ghost all: set<Router<P>>) returns (ok: bool)
      requires this in all && WorldOf(all).Valid() && (sub != null ==> sub in all)
      modifies this`routes, all`rank
      ensures ok == (!frozen && sub != null && !old(WorldOf(all).Reaches(sub, this)))
      ensures routes == if ok then old(routes) + [Sub(sub)] else old(routes)
      ensures sub == null ==> !ok && WorldOf(all) == old(WorldOf(all))
      ensures sub != null ==> ok == !Panics(old(WorldOf(all)), Op.Include(this, sub))
      ensures sub != null ==> WorldOf(all) == Apply(old(WorldOf(all)), Op.Include(this, sub))
      ensures WorldOf(all).Valid()
    {
      if frozen || sub == null {
        return false;
      }
      ghost var w := WorldOf(all);
      ApplyKeepsValid(w, Op.Include(this, sub));
      IncludeIs(w, this, sub);
      hide Apply, Panics, RankAfterInclude;
      var cycle := sub.Reaches(this, all);
      if cycle {
        return false;
      }
      routes := routes + [Sub(sub)];
      ghost var rank' := RankAfterInclude(w, this, sub);
      forall r | r in all {
        r.rank := rank'[r];
      }
      assert WorldOf(all).g == w.g[this := w.g[this].(routes := w.g[this].routes + [Sub(sub)])];
      assert WorldOf(all).rank == rank';
      return true;
    }

    /** Compare and swap of the flag. */
    method SwapFrozen(ghost all: set<Router<P>>) returns (swapped: bool)
      requires this in all && WorldOf(all).Ranked()
      modifies this`frozen
      ensures swapped == !old(frozen)
      ensures WorldOf(all) == if swapped then FrozenSoFar(old(WorldOf(all)), this, 0) else old(WorldOf(all))
    {
      if frozen {
        return false;
      }
      ghost var w := WorldOf(all);
      frozen := true;
      assert WorldOf(all).g == w.g[this := w.g[this].(frozen := true)];
      FreezeSelf(w, this);
      hide FrozenSoFar;
      return true;
    }

    /** Marks every router below as frozen, each once; stops at routers that are. */
    method Freeze(ghost all: set<Router<P>>)
      requires this in all && WorldOf(all).Ranked() && ClosedUpTo(WorldOf(all), rank)
      modifies all`frozen
      ensures WorldOf(all) == Apply(old(WorldOf(all)), Op.Freeze(this))
      ensures forall r | r in all :: r.frozen == (old(r.frozen) || old(WorldOf(all).Reaches(this, r)))
      decreases rank
    {
      hide Apply, Frozen, FrozenSoFar, ClosedUpTo;
      ghost var w := WorldOf(all);
      assert w.g[this].routes == routes && w.g[this].frozen == frozen && w.rank[this] == rank;
      FreezeMarks(w, this);
      assert forall r | r in all :: w.g[r].frozen == old(r.frozen);
      var swapped := SwapFrozen(all);
      if !swapped {
        RefreezeIsNothing(w, this);
        assert forall r | r in all :: WorldOf(all).g[r].frozen == r.frozen;
        return;
      }
      for i := 0 to |routes|
        invariant WorldOf(all) == FrozenSoFar(w, this, i)
      {
        if routes[i].Sub? {
          var sub := routes[i].sub;
          FreezeNextSub(w, this, i);
          assert sub in all && WorldOf(all).rank[sub] == sub.rank;
          sub.Freeze(all);
        } else {
          FreezeNextLeaf(w, this, i);
        }
      }
      AllSubsFrozen(w, this);
      assert forall r | r in all :: WorldOf(all).g[r].frozen == r.frozen;
    }

    method HandleOrBubble(err: Option<Error>) returns (left: Option<Error>, ghost calls: seq<(Router<P>, Error)>)
      ensures left == (if onError then None else err)
      ensures calls == if err.Some? && onError then [(this, err.value)] else []
    {
      calls := [];
      if err.None? || !onError {
        return err, [];
      }
      return None, [(this, err.value)];
    }

    /** Freezes everything below, then tries the routes: the result is the scan's, and no router changes otherwise. */
    method Dispatch(ctx: Ctx<P>, ghost all: set<Router<P>>)
      returns (matched: bool, err: Option<Error>, after: Ctx<P>, ghost calls: seq<(Router<P>, Error)>)
      requires this in all && WorldOf(all).Valid()
      modifies all`frozen
      ensures WorldOf(all) == Apply(old(WorldOf(all)), Op.Freeze(this)) && WorldOf(all).Valid()
      ensures Result(matched, err, after, calls) == DispatchResult(WorldOf(all), this, ctx)
      decreases rank, 1
    {
      hide Apply, Scan, LeavesFrom;
      ApplyKeepsValid(WorldOf(all), Op.Freeze(this));
      ValidIsClosed(WorldOf(all), rank);
      FreezeFreezes(WorldOf(all), this);
      Freeze(all);
      matched, err, after, calls := DispatchRoutes(ctx, all);
      ghost var more;
      NothingLeftOverAt(WorldOf(all), this, ctx);
      err, more := HandleOrBubble(err);
      assert more == [] && calls + more == calls;
      calls := calls + more;
    }

    method DispatchRoutes(ctx: Ctx<P>, ghost all: set<Router<P>>)
      returns (matched: bool, err: Option<Error>, after: Ctx<P>, ghost calls: seq<(Router<P>, Error)>)
      requires this in all && WorldOf(all).Valid() && frozen
      modifies all`frozen
      ensures WorldOf(all) == old(WorldOf(all))
      ensures Result(matched, err, after, calls) == DispatchResult(WorldOf(all), this, ctx)
      decreases rank, 0
    {
      hide Apply, Scan, LeavesFrom, DispatchResult, ScanRoutes;
      ghost var w := WorldOf(all);
      FromTheFirstRoute(w, this, ctx);
      after := ctx;
      for i := 0 to |routes|
        invariant WorldOf(all) == w && w.g[this].routes == routes && w.g[this].middlewares == middlewares
        invariant DispatchResult(w, this, ctx) == ScanRoutes(w, this, i, after)
      {
        var rt := routes[i];
        if rt.Sub? {
          SubRoute(w, this, i, after);
          RefrozenSub(w, this, i);
          matched, err, after, calls := rt.sub.Dispatch(after, all);
          if matched {
            ghost var more;
            err, more := HandleOrBubble(err);
            calls := calls + more;
            return;
          }
          continue;
        }
        LeafRoute(w, this, i, after);
        if !rt.condition(after) {
          continue;
        }
        after := after.(routeFlags := rt.flags);
        var h := rt.handler;
        var k := |middlewares|;
        while k > 0
          invariant 0 <= k <= |middlewares| && h == Wrap(middlewares[k..], rt.handler)
        {
          k := k - 1;
          assert middlewares[k..][1..] == middlewares[k + 1..];
          h := middlewares[k](h);
        }
        assert middlewares[0..] == middlewares;
        var (changed, outcome) := h(after);
        after := changed;
        if outcome.Skip? {
          continue;
        }
        err, calls := HandleOrBubble(if outcome.Err? then Some(outcome.error) else None);
        return true, err, after, calls;
      }
      AfterTheLastRoute(w, this, after);
      return false, None, after, [];
    }

    /** The route dispatch would run, without running anything. */
    method FirstMatchingRoute(ctx: Ctx<P>, ghost all: set<Router<P>>) returns (m: Option<Route<Router<P>, P>>)
      requires this in all && WorldOf(all).Valid()
      ensures m == Lookahead(WorldOf(all), this, ctx)
      decreases rank
    {
      hide FirstMatch, LeavesFrom, Lookahead, MatchRoutes;
      ghost var w := WorldOf(all);
      FromTheFirstRoute(w, this, ctx);
      for i := 0 to |routes|
        invariant Lookahead(w, this, ctx) == MatchRoutes(w, this, i, ctx)
      {
        assert w.g[this].routes == routes;
        if routes[i].Sub? {
          SubRoute(w, this, i, ctx);
          assert w.rank[routes[i].sub] < w.rank[this];
          m := routes[i].sub.FirstMatchingRoute(ctx, all);
          if m.Some? {
            return;
          }
        } else {
          LeafRoute(w, this, i, ctx);
          if routes[i].condition(ctx) {
            return Some(routes[i]);
          }
        }
      }
      AfterTheLastRoute(w, this, ctx);
      return None;
    }
  }

  lemma ValidIsClosed<R, P>(w: World<R, P>, n: nat)
    requires w.Valid()
    ensures ClosedUpTo(w, n)
  {
  }

  lemma IncludeIs<R, P>(w: World<R, P>, r: R, sub: R)
    requires w.Ranked() && r in w.g && sub in w.g
    ensures Panics(w, Op.Include(r, sub)) == (w.g[r].frozen || w.Reaches(sub, r))
    ensures Panics(w, Op.Include(r, sub)) ==> Apply(w, Op.Include(r, sub)) == w
    ensures !Panics(w, Op.Include(r, sub)) ==>
      Apply(w, Op.Include(r, sub))
      == World(w.g[r := w.g[r].(routes := w.g[r].routes + [Sub(sub)])], RankAfterInclude(w, r, sub))
    ensures RankAfterInclude(w, r, sub).Keys == w.g.Keys
  {
  }

  lemma FreezeMarks<R, P>(w: World<R, P>, r: R)
    requires w.Ranked() && r in w.g
    ensures Apply(w, Op.Freeze(r)).g.Keys == w.g.Keys
    ensures forall x | x in w.g :: Apply(w, Op.Freeze(r)).g[x].frozen == (w.g[x].frozen || w.Reaches(r, x))
  {
  }

  lemma FreezeFreezes<R, P>(w: World<R, P>, r: R)
    requires w.Ranked() && r in w.g
    ensures Apply(w, Op.Freeze(r)).g.Keys == w.g.Keys && Apply(w, Op.Freeze(r)).g[r].frozen
  {
    assert w.Reaches(r, r);
  }

  lemma NothingLeftOverAt<R, P>(w: World<R, P>, r: R, ctx: Ctx<P>)
    requires w.Ranked() && r in w.g
    ensures w.g[r].onError ==> DispatchResult(w, r, ctx).err == None
  {
    if w.g[r].onError {
      NothingLeftOver(w, r, 0, ctx);
    }
  }

  /** Dispatching a sub-router of a frozen router freezes nothing more. */
  lemma RefrozenSub<R, P>(w: World<R, P>, r: R, i: nat)
    requires w.Valid() && r in w.g && w.g[r].frozen && i < |w.g[r].routes| && w.g[r].routes[i].Sub?
    ensures w.g[r].routes[i].sub in w.g && w.rank[w.g[r].routes[i].sub] < w.rank[r]
    ensures Apply(w, Op.Freeze(w.g[r].routes[i].sub)) == w
  {
    ValidIsClosed(w, w.rank[w.g[r].routes[i].sub]);
    RefreezeIsNothing(w, w.g[r].routes[i].sub);
  }

  lemma FromTheFirstRoute<R, P>(w: World<R, P>, r: R, ctx: Ctx<P>)
    requires w.Ranked() && r in w.g
    ensures DispatchResult(w, r, ctx) == ScanRoutes(w, r, 0, ctx)
    ensures Lookahead(w, r, ctx) == MatchRoutes(w, r, 0, ctx)
  {
  }

  lemma AfterTheLastRoute<R, P>(w: World<R, P>, r: R, ctx: Ctx<P>)
    requires w.Ranked() && r in w.g
    ensures ScanRoutes(w, r, |w.g[r].routes|, ctx) == Result(false, None, ctx, [])
    ensures MatchRoutes(w, r, |w.g[r].routes|, ctx) == None
  {
  }

  lemma FreezeSelf<R, P>(w: World<R, P>, r: R)
    requires w.Ranked() && r in w.g
    ensures FrozenSoFar(w, r, 0) == w.(g := w.g[r := w.g[r].(frozen := true)])
  {
    assert FrozenSoFar(w, r, 0).g == w.g[r := w.g[r].(frozen := true)];
  }

  /** A frozen router of rank at most n includes only frozen routers. */
  ghost predicate ClosedUpTo<R, P>(w: World<R, P>, n: nat)
    requires w.Ranked()
  {
    forall r | r in w.g && w.rank[r] <= n && w.g[r].frozen ::
      forall i | 0 <= i < |w.g[r].routes| && w.g[r].routes[i].Sub? :: w.g[w.g[r].routes[i].sub].frozen
  }

  lemma {:induction false} ClosedBelow<R, P>(w: World<R, P>, r: R, x: R)
    requires w.Ranked() && r in w.g && w.g[r].frozen && ClosedUpTo(w, w.rank[r]) && w.Reaches(r, x)
    ensures x in w.g && w.g[x].frozen
    decreases w.rank[r]
  {
    if r != x {
      var i :| 0 <= i < |w.g[r].routes| && w.g[r].routes[i].Sub? && w.Reaches(w.g[r].routes[i].sub, x);
      ClosedBelow(w, w.g[r].routes[i].sub, x);
    }
  }

  lemma RefreezeIsNothing<R, P>(w: World<R, P>, r: R)
    requires w.Ranked() && r in w.g && w.g[r].frozen && ClosedUpTo(w, w.rank[r])
    ensures Apply(w, Op.Freeze(r)) == w
  {
    forall x | x in w.g && w.Reaches(r, x) ensures w.g[x].frozen {
      ClosedBelow(w, r, x);
    }
    assert Apply(w, Op.Freeze(r)).g == w.g;
  }

  /** r itself and what its first i routes reach. */
  ghost predicate Frozen<R, P>(w: World<R, P>, r: R, i: nat, x: R)
    requires w.Ranked() && r in w.g && i <= |w.g[r].routes|
  {
    x == r || exists j :: 0 <= j < i && w.g[r].routes[j].Sub? && w.Reaches(w.g[r].routes[j].sub, x)
  }

  ghost function FrozenSoFar<R, P>(w: World<R, P>, r: R, i: nat): World<R, P>
    requires w.Ranked() && r in w.g && i <= |w.g[r].routes|
  {
    w.(g := map x | x in w.g :: if Frozen(w, r, i, x) then w.g[x].(frozen := true) else w.g[x])
  }

  /** Freezing flags do not change what reaches what. */
  lemma {:induction false} FlagsKeepReaches<R, P>(w: World<R, P>, w': World<R, P>, r: R, x: R)
    requires w.Ranked() && w'.Ranked() && w.g.Keys == w'.g.Keys && w.rank == w'.rank && r in w.g
    requires forall y | y in w.g :: w'.g[y].routes == w.g[y].routes
    ensures w'.Reaches(r, x) <==> w.Reaches(r, x)
    decreases w.rank[r]
  {
    forall i | 0 <= i < |w.g[r].routes| && w.g[r].routes[i].Sub?
      ensures w'.Reaches(w.g[r].routes[i].sub, x) <==> w.Reaches(w.g[r].routes[i].sub, x)
    {
      FlagsKeepReaches(w, w', w.g[r].routes[i].sub, x);
    }
  }

  lemma FrozenSoFarIsClosed<R, P>(w: World<R, P>, r: R, i: nat)
    requires w.Ranked() && r in w.g && i < |w.g[r].routes| && w.g[r].routes[i].Sub? && ClosedUpTo(w, w.rank[r])
    ensures FrozenSoFar(w, r, i).Ranked()
    ensures ClosedUpTo(FrozenSoFar(w, r, i), w.rank[w.g[r].routes[i].sub])
  {
    var now := FrozenSoFar(w, r, i);
    forall x, k | x in w.g && w.rank[x] < w.rank[r] && now.g[x].frozen
                  && 0 <= k < |w.g[x].routes| && w.g[x].routes[k].Sub?
      ensures now.g[w.g[x].routes[k].sub].frozen
    {
      if Frozen(w, r, i, x) {
        var j :| 0 <= j < i && w.g[r].routes[j].Sub? && w.Reaches(w.g[r].routes[j].sub, x);
        ReachesStep(w, w.g[r].routes[j].sub, x, k);
      }
    }
  }

  lemma FreezeNextSub<R, P>(w: World<R, P>, r: R, i: nat)
    requires w.Ranked() && r in w.g && i < |w.g[r].routes| && w.g[r].routes[i].Sub? && ClosedUpTo(w, w.rank[r])
    ensures w.g[r].routes[i].sub in w.g && w.rank[w.g[r].routes[i].sub] < w.rank[r]
    ensures FrozenSoFar(w, r, i).Ranked()
    ensures ClosedUpTo(FrozenSoFar(w, r, i), w.rank[w.g[r].routes[i].sub])
    ensures Apply(FrozenSoFar(w, r, i), Op.Freeze(w.g[r].routes[i].sub)) == FrozenSoFar(w, r, i + 1)
  {
    var now, sub := FrozenSoFar(w, r, i), w.g[r].routes[i].sub;
    FrozenSoFarIsClosed(w, r, i);
    forall x | x in w.g
      ensures now.Reaches(sub, x) == w.Reaches(sub, x)
      ensures Frozen(w, r, i + 1, x) == (Frozen(w, r, i, x) || w.Reaches(sub, x))
    {
      FlagsKeepReaches(w, now, sub, x);
    }
    assert Apply(now, Op.Freeze(sub)).g == FrozenSoFar(w, r, i + 1).g;
  }

  lemma FreezeNextLeaf<R, P>(w: World<R, P>, r: R, i: nat)
    requires w.Ranked() && r in w.g && i < |w.g[r].routes| && !w.g[r].routes[i].Sub?
    ensures FrozenSoFar(w, r, i + 1) == FrozenSoFar(w, r, i)
  {
    assert forall x :: Frozen(w, r, i + 1, x) == Frozen(w, r, i, x);
    assert FrozenSoFar(w, r, i + 1).g == FrozenSoFar(w, r, i).g;
  }

  lemma AllSubsFrozen<R, P>(w: World<R, P>, r: R)
    requires w.Ranked() && r in w.g
    ensures FrozenSoFar(w, r, |w.g[r].routes|) == Apply(w, Op.Freeze(r))
  {
    assert FrozenSoFar(w, r, |w.g[r].routes|).g == Apply(w, Op.Freeze(r)).g;
  }

  /** The routers of all as a world of values. */
  ghost function WorldOf<P(!new)>(all: set<Router<P>>): World<Router<P>, P>
    reads all
  {
    World(map r | r in all :: r.Value(), map r | r in all :: r.rank)
  }
}
