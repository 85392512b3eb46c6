/**
 Dispatch as a linear scan (router.go): the leaf routes below a router in one flat list, tried in order; and what
 that scan decides.
 */
module RouterScan {
  import opened Options
  import opened RouterGraph

  /** A leaf route with the middleware of its own router and the routers around it, innermost first. */
  datatype FlatLeaf<!R, !P> = FlatLeaf(leaf: Route<R, P>, middlewares: seq<Middleware<P>>, chain: seq<R>)

  /** What dispatch reports: whether a handler ran, the error left over, and every OnError call in order. */
  datatype Result<!R, !P> = Result(matched: bool, err: Option<Error>, ctx: Ctx<P>, calls: seq<(R, Error)>)

  /** The handler inside the middleware: the first one registered is the outermost. */
  function Wrap<P>(middlewares: seq<Middleware<P>>, handler: Handler<P>): Handler<P> {
    if middlewares == [] then handler else middlewares[0](Wrap(middlewares[1..], handler))
  }

  function RunLeaf<R, P>(f: FlatLeaf<R, P>, ctx: Ctx<P>): (Ctx<P>, Outcome)
    requires f.leaf.Leaf?
  {
    Wrap(f.middlewares, f.leaf.handler)(ctx.(routeFlags := f.leaf.flags))
  }

  /** One more router around every leaf. */
  function Around<R, P>(leaves: seq<FlatLeaf<R, P>>, r: R): seq<FlatLeaf<R, P>> {
    seq(|leaves|, i requires 0 <= i < |leaves| => leaves[i].(chain := leaves[i].chain + [r]))
  }

  /** The leaves of r's routes from the i-th on, in the order in which dispatch tries them. */
  ghost function LeavesFrom<R, P>(w: World<R, P>, r: R, i: nat): seq<FlatLeaf<R, P>>
    requires w.Ranked() && r in w.g && i <= |w.g[r].routes|
    decreases w.rank[r], |w.g[r].routes| - i
  {
    if i == |w.g[r].routes| then []
    else
      (match w.g[r].routes[i]
       case Leaf(_, _, _, _, _) => [FlatLeaf(w.g[r].routes[i], w.g[r].middlewares, [r])]
       case Sub(sub) => Around(LeavesFrom(w, sub, 0), r))
      + LeavesFrom(w, r, i + 1)
  }

  ghost function Leaves<R, P>(w: World<R, P>, r: R): seq<FlatLeaf<R, P>>
    requires w.Ranked() && r in w.g
  {
    LeavesFrom(w, r, 0)
  }

  /** An error reaches the OnError of the nearest enclosing router that has one, or is left over. */
  ghost function Settle<R, P>(w: World<R, P>, chain: seq<R>, e: Error): (Option<Error>, seq<(R, Error)>)
    decreases |chain|
  {
    if chain == [] then (Some(e), [])
    else if chain[0] in w.g && w.g[chain[0]].onError then (None, [(chain[0], e)])
    else Settle(w, chain[1..], e)
  }

  ghost predicate AllLeaves<R, P>(leaves: seq<FlatLeaf<R, P>>) {
    forall i | 0 <= i < |leaves| :: leaves[i].leaf.Leaf?
  }

  /** The leaves tried one after another: the first that matches and does not skip decides. */
  ghost function Scan<R, P>(w: World<R, P>, leaves: seq<FlatLeaf<R, P>>, ctx: Ctx<P>): Result<R, P>
    requires AllLeaves(leaves)
    decreases |leaves|
  {
    if leaves == [] then Result(false, None, ctx, [])
    else if !leaves[0].leaf.condition(ctx) then Scan(w, leaves[1..], ctx)
    else
      var (ctx', outcome) := RunLeaf(leaves[0], ctx);
      match outcome
      case Skip => Scan(w, leaves[1..], ctx')
      case Ok => Result(true, None, ctx', [])
      case Err(e) =>
        var (err, calls) := Settle(w, leaves[0].chain, e);
        Result(true, err, ctx', calls)
  }

  /** handleOrBubble on a result. */
  ghost function Bubble<R, P>(w: World<R, P>, r: R, result: Result<R, P>): Result<R, P> {
    if result.err.Some? && r in w.g && w.g[r].onError
    then result.(err := None, calls := result.calls + [(r, result.err.value)])
    else result
  }

  // --------------------------------------------------------------------------
  // Scans compose as the tree does

  lemma {:induction false} LeavesAreLeaves<R, P>(w: World<R, P>, r: R, i: nat)
    requires w.Ranked() && r in w.g && i <= |w.g[r].routes|
    ensures AllLeaves(LeavesFrom(w, r, i))
    decreases w.rank[r], |w.g[r].routes| - i
  {
    if i < |w.g[r].routes| {
      LeavesAreLeaves(w, r, i + 1);
      if w.g[r].routes[i].Sub? {
        LeavesAreLeaves(w, w.g[r].routes[i].sub, 0);
      }
    }
  }

  lemma {:induction false} ScanAppend<R, P>(
    w: World<R, P>, a: seq<FlatLeaf<R, P>>, b: seq<FlatLeaf<R, P>>, ctx: Ctx<P>)
    requires AllLeaves(a) && AllLeaves(b)
    ensures AllLeaves(a + b)
    ensures Scan(w, a, ctx).matched ==> Scan(w, a + b, ctx) == Scan(w, a, ctx)
    ensures !Scan(w, a, ctx).matched ==> Scan(w, a + b, ctx) == Scan(w, b, Scan(w, a, ctx).ctx)
    decreases |a|
  {
    if a == [] {
      assert a + b == b;
    } else {
      assert (a + b)[1..] == a[1..] + b;
      ScanAppend(w, a[1..], b, ctx);
      ScanAppend(w, a[1..], b, RunLeaf(a[0], ctx).0);
    }
  }

  lemma {:induction false} SettleAround<R, P>(w: World<R, P>, chain: seq<R>, r: R, e: Error)
    ensures var (err, calls) := Settle(w, chain, e);
            Settle(w, chain + [r], e)
            == if err.Some? && r in w.g && w.g[r].onError then (None, [(r, e)]) else (err, calls)
    ensures Settle(w, chain, e).0.Some? ==> Settle(w, chain, e) == (Some(e), [])
    decreases |chain|
  {
    if chain == [] {
      assert chain + [r] == [r] && [r][1..] == [];
    } else {
      assert (chain + [r])[1..] == chain[1..] + [r];
      SettleAround(w, chain[1..], r, e);
    }
  }

  /** Another router around the leaves is one more handleOrBubble on the result. */
  lemma {:induction false} ScanAround<R, P>(w: World<R, P>, leaves: seq<FlatLeaf<R, P>>, r: R, ctx: Ctx<P>)
    requires AllLeaves(leaves)
    ensures AllLeaves(Around(leaves, r))
    ensures Scan(w, Around(leaves, r), ctx) == Bubble(w, r, Scan(w, leaves, ctx))
    decreases |leaves|
  {
    if leaves != [] {
      var around := Around(leaves, r);
      assert around[1..] == Around(leaves[1..], r);
      var (ctx', outcome) := RunLeaf(leaves[0], ctx);
      assert RunLeaf(around[0], ctx) == (ctx', outcome);
      ScanAround(w, leaves[1..], r, ctx);
      ScanAround(w, leaves[1..], r, ctx');
      if outcome.Err? {
        SettleAround(w, leaves[0].chain, r, outcome.error);
      }
    }
  }

  // --------------------------------------------------------------------------
  // What the scan decides

  /** fs is what calling the handler h through the middleware ms is made of: each of ms gets what is behind it as next. */
  ghost predicate IsStack<P>(fs: seq<Handler<P>>, ms: seq<Middleware<P>>, h: Handler<P>) {
    |fs| == |ms| + 1 && fs[|ms|] == h && forall i | 0 <= i < |ms| :: fs[i] == ms[i](fs[i + 1])
  }

  lemma {:induction false} WrapIsStack<P>(ms: seq<Middleware<P>>, h: Handler<P>) returns (fs: seq<Handler<P>>)
    ensures IsStack(fs, ms, h) && fs[0] == Wrap(ms, h)
  {
    if ms == [] {
      return [h];
    }
    var rest := WrapIsStack(ms[1..], h);
    fs := [ms[0](rest[0])] + rest;
  }

  lemma {:induction false} StackIsUnique<P>(fs: seq<Handler<P>>, ms: seq<Middleware<P>>, h: Handler<P>)
    requires IsStack(fs, ms, h)
    ensures fs[0] == Wrap(ms, h)
  {
    if ms != [] {
      StackIsUnique(fs[1..], ms[1..], h);
    }
  }

  /** For each leaf its handler's stack. */
  ghost predicate AreStacks<R, P>(stacks: seq<seq<Handler<P>>>, leaves: seq<FlatLeaf<R, P>>)
    requires AllLeaves(leaves)
  {
    |stacks| == |leaves|
    && forall i | 0 <= i < |leaves| :: IsStack(stacks[i], leaves[i].middlewares, leaves[i].leaf.handler)
  }

  /** The outermost handler of leaf k, called with the leaf's flags set. */
  ghost function Call<R, P>(stacks: seq<seq<Handler<P>>>, leaves: seq<FlatLeaf<R, P>>, ctx: Ctx<P>, k: nat)
    : (Ctx<P>, Outcome)
    requires AllLeaves(leaves) && AreStacks(stacks, leaves) && k < |leaves|
  {
    stacks[k][0](Ctx(ctx.payload, leaves[k].leaf.flags))
  }

  /** The context that leaf k sees when every leaf before it has declined. */
  ghost function ContextAt<R, P>(stacks: seq<seq<Handler<P>>>, leaves: seq<FlatLeaf<R, P>>, ctx: Ctx<P>, k: nat): Ctx<P>
    requires AllLeaves(leaves) && AreStacks(stacks, leaves) && k <= |leaves|
  {
    if k == 0 then ctx
    else
      var before := ContextAt(stacks, leaves, ctx, k - 1);
      if leaves[k - 1].leaf.condition(before) then Call(stacks, leaves, before, k - 1).0 else before
  }

  /** Leaf k does not match, or skips. */
  ghost predicate Declines<R, P>(stacks: seq<seq<Handler<P>>>, leaves: seq<FlatLeaf<R, P>>, ctx: Ctx<P>, k: nat)
    requires AllLeaves(leaves) && AreStacks(stacks, leaves) && k < |leaves|
  {
    var here := ContextAt(stacks, leaves, ctx, k);
    leaves[k].leaf.condition(here) ==> Call(stacks, leaves, here, k).1.Skip?
  }

  /** Leaf k is the first that matches and does not skip. */
  ghost predicate Decides<R, P>(stacks: seq<seq<Handler<P>>>, leaves: seq<FlatLeaf<R, P>>, ctx: Ctx<P>, k: nat)
    requires AllLeaves(leaves) && AreStacks(stacks, leaves)
  {
    && k < |leaves| && !Declines(stacks, leaves, ctx, k)
    && forall j | 0 <= j < k :: Declines(stacks, leaves, ctx, j)
  }

  /**
   The scan's result, said without the scan. Either every leaf declines and nothing matched; or the deciding leaf k
   settles it: no error and no OnError call if its handler, inside its router's middleware, returned nil, and otherwise
   exactly one OnError call, by the nearest router around k that has one, or the error itself if none has.
   */
  ghost predicate Explains<R, P>(
    w: World<R, P>, stacks: seq<seq<Handler<P>>>, leaves: seq<FlatLeaf<R, P>>, ctx: Ctx<P>, result: Result<R, P>, k: nat)
    requires AllLeaves(leaves) && AreStacks(stacks, leaves)
  {
    if !result.matched then
      && k == |leaves| && (forall j | 0 <= j < k :: Declines(stacks, leaves, ctx, j))
      && result == Result(false, None, ContextAt(stacks, leaves, ctx, k), [])
    else
      && Decides(stacks, leaves, ctx, k)
      && var (after, outcome) := Call(stacks, leaves, ContextAt(stacks, leaves, ctx, k), k);
         result.ctx == after && Handled(w, leaves[k].chain, outcome, result)
  }

  ghost predicate Handled<R, P>(w: World<R, P>, chain: seq<R>, outcome: Outcome, result: Result<R, P>) {
    match outcome
    case Skip => false
    case Ok => result.err == None && result.calls == []
    case Err(e) =>
      if exists i :: 0 <= i < |chain| && chain[i] in w.g && w.g[chain[i]].onError then
        result.err == None
        && exists i :: 0 <= i < |chain| && chain[i] in w.g && w.g[chain[i]].onError && result.calls == [(chain[i], e)]
             && forall j | 0 <= j < i :: chain[j] in w.g ==> !w.g[chain[j]].onError
      else result.err == Some(e) && result.calls == []
  }

  lemma {:induction false} SettleIsNearest<R, P>(w: World<R, P>, chain: seq<R>, e: Error, result: Result<R, P>)
    requires (result.err, result.calls) == Settle(w, chain, e)
    ensures Handled(w, chain, Err(e), result)
    decreases |chain|
  {
    if chain != [] && !(chain[0] in w.g && w.g[chain[0]].onError) {
      SettleIsNearest(w, chain[1..], e, result);
      if i :| 0 <= i < |chain| && chain[i] in w.g && w.g[chain[i]].onError {
        assert chain[1..][i - 1] == chain[i];
        var k :| 0 <= k < |chain[1..]| && chain[1..][k] in w.g && w.g[chain[1..][k]].onError
                 && result.calls == [(chain[1..][k], e)]
                 && forall j | 0 <= j < k :: chain[1..][j] in w.g ==> !w.g[chain[1..][j]].onError;
        forall j | 0 <= j < k + 1 ensures chain[j] in w.g ==> !w.g[chain[j]].onError {
          if j > 0 {
            assert chain[1..][j - 1] == chain[j];
          }
        }
        assert result.calls == [(chain[k + 1], e)];
      }
    }
  }

  lemma CallRunsLeaf<R, P>(stacks: seq<seq<Handler<P>>>, leaves: seq<FlatLeaf<R, P>>, ctx: Ctx<P>, k: nat)
    requires AllLeaves(leaves) && AreStacks(stacks, leaves) && k < |leaves|
    ensures Call(stacks, leaves, ctx, k) == RunLeaf(leaves[k], ctx)
  {
    StackIsUnique(stacks[k], leaves[k].middlewares, leaves[k].leaf.handler);
  }

  lemma {:induction false} ScanFrom<R, P>(
    w: World<R, P>, stacks: seq<seq<Handler<P>>>, leaves: seq<FlatLeaf<R, P>>, ctx: Ctx<P>, from: nat) returns (k: nat)
    requires AllLeaves(leaves) && AreStacks(stacks, leaves) && from <= |leaves| && AllLeaves(leaves[from..])
    requires forall j | 0 <= j < from :: Declines(stacks, leaves, ctx, j)
    ensures Explains(w, stacks, leaves, ctx, Scan(w, leaves[from..], ContextAt(stacks, leaves, ctx, from)), k)
    decreases |leaves| - from
  {
    hide AreStacks, Call, RunLeaf;
    var here := ContextAt(stacks, leaves, ctx, from);
    k := from;
    if from < |leaves| {
      CallRunsLeaf(stacks, leaves, here, from);
      assert leaves[from..][0] == leaves[from] && leaves[from..][1..] == leaves[from + 1..];
      if Declines(stacks, leaves, ctx, from) {
        k := ScanFrom(w, stacks, leaves, ctx, from + 1);
      } else {
        var (after, outcome) := RunLeaf(leaves[from], here);
        if outcome.Err? {
          SettleIsNearest(w, leaves[from].chain, outcome.error, Scan(w, leaves[from..], here));
        }
      }
    }
  }

  lemma {:induction false} StacksExist<R, P>(leaves: seq<FlatLeaf<R, P>>) returns (stacks: seq<seq<Handler<P>>>)
    requires AllLeaves(leaves)
    ensures AreStacks(stacks, leaves)
  {
    if leaves == [] {
      return [];
    }
    var rest := StacksExist(leaves[1..]);
    var first := WrapIsStack(leaves[0].middlewares, leaves[0].leaf.handler);
    stacks := [first] + rest;
  }

  lemma ScanExplained<R, P>(w: World<R, P>, leaves: seq<FlatLeaf<R, P>>, ctx: Ctx<P>)
    returns (stacks: seq<seq<Handler<P>>>, k: nat)
    requires AllLeaves(leaves)
    ensures AreStacks(stacks, leaves) && Explains(w, stacks, leaves, ctx, Scan(w, leaves, ctx), k)
  {
    stacks := StacksExist(leaves);
    assert leaves[0..] == leaves;
    k := ScanFrom(w, stacks, leaves, ctx, 0);
  }

  // --------------------------------------------------------------------------
  // Looking ahead

  /** The first leaf whose condition holds now. */
  ghost function FirstMatch<R, P>(leaves: seq<FlatLeaf<R, P>>, ctx: Ctx<P>): (m: Option<Route<R, P>>)
    requires AllLeaves(leaves)
    decreases |leaves|
  {
    if leaves == [] then None
    else if leaves[0].leaf.condition(ctx) then Some(leaves[0].leaf)
    else FirstMatch(leaves[1..], ctx)
  }

  lemma {:induction false} FirstMatchAppend<R, P>(a: seq<FlatLeaf<R, P>>, b: seq<FlatLeaf<R, P>>, ctx: Ctx<P>)
    requires AllLeaves(a) && AllLeaves(b)
    ensures AllLeaves(a + b)
    ensures FirstMatch(a + b, ctx) == if FirstMatch(a, ctx).Some? then FirstMatch(a, ctx) else FirstMatch(b, ctx)
    decreases |a|
  {
    if a == [] {
      assert a + b == b;
    } else {
      assert (a + b)[1..] == a[1..] + b;
      FirstMatchAppend(a[1..], b, ctx);
    }
  }

  lemma {:induction false} FirstMatchAround<R, P>(leaves: seq<FlatLeaf<R, P>>, r: R, ctx: Ctx<P>)
    requires AllLeaves(leaves)
    ensures AllLeaves(Around(leaves, r))
    ensures FirstMatch(Around(leaves, r), ctx) == FirstMatch(leaves, ctx)
    decreases |leaves|
  {
    if leaves != [] {
      assert Around(leaves, r)[1..] == Around(leaves[1..], r);
      FirstMatchAround(leaves[1..], r, ctx);
    }
  }

  /** The lookahead names the deciding leaf unless the named leaf's handler skips, and none exactly if none matches. */
  lemma {:induction false} FirstMatchDecides<R, P>(
    w: World<R, P>, stacks: seq<seq<Handler<P>>>, leaves: seq<FlatLeaf<R, P>>, ctx: Ctx<P>) returns (k: nat)
    requires AllLeaves(leaves) && AreStacks(stacks, leaves)
    ensures FirstMatch(leaves, ctx).None? ==> Scan(w, leaves, ctx) == Result(false, None, ctx, [])
    ensures FirstMatch(leaves, ctx).Some? ==>
      && k < |leaves| && leaves[k].leaf == FirstMatch(leaves, ctx).value && leaves[k].leaf.condition(ctx)
      && (!Call(stacks, leaves, ctx, k).1.Skip? ==> Decides(stacks, leaves, ctx, k) && Scan(w, leaves, ctx).matched)
    decreases |leaves|
  {
    if leaves == [] {
      return 0;
    }
    if leaves[0].leaf.condition(ctx) {
      assert ContextAt(stacks, leaves, ctx, 0) == ctx;
      CallRunsLeaf(stacks, leaves, ctx, 0);
      return 0;
    }
    var rest := leaves[1..];
    k := FirstMatchDecides(w, stacks[1..], rest, ctx);
    if FirstMatch(rest, ctx).Some? {
      assert Call(stacks, leaves, ctx, k + 1) == Call(stacks[1..], rest, ctx, k);
      if !Call(stacks[1..], rest, ctx, k).1.Skip? {
        DecidesShift(stacks, leaves, ctx, k);
      }
      k := k + 1;
    }
  }

  lemma {:induction false} ContextShift<R, P>(stacks: seq<seq<Handler<P>>>, leaves: seq<FlatLeaf<R, P>>, ctx: Ctx<P>, k: nat)
    requires AllLeaves(leaves) && AreStacks(stacks, leaves)
    requires leaves != [] && !leaves[0].leaf.condition(ctx) && k < |leaves|
    ensures AllLeaves(leaves[1..]) && AreStacks(stacks[1..], leaves[1..])
    ensures ContextAt(stacks, leaves, ctx, k + 1) == ContextAt(stacks[1..], leaves[1..], ctx, k)
  {
    if k > 0 {
      ContextShift(stacks, leaves, ctx, k - 1);
    }
  }

  lemma DecidesShift<R, P>(stacks: seq<seq<Handler<P>>>, leaves: seq<FlatLeaf<R, P>>, ctx: Ctx<P>, k: nat)
    requires AllLeaves(leaves) && AreStacks(stacks, leaves)
    requires leaves != [] && !leaves[0].leaf.condition(ctx) && k + 1 < |leaves|
    requires AllLeaves(leaves[1..]) && AreStacks(stacks[1..], leaves[1..]) && Decides(stacks[1..], leaves[1..], ctx, k)
    ensures Decides(stacks, leaves, ctx, k + 1)
  {
    ContextShift(stacks, leaves, ctx, k);
    forall j | 0 <= j < k + 1 ensures Declines(stacks, leaves, ctx, j) {
      if j > 0 {
        ContextShift(stacks, leaves, ctx, j - 1);
        assert Declines(stacks[1..], leaves[1..], ctx, j - 1);
      }
    }
  }

  /** Dispatching ctx at r, as a scan. */
  ghost function DispatchResult<R, P>(w: World<R, P>, r: R, ctx: Ctx<P>): Result<R, P>
    requires w.Ranked() && r in w.g
  {
    LeavesAreLeaves(w, r, 0);
    Scan(w, Leaves(w, r), ctx)
  }

  ghost function Lookahead<R, P>(w: World<R, P>, r: R, ctx: Ctx<P>): Option<Route<R, P>>
    requires w.Ranked() && r in w.g
  {
    LeavesAreLeaves(w, r, 0);
    FirstMatch(Leaves(w, r), ctx)
  }

  /** The scan of r's routes from the i-th on. */
  ghost function ScanRoutes<R, P>(w: World<R, P>, r: R, i: nat, ctx: Ctx<P>): Result<R, P>
    requires w.Ranked() && r in w.g && i <= |w.g[r].routes|
  {
    LeavesAreLeaves(w, r, i);
    Scan(w, LeavesFrom(w, r, i), ctx)
  }

  ghost function MatchRoutes<R, P>(w: World<R, P>, r: R, i: nat, ctx: Ctx<P>): Option<Route<R, P>>
    requires w.Ranked() && r in w.g && i <= |w.g[r].routes|
  {
    LeavesAreLeaves(w, r, i);
    FirstMatch(LeavesFrom(w, r, i), ctx)
  }

  lemma LeafRoute<R, P>(w: World<R, P>, r: R, i: nat, ctx: Ctx<P>)
    requires w.Ranked() && r in w.g && i < |w.g[r].routes| && w.g[r].routes[i].Leaf?
    ensures var rt := w.g[r].routes[i];
            var (ctx', outcome) := Wrap(w.g[r].middlewares, rt.handler)(ctx.(routeFlags := rt.flags));
            ScanRoutes(w, r, i, ctx)
            == if !rt.condition(ctx) then ScanRoutes(w, r, i + 1, ctx)
               else match outcome
                 case Skip => ScanRoutes(w, r, i + 1, ctx')
                 case Ok => Result(true, None, ctx', [])
                 case Err(e) => Bubble(w, r, Result(true, Some(e), ctx', []))
    ensures MatchRoutes(w, r, i, ctx)
            == if w.g[r].routes[i].condition(ctx) then Some(w.g[r].routes[i]) else MatchRoutes(w, r, i + 1, ctx)
  {
    LeavesAreLeaves(w, r, i);
    LeavesAreLeaves(w, r, i + 1);
    var leaves := LeavesFrom(w, r, i);
    assert leaves[0] == FlatLeaf(w.g[r].routes[i], w.g[r].middlewares, [r]);
    assert leaves[1..] == LeavesFrom(w, r, i + 1);
    var rt := w.g[r].routes[i];
    assert RunLeaf(leaves[0], ctx) == Wrap(w.g[r].middlewares, rt.handler)(ctx.(routeFlags := rt.flags));
    hide LeavesFrom, Wrap, RunLeaf;
    forall e: Error {
      SettleAtOne(w, r, e);
    }
  }

  lemma SettleAtOne<R, P>(w: World<R, P>, r: R, e: Error)
    ensures Settle(w, [r], e) == if r in w.g && w.g[r].onError then (None, [(r, e)]) else (Some(e), [])
  {
    assert [r][1..] == [];
  }

  lemma SubRoute<R, P>(w: World<R, P>, r: R, i: nat, ctx: Ctx<P>)
    requires w.Ranked() && r in w.g && i < |w.g[r].routes| && w.g[r].routes[i].Sub?
    ensures w.g[r].routes[i].sub in w.g
    ensures var below := DispatchResult(w, w.g[r].routes[i].sub, ctx);
            ScanRoutes(w, r, i, ctx)
            == if below.matched then Bubble(w, r, below) else ScanRoutes(w, r, i + 1, below.ctx)
    ensures var below := Lookahead(w, w.g[r].routes[i].sub, ctx);
            MatchRoutes(w, r, i, ctx) == if below.Some? then below else MatchRoutes(w, r, i + 1, ctx)
  {
    var sub := w.g[r].routes[i].sub;
    LeavesAreLeaves(w, sub, 0);
    LeavesAreLeaves(w, r, i);
    LeavesAreLeaves(w, r, i + 1);
    var inner := Leaves(w, sub);
    ScanAround(w, inner, r, ctx);
    ScanAppend(w, Around(inner, r), LeavesFrom(w, r, i + 1), ctx);
    FirstMatchAround(inner, r, ctx);
    FirstMatchAppend(Around(inner, r), LeavesFrom(w, r, i + 1), ctx);
    UnmatchedHasNoError(w, inner, ctx);
  }

  lemma {:induction false} UnmatchedHasNoError<R, P>(w: World<R, P>, leaves: seq<FlatLeaf<R, P>>, ctx: Ctx<P>)
    requires AllLeaves(leaves)
    ensures !Scan(w, leaves, ctx).matched ==> Scan(w, leaves, ctx).err == None && Scan(w, leaves, ctx).calls == []
    decreases |leaves|
  {
    if leaves != [] {
      UnmatchedHasNoError(w, leaves[1..], ctx);
      UnmatchedHasNoError(w, leaves[1..], RunLeaf(leaves[0], ctx).0);
    }
  }

  /** Whatever a router with an OnError of its own reports, no error is left over. */
  lemma {:induction false} NothingLeftOver<R, P>(w: World<R, P>, r: R, i: nat, ctx: Ctx<P>)
    requires w.Ranked() && r in w.g && w.g[r].onError && i <= |w.g[r].routes|
    ensures ScanRoutes(w, r, i, ctx).err == None
    decreases |w.g[r].routes| - i
  {
    if i == |w.g[r].routes| {
    } else if w.g[r].routes[i].Leaf? {
      var rt := w.g[r].routes[i];
      LeafRoute(w, r, i, ctx);
      NothingLeftOver(w, r, i + 1, ctx);
      NothingLeftOver(w, r, i + 1, Wrap(w.g[r].middlewares, rt.handler)(ctx.(routeFlags := rt.flags)).0);
    } else {
      SubRoute(w, r, i, ctx);
      NothingLeftOver(w, r, i + 1, DispatchResult(w, w.g[r].routes[i].sub, ctx).ctx);
    }
  }
}
