/**
 The router tree (router.go) as a graph of router values: registration, Include, freezing, and what every sequence
 of them keeps. Routers are identified by values of R; P is whatever else an update's context carries.
 */
module RouterGraph {
  import opened Options

  type Flags = map<string, string>
  type Error = nat

  datatype Ctx<P> = Ctx(payload: P, routeFlags: Flags)

  /** What a handler returns: nil, ErrSkipHandler (possibly wrapped), or any other error. */
  datatype Outcome = Ok | Skip | Err(error: Error)

  /** A handler may change the context, and so what later conditions see. */
  type Handler<!P> = Ctx<P> -> (Ctx<P>, Outcome)
  type Middleware<!P> = Handler<P> -> Handler<P>

  datatype Route<!R, !P> =
    | Leaf(kind: string, condition: Ctx<P> -> bool, handler: Handler<P>, flags: Flags, allowWebhookReply: bool)
    | Sub(sub: R)

  datatype RouterVal<!R, !P> =
    RouterVal(middlewares: seq<Middleware<P>>, routes: seq<Route<R, P>>, onError: bool, frozen: bool)

  /** All routers made so far, with a rank that certifies the include graph: every include goes down in rank. */
  datatype World<!R(==), !P> = World(g: map<R, RouterVal<R, P>>, rank: map<R, nat>) {

    ghost predicate Includes(r: R, sub: R) {
      r in g && exists i :: 0 <= i < |g[r].routes| && g[r].routes[i] == Sub(sub)
    }

    ghost predicate Ranked() {
      && rank.Keys == g.Keys
      && forall r | r in g :: forall i | 0 <= i < |g[r].routes| && g[r].routes[i].Sub? ::
           g[r].routes[i].sub in g && rank[g[r].routes[i].sub] < rank[r]
    }

    /** What a frozen router includes is frozen. */
    ghost predicate FrozenClosed() {
      forall r | r in g && g[r].frozen :: forall i | 0 <= i < |g[r].routes| && g[r].routes[i].Sub? ::
        g[r].routes[i].sub in g && g[g[r].routes[i].sub].frozen
    }

    ghost predicate Valid() {
      Ranked() && FrozenClosed()
    }

    /** Whether target is r, or included by r directly or through others. */
    ghost predicate Reaches(r: R, target: R)
      requires Ranked() && r in g
      decreases rank[r]
    {
      r == target
      || exists i :: 0 <= i < |g[r].routes| && g[r].routes[i].Sub? && Reaches(g[r].routes[i].sub, target)
    }

    /** Consecutive routers on p include each other. */
    ghost predicate IsPath(p: seq<R>) {
      && p != [] && (forall i | 0 <= i < |p| :: p[i] in g)
      && forall i | 0 <= i < |p| - 1 :: Includes(p[i], p[i + 1])
    }
  }

  // --------------------------------------------------------------------------
  // Reachability

  lemma TailIsPath<R, P>(w: World<R, P>, p: seq<R>)
    requires w.IsPath(p) && |p| > 1
    ensures w.IsPath(p[1..])
  {
    forall i | 0 <= i < |p| - 2 ensures w.Includes(p[1..][i], p[1..][i + 1]) {
      assert w.Includes(p[i + 1], p[i + 1 + 1]);
    }
  }

  /** Reaches is reachability along includes: every path proves it ... */
  lemma {:induction false} PathReaches<R, P>(w: World<R, P>, p: seq<R>)
    requires w.Ranked() && w.IsPath(p)
    ensures w.Reaches(p[0], p[|p| - 1])
    decreases |p|
  {
    if |p| > 1 {
      assert w.Includes(p[0], p[0 + 1]);
      TailIsPath(w, p);
      PathReaches(w, p[1..]);
    }
  }

  /** ... and where it holds there is a path. */
  lemma {:induction false} ReachesByPath<R, P>(w: World<R, P>, r: R, target: R) returns (p: seq<R>)
    requires w.Ranked() && r in w.g && w.Reaches(r, target)
    ensures w.IsPath(p) && p[0] == r && p[|p| - 1] == target
    decreases w.rank[r]
  {
    if r == target {
      return [r];
    }
    var i :| 0 <= i < |w.g[r].routes| && w.g[r].routes[i].Sub? && w.Reaches(w.g[r].routes[i].sub, target);
    var q := ReachesByPath(w, w.g[r].routes[i].sub, target);
    p := [r] + q;
    assert w.Includes(r, q[0]);
    forall k | 0 <= k < |p| - 1 ensures w.Includes(p[k], p[k + 1]) {
      if k > 0 {
        assert w.Includes(q[k - 1], q[k - 1 + 1]);
      }
    }
  }

  lemma {:induction false} ReachesGoesDown<R, P>(w: World<R, P>, r: R, target: R)
    requires w.Ranked() && r in w.g && w.Reaches(r, target)
    ensures target in w.g && w.rank[target] <= w.rank[r] && (r != target ==> w.rank[target] < w.rank[r])
    decreases w.rank[r]
  {
    if r != target {
      var i :| 0 <= i < |w.g[r].routes| && w.g[r].routes[i].Sub? && w.Reaches(w.g[r].routes[i].sub, target);
      ReachesGoesDown(w, w.g[r].routes[i].sub, target);
    }
  }

  /** A ranked graph has no cycle: no path of includes comes back to where it started. */
  lemma NoCycle<R, P>(w: World<R, P>, p: seq<R>)
    requires w.Ranked() && w.IsPath(p) && |p| > 1
    ensures p[0] != p[|p| - 1]
  {
    var q := p[1..];
    assert w.Includes(p[0], p[0 + 1]);
    TailIsPath(w, p);
    PathReaches(w, q);
    ReachesGoesDown(w, q[0], q[|q| - 1]);
  }

  lemma {:induction false} ReachesStep<R, P>(w: World<R, P>, r: R, mid: R, i: nat)
    requires w.Ranked() && r in w.g && mid in w.g && w.Reaches(r, mid)
    requires i < |w.g[mid].routes| && w.g[mid].routes[i].Sub?
    ensures w.Reaches(r, w.g[mid].routes[i].sub)
    decreases w.rank[r]
  {
    var target := w.g[mid].routes[i].sub;
    assert w.Reaches(target, target);
    if r != mid {
      var k :| 0 <= k < |w.g[r].routes| && w.g[r].routes[k].Sub? && w.Reaches(w.g[r].routes[k].sub, mid);
      ReachesStep(w, w.g[r].routes[k].sub, mid, i);
    }
  }

  lemma {:induction false} FrozenBelow<R, P>(w: World<R, P>, r: R, x: R)
    requires w.Valid() && r in w.g && w.g[r].frozen && w.Reaches(r, x)
    ensures x in w.g && w.g[x].frozen
    decreases w.rank[r]
  {
    if r != x {
      var i :| 0 <= i < |w.g[r].routes| && w.g[r].routes[i].Sub? && w.Reaches(w.g[r].routes[i].sub, x);
      FrozenBelow(w, w.g[r].routes[i].sub, x);
    }
  }

  // --------------------------------------------------------------------------
  // The operations; a panic leaves the world as it is

  datatype Op<!R, !P> =
    | New(r: R)
    | Use(r: R, mw: Middleware<P>)
    | OnError(r: R, present: bool)
    | Handle(r: R, leaf: Route<R, P>)
    | Include(r: R, sub: R)
    | Freeze(r: R)

  /** The operation is on routers that exist, or makes a new one. */
  ghost predicate Applies<R, P>(w: World<R, P>, op: Op<R, P>) {
    && (if op.New? then op.r !in w.g else op.r in w.g)
    && (op.Handle? ==> op.leaf.Leaf?)
    && (op.Include? ==> op.sub in w.g)
  }

  ghost predicate Panics<R, P>(w: World<R, P>, op: Op<R, P>)
    requires w.Ranked() && Applies(w, op)
  {
    match op
    case New(_) => false
    case Freeze(_) => false
    case Include(r, sub) => w.g[r].frozen || w.Reaches(sub, r)
    case _ => w.g[op.r].frozen
  }

  /** Everything that reaches r moves above sub. */
  ghost function RankAfterInclude<R, P>(w: World<R, P>, r: R, sub: R): map<R, nat>
    requires w.Ranked() && r in w.g && sub in w.g
  {
    map x | x in w.g :: if w.Reaches(x, r) then w.rank[x] + w.rank[sub] + 1 else w.rank[x]
  }

  ghost function Apply<R, P>(w: World<R, P>, op: Op<R, P>): World<R, P>
    requires w.Ranked() && Applies(w, op)
  {
    if Panics(w, op) then w
    else match op
      case New(r) => World(w.g[r := RouterVal([], [], false, false)], w.rank[r := 0])
      case Use(r, mw) => w.(g := w.g[r := w.g[r].(middlewares := w.g[r].middlewares + [mw])])
      case OnError(r, present) => w.(g := w.g[r := w.g[r].(onError := present)])
      case Handle(r, leaf) => w.(g := w.g[r := w.g[r].(routes := w.g[r].routes + [leaf])])
      case Include(r, sub) =>
        World(w.g[r := w.g[r].(routes := w.g[r].routes + [Sub(sub)])], RankAfterInclude(w, r, sub))
      case Freeze(r) =>
        w.(g := map x | x in w.g :: if w.Reaches(r, x) then w.g[x].(frozen := true) else w.g[x])
  }

  /** A new router has nothing registered and is not frozen; making one changes no other and never panics. */
  lemma NewRouterIsEmpty<R, P>(w: World<R, P>, r: R)
    requires w.Ranked() && r !in w.g
    ensures !Panics(w, Op.New(r)) && Apply(w, Op.New(r)).g == w.g[r := RouterVal([], [], false, false)]
  {
  }

  /** An include that does not panic leaves the graph without cycles. */
  lemma IncludeKeepsRanked<R, P>(w: World<R, P>, r: R, sub: R)
    requires w.Ranked() && r in w.g && sub in w.g && !w.Reaches(sub, r)
    ensures World(w.g[r := w.g[r].(routes := w.g[r].routes + [Sub(sub)])], RankAfterInclude(w, r, sub)).Ranked()
  {
    var rank' := RankAfterInclude(w, r, sub);
    var w' := World(w.g[r := w.g[r].(routes := w.g[r].routes + [Sub(sub)])], rank');
    assert w.Reaches(r, r);
    forall x, i | x in w'.g && 0 <= i < |w'.g[x].routes| && w'.g[x].routes[i].Sub?
      ensures w'.g[x].routes[i].sub in w'.g && rank'[w'.g[x].routes[i].sub] < rank'[x]
    {
      if i < |w.g[x].routes| {
        var y := w.g[x].routes[i].sub;
        assert y in w.g;
        if w.Reaches(y, r) {
          assert w.Reaches(x, r);
        }
      }
    }
  }

  /** An include that panics on its cycle check would have closed a cycle. */
  lemma RefusedIncludeIsACycle<R, P>(w: World<R, P>, r: R, sub: R) returns (cycle: seq<R>)
    requires w.Ranked() && r in w.g && sub in w.g && w.Reaches(sub, r)
    ensures |cycle| > 1 && cycle[0] == r && cycle[|cycle| - 1] == r
    ensures World(w.g[r := w.g[r].(routes := w.g[r].routes + [Sub(sub)])], w.rank).IsPath(cycle)
  {
    var p := ReachesByPath(w, sub, r);
    cycle := [r] + p;
    var w' := World(w.g[r := w.g[r].(routes := w.g[r].routes + [Sub(sub)])], w.rank);
    assert w'.g[r].routes[|w.g[r].routes|] == Sub(sub);
    assert w'.Includes(r, sub);
    forall k | 0 <= k < |cycle| - 1 ensures w'.Includes(cycle[k], cycle[k + 1]) {
      if k > 0 {
        assert w.Includes(p[k - 1], p[k - 1 + 1]);
        var i :| 0 <= i < |w.g[p[k - 1]].routes| && w.g[p[k - 1]].routes[i] == Sub(p[k]);
        assert w'.g[p[k - 1]].routes[i] == Sub(p[k]);
      }
    }
  }

  // --------------------------------------------------------------------------
  // What every sequence of operations keeps

  lemma FreezeKeepsValid<R, P>(w: World<R, P>, r: R)
    requires w.Valid() && r in w.g
    ensures Apply(w, Freeze(r)).Valid()
  {
    var w' := Apply(w, Freeze(r));
    forall x, i | x in w'.g && w'.g[x].frozen && 0 <= i < |w'.g[x].routes| && w'.g[x].routes[i].Sub?
      ensures w'.g[x].routes[i].sub in w'.g && w'.g[w'.g[x].routes[i].sub].frozen
    {
      if w.Reaches(r, x) {
        ReachesStep(w, r, x, i);
      }
    }
  }

  lemma ApplyKeepsValid<R, P>(w: World<R, P>, op: Op<R, P>)
    requires w.Valid() && Applies(w, op)
    ensures Apply(w, op).Valid()
  {
    if !Panics(w, op) {
      match op
      case Freeze(r) => FreezeKeepsValid(w, r);
      case Include(r, sub) => IncludeKeepsRanked(w, r, sub);
      case _ =>
    }
  }

  /** A router below a frozen one is the same router value after any operation. */
  lemma FrozenIsUntouched<R, P>(w: World<R, P>, op: Op<R, P>, r: R, x: R)
    requires w.Valid() && Applies(w, op) && r in w.g && w.g[r].frozen && w.Reaches(r, x)
    ensures x in w.g && x in Apply(w, op).g && Apply(w, op).g[x] == w.g[x]
  {
    FrozenBelow(w, r, x);
  }

  /** So its subtree has the same routers. */
  lemma {:induction false} FrozenReachesTheSame<R, P>(w: World<R, P>, op: Op<R, P>, r: R, x: R)
    requires w.Valid() && Applies(w, op) && r in w.g && w.g[r].frozen && Apply(w, op).Valid()
    ensures r in Apply(w, op).g && (Apply(w, op).Reaches(r, x) <==> w.Reaches(r, x))
    decreases w.rank[r]
  {
    var w' := Apply(w, op);
    assert w.Reaches(r, r);
    FrozenIsUntouched(w, op, r, r);
    hide Apply;
    forall i | 0 <= i < |w.g[r].routes| && w.g[r].routes[i].Sub?
      ensures var s := w.g[r].routes[i].sub; s in w'.g && (w'.Reaches(s, x) <==> w.Reaches(s, x))
    {
      FrozenReachesTheSame(w, op, w.g[r].routes[i].sub, x);
    }
  }

  /** Every operation applies in its turn. */
  ghost predicate Runs<R, P>(w: World<R, P>, ops: seq<Op<R, P>>)
    requires w.Valid()
    decreases |ops|
  {
    ops == [] || (Applies(w, ops[0]) && (ApplyKeepsValid(w, ops[0]); Runs(Apply(w, ops[0]), ops[1..])))
  }

  ghost function Exec<R, P>(w: World<R, P>, ops: seq<Op<R, P>>): (w': World<R, P>)
    requires w.Valid() && Runs(w, ops)
    ensures w'.Valid()
    decreases |ops|
  {
    if ops == [] then w
    else
      ApplyKeepsValid(w, ops[0]);
      Exec(Apply(w, ops[0]), ops[1..])
  }

  /**
   After any sequence of operations from nothing, no path of includes closes a cycle, and every router that a frozen
   router reaches is frozen.
   */
  lemma EveryWorldIsAcyclic<R, P>(ops: seq<Op<R, P>>, p: seq<R>)
    requires Runs(World(map[], map[]), ops)
    ensures var w := Exec(World(map[], map[]), ops);
            && (w.IsPath(p) && |p| > 1 ==> p[0] != p[|p| - 1])
            && (w.IsPath(p) && w.g[p[0]].frozen ==> w.g[p[|p| - 1]].frozen)
  {
    var w := Exec(World(map[], map[]), ops);
    if w.IsPath(p) {
      PathReaches(w, p);
      if |p| > 1 {
        NoCycle(w, p);
      }
      if w.g[p[0]].frozen {
        FrozenBelow(w, p[0], p[|p| - 1]);
      }
    }
  }

  /** Once a router is frozen, its subtree has the same routers with the same contents ever after. */
  lemma {:induction false} FrozenForever<R, P>(w: World<R, P>, ops: seq<Op<R, P>>, r: R, x: R)
    requires w.Valid() && Runs(w, ops) && r in w.g && w.g[r].frozen
    ensures r in Exec(w, ops).g && (Exec(w, ops).Reaches(r, x) <==> w.Reaches(r, x))
    ensures w.Reaches(r, x) ==> x in w.g && x in Exec(w, ops).g && Exec(w, ops).g[x] == w.g[x]
    decreases |ops|
  {
    if ops == [] {
      if w.Reaches(r, x) {
        ReachesGoesDown(w, r, x);
      }
    } else {
      hide Apply;
      ApplyKeepsValid(w, ops[0]);
      assert w.Reaches(r, r);
      FrozenIsUntouched(w, ops[0], r, r);
      FrozenReachesTheSame(w, ops[0], r, x);
      if w.Reaches(r, x) {
        FrozenIsUntouched(w, ops[0], r, x);
      }
      FrozenForever(Apply(w, ops[0]), ops[1..], r, x);
    }
  }
}
