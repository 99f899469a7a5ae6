/** Routers: a forest that grows by `Include`, searched in preorder, with errors bubbling up.

    Filters and error handlers are pure tests. The shape of a program's routers is also given as a
    value, a `Tree`, which maps every router to its fields; the ghost field `subtree` names the
    routers at or below a router. What the methods do to the objects is stated on that value. */
module Routers {
  import opened Optional

  datatype Context = Context(updateType: string, body: string)

  type Filter = Context -> bool
  type ErrorHandler = (string, Context) -> bool
  type Middleware = nat
  type Handler = nat

  datatype Route = Route(types: Option<set<string>>, filters: seq<Filter>, handler: Handler)

  ghost predicate Matches(route: Route, ctx: Context) {
    && (route.types.Some? ==> ctx.updateType in route.types.value)
    && forall i :: 0 <= i < |route.filters| ==> route.filters[i](ctx)
  }

  datatype Outcome = Included | SelfInclude | AlreadyAttached | WouldCycle

  /** The fields of one router. */
  datatype Node = Node(routes: seq<Route>, children: seq<Router>, middlewares: seq<Middleware>,
                       errorHandlers: seq<ErrorHandler>, parent: Router?, includeFilter: Option<Filter>,
                       subtree: set<Router>)

  type Tree = map<Router, Node>

  // ------------------------------------------------------------ the forest

  ghost predicate ChildOk(t: Tree, r: Router, c: Router)
    requires r in t
  {
    c in t && t[c].parent == r && t[c].subtree <= t[r].subtree && r !in t[c].subtree
  }

  /** A router's own links: it is in its subtree, and parent and children know each other. */
  ghost predicate NodeOk(t: Tree, r: Router)
    requires r in t
  {
    && r in t[r].subtree && t[r].subtree <= t.Keys
    && (forall i :: 0 <= i < |t[r].children| ==> ChildOk(t, r, t[r].children[i]))
    && (forall i, j :: 0 <= i < j < |t[r].children| ==> t[r].children[i] != t[r].children[j])
    && (t[r].parent != null ==> t[r].parent in t && r in t[t[r].parent].children)
  }

  /** A subtree contains the subtrees of its routers, and the way up from them to its root. */
  ghost predicate Nested(t: Tree, r: Router, x: Router)
    requires r in t && x in t
  {
    x in t[r].subtree ==>
      && t[x].subtree <= t[r].subtree
      && (x != r ==> t[x].parent != null && t[x].parent in t[r].subtree)
  }

  ghost predicate Shape(t: Tree) {
    && (forall r {:trigger NodeOk(t, r)} :: r in t ==> NodeOk(t, r))
    && (forall r, x {:trigger Nested(t, r, x)} :: r in t && x in t ==> Nested(t, r, x))
  }

  /** The tree after `router` was hung below `me`, last; nothing else moves. */
  ghost function Join(t: Tree, me: Router, router: Router, filter: Option<Filter>): Tree
    requires me in t && router in t
  {
    map r | r in t ::
      t[r].(
        parent := if r == router then me else t[r].parent,
        includeFilter := if r == router && filter.Some? then filter else t[r].includeFilter,
        children := if r == me then t[r].children + [router] else t[r].children,
        subtree := if me in t[r].subtree then t[r].subtree + t[router].subtree else t[r].subtree)
  }

  ghost function Verdict(t: Tree, me: Router, router: Router): Outcome
    requires router in t
  {
    if router == me then SelfInclude
    else if t[router].parent != null then AlreadyAttached
    else if me in t[router].subtree then WouldCycle
    else Included
  }

  /** A router's own subtree is strictly inside that of its parent. */
  lemma InParent(t: Tree, r: Router)
    requires Shape(t) && r in t && t[r].parent != null
    ensures t[r].parent in t && t[r].subtree < t[t[r].parent].subtree
  {
    assert NodeOk(t, r);
    var p: Router := t[r].parent;
    assert NodeOk(t, p);
    var i :| 0 <= i < |t[p].children| && t[p].children[i] == r;
    assert ChildOk(t, p, t[p].children[i]);
  }

  /** The way up from a router below another one stays below it until it gets there. */
  lemma WayUp(t: Tree, root: Router, x: Router)
    requires Shape(t) && root in t && x in t && x in t[root].subtree && x != root
    ensures t[x].parent != null && t[x].parent in t && t[x].parent in t[root].subtree
    ensures t[x].subtree < t[t[x].parent].subtree <= t.Keys
  {
    assert Nested(t, root, x);
    InParent(t, x);
    var p: Router := t[x].parent;
    assert NodeOk(t, p);
  }

  /** One step up: strictly more is below the parent; without a parent nothing else is above. */
  lemma StepUp(t: Tree, root: Router, x: Router)
    requires Shape(t) && root in t && x in t && x != root
    ensures x in t[root].subtree ==> t[x].parent != null && t[x].parent in t[root].subtree
    ensures t[x].parent != null ==> t[x].parent in t && t[x].subtree < t[t[x].parent].subtree <= t.Keys
  {
    assert Nested(t, root, x);
    if t[x].parent != null {
      InParent(t, x);
      TopOk(t, t[x].parent);
    }
  }

  lemma ChildBelow(t: Tree, r: Router, i: nat)
    requires Shape(t) && r in t && i < |t[r].children|
    ensures t[r].children[i] in t && t[t[r].children[i]].subtree < t[r].subtree
    ensures t[r].children[i] in t[r].subtree && r !in t[t[r].children[i]].subtree
    ensures t[t[r].children[i]].parent == r
  {
    assert NodeOk(t, r);
    var c := t[r].children[i];
    assert ChildOk(t, r, c);
    assert NodeOk(t, c);
  }

  lemma JoinKeepsNode(t: Tree, me: Router, router: Router, filter: Option<Filter>, r: Router)
    requires Shape(t) && me in t && router in t && Verdict(t, me, router) == Included && r in t
    ensures NodeOk(Join(t, me, router, filter), r)
  {
    var u := Join(t, me, router, filter);
    var last := |t[me].children|;
    assert NodeOk(t, r) && NodeOk(t, router) && NodeOk(t, me);
    forall i | 0 <= i < |u[r].children| ensures ChildOk(u, r, u[r].children[i]) {
      if r == me && i == last {
        assert u[r].children[i] == router;
      } else {
        var c := t[r].children[i];
        assert u[r].children[i] == c && ChildOk(t, r, c);
        assert Nested(t, router, r);
      }
    }
    forall i, j | 0 <= i < j < |u[r].children| ensures u[r].children[i] != u[r].children[j] {
      if r == me && j == last {
        assert ChildOk(t, me, t[me].children[i]);
      }
    }
    assert u[me].children[last] == router;
  }

  lemma JoinKeepsNesting(t: Tree, me: Router, router: Router, filter: Option<Filter>, r: Router, x: Router)
    requires Shape(t) && me in t && router in t && Verdict(t, me, router) == Included && r in t && x in t
    ensures Nested(Join(t, me, router, filter), r, x)
  {
    assert NodeOk(t, r) && NodeOk(t, x);
    assert Nested(t, r, x) && Nested(t, r, me) && Nested(t, router, x) && Nested(t, x, me);
  }

  /** Including a parentless router that is not above the includer keeps the links a forest. */
  lemma IncludeKeepsForest(t: Tree, me: Router, router: Router, filter: Option<Filter>)
    requires Shape(t) && me in t && router in t && Verdict(t, me, router) == Included
    ensures Shape(Join(t, me, router, filter))
  {
    var u := Join(t, me, router, filter);
    forall r | r in u ensures NodeOk(u, r) {
      JoinKeepsNode(t, me, router, filter, r);
    }
    forall r, x | r in u && x in u ensures Nested(u, r, x) {
      JoinKeepsNesting(t, me, router, filter, r, x);
    }
  }

  /** An include is accepted exactly when the links it would make are a forest; a refusal names the first
      reason that they would not be. */
  lemma AcceptedExactly(t: Tree, me: Router, router: Router, filter: Option<Filter>)
    requires Shape(t) && me in t && router in t
    ensures Verdict(t, me, router) == Included <==> Shape(Join(t, me, router, filter))
    ensures Verdict(t, me, router) == SelfInclude <==> me == router
    ensures Verdict(t, me, router) == AlreadyAttached
            <==> me != router && exists r :: r in t && router in t[r].children
    ensures Verdict(t, me, router) == WouldCycle
            <==> me != router && me in t[router].subtree && forall r :: r in t ==> router !in t[r].children
  {
    var u := Join(t, me, router, filter);
    assert NodeOk(t, router) && NodeOk(t, me);
    forall r | r in t && router in t[r].children ensures t[router].parent == r {
      var i :| 0 <= i < |t[r].children| && t[r].children[i] == router;
      ChildBelow(t, r, i);
    }
    if Verdict(t, me, router) == Included {
      IncludeKeepsForest(t, me, router, filter);
    } else if Shape(u) {
      NoForest(t, me, router, filter);
    }
  }

  lemma NoForest(t: Tree, me: Router, router: Router, filter: Option<Filter>)
    requires Shape(t) && me in t && router in t && Verdict(t, me, router) != Included
    ensures !Shape(Join(t, me, router, filter))
  {
    var u := Join(t, me, router, filter);
    var last := |t[me].children|;
    assert u[me].children[last] == router;
    if Shape(u) {
      ChildBelow(u, me, last);
      assert NodeOk(t, router);
      var p: Router := t[router].parent;
      var i :| 0 <= i < |t[p].children| && t[p].children[i] == router;
      assert u[p].children[i] == router && NodeOk(u, me);
      ChildBelow(u, p, i);
      assert false;
    }
  }

  /** One call of `include`, by whom and of whom. */
  datatype Attempt = Attempt(me: Router, router: Router, filter: Option<Filter>)

  ghost function Grown(t: Tree, attempts: seq<Attempt>): Tree
    requires forall a :: a in attempts ==> a.me in t && a.router in t
    decreases |attempts|
  {
    if attempts == [] then t
    else
      var a := attempts[0];
      var u := if Verdict(t, a.me, a.router) == Included then Join(t, a.me, a.router, a.filter) else t;
      Grown(u, attempts[1..])
  }

  lemma {:induction false} GrowthKeepsForest(t: Tree, attempts: seq<Attempt>)
    requires Shape(t) && forall a :: a in attempts ==> a.me in t && a.router in t
    ensures Shape(Grown(t, attempts))
    decreases |attempts|
  {
    if attempts != [] {
      var a := attempts[0];
      if Verdict(t, a.me, a.router) == Included {
        IncludeKeepsForest(t, a.me, a.router, a.filter);
        GrowthKeepsForest(Join(t, a.me, a.router, a.filter), attempts[1..]);
      } else {
        GrowthKeepsForest(t, attempts[1..]);
      }
    }
  }

  /** From routers that are attached nowhere, whatever `include` calls are made, in whatever order, the
      links stay a forest. */
  lemma ForestForever(t: Tree, attempts: seq<Attempt>)
    requires forall r :: r in t ==> t[r].children == [] && t[r].parent == null && t[r].subtree == {r}
    requires forall a :: a in attempts ==> a.me in t && a.router in t
    ensures Shape(Grown(t, attempts))
  {
    assert Shape(t);
    GrowthKeepsForest(t, attempts);
  }

  // ------------------------------------------------------------ searching it

  /** A route together with the router it is registered on. */
  datatype Entry = Entry(owner: Router, route: Route)

  /** The route found, the middleware to run around it and the router that owns it. */
  datatype Resolved = Resolved(handler: Handler, middlewares: seq<Middleware>, owner: Router)

  ghost predicate Under(t: Tree, root: Router, x: Router) {
    root in t && x in t && x in t[root].subtree
  }

  ghost predicate Enabled(t: Tree, r: Router, ctx: Context)
    requires r in t
  {
    t[r].includeFilter.Some? ==> t[r].includeFilter.value(ctx)
  }

  ghost function Own(r: Router, routes: seq<Route>): (s: seq<Entry>)
    ensures |s| == |routes| && forall i :: 0 <= i < |s| ==> s[i] == Entry(r, routes[i])
  {
    seq(|routes|, i requires 0 <= i < |routes| => Entry(r, routes[i]))
  }

  /** The routes of a router, then those of its enabled children, in order. */
  ghost function Preorder(t: Tree, r: Router, ctx: Context): (s: seq<Entry>)
    requires Shape(t) && r in t
    ensures forall i :: 0 <= i < |s| ==> Under(t, r, s[i].owner)
    decreases t[r].subtree, |t[r].children| + 1
  {
    assert NodeOk(t, r);
    Own(r, t[r].routes) + Below(t, r, 0, ctx)
  }

  ghost function Below(t: Tree, r: Router, i: nat, ctx: Context): (s: seq<Entry>)
    requires Shape(t) && r in t && i <= |t[r].children|
    ensures forall j :: 0 <= j < |s| ==> Under(t, r, s[j].owner)
    decreases t[r].subtree, |t[r].children| - i
  {
    if i == |t[r].children| then []
    else
      ChildBelow(t, r, i);
      var c := t[r].children[i];
      (if Enabled(t, c, ctx) then Preorder(t, c, ctx) else []) + Below(t, r, i + 1, ctx)
  }

  /** The first entry whose route matches. */
  ghost function First(entries: seq<Entry>, ctx: Context): (e: Option<Entry>)
    ensures e.Some? ==> e.value in entries && Matches(e.value.route, ctx)
    ensures e.None? ==> forall i :: 0 <= i < |entries| ==> !Matches(entries[i].route, ctx)
  {
    if entries == [] then None
    else if Matches(entries[0].route, ctx) then Some(entries[0])
    else First(entries[1..], ctx)
  }

  /** Middleware from `root` down to `x`, found by walking up the parents of `x`. */
  ghost function Onion(t: Tree, root: Router, x: Router): seq<Middleware>
    requires Shape(t) && Under(t, root, x)
    decreases t.Keys - t[x].subtree
  {
    if x == root then t[x].middlewares
    else WayUp(t, root, x); Onion(t, root, t[x].parent) + t[x].middlewares
  }

  /** Does every include filter between `root` (left out) and `x` pass? */
  ghost predicate Reaches(t: Tree, root: Router, x: Router, ctx: Context)
    requires Shape(t) && Under(t, root, x)
    decreases t.Keys - t[x].subtree
  {
    x == root || (WayUp(t, root, x); Enabled(t, x, ctx) && Reaches(t, root, t[x].parent, ctx))
  }

  /** Routers that were below `root` are reached as before an include, through the same middleware. */
  lemma {:induction false} OldPathsStay(t: Tree, me: Router, router: Router, filter: Option<Filter>,
                                        root: Router, x: Router, ctx: Context)
    requires Shape(t) && me in t && router in t && Verdict(t, me, router) == Included && Under(t, root, x)
    requires Shape(Join(t, me, router, filter)) && Under(Join(t, me, router, filter), root, x)
    ensures var u := Join(t, me, router, filter);
            && Onion(u, root, x) == Onion(t, root, x)
            && (Reaches(u, root, x, ctx) <==> Reaches(t, root, x, ctx))
    decreases t.Keys - t[x].subtree
  {
    var u := Join(t, me, router, filter);
    if x != root {
      WayUp(t, root, x);
      WayUp(u, root, x);
      assert x != router;
      OldPathsStay(t, me, router, filter, root, t[x].parent, ctx);
    }
  }

  /** An included router hangs below its includer as it was, behind the include's filter: what was reached in
      it is reached from above exactly when the includer is and the filter passes, and the includer's
      middleware comes first. */
  lemma {:induction false} ReachedThroughInclude(t: Tree, me: Router, router: Router, filter: Option<Filter>,
                                                 root: Router, x: Router, ctx: Context)
    requires Shape(t) && me in t && router in t && Verdict(t, me, router) == Included
    requires Shape(Join(t, me, router, filter)) && Under(t, root, me) && Under(t, router, x)
    ensures var u := Join(t, me, router, filter);
            && Under(u, root, x)
            && Onion(u, root, x) == Onion(t, root, me) + Onion(t, router, x)
            && (Reaches(u, root, x, ctx) <==>
                  && Reaches(t, root, me, ctx) && Reaches(t, router, x, ctx)
                  && (if filter.Some? then filter.value(ctx) else Enabled(t, router, ctx)))
    decreases t.Keys - t[x].subtree
  {
    var u := Join(t, me, router, filter);
    assert Nested(t, root, me) && Nested(t, router, root) && Nested(t, root, router);
    TopOk(t, me);
    assert x != root;
    WayUp(u, root, x);
    if x == router {
      OldPathsStay(t, me, router, filter, root, me, ctx);
    } else {
      WayUp(t, router, x);
      var p: Router := t[x].parent;
      ReachedThroughInclude(t, me, router, filter, root, p, ctx);
      AddFront(Onion(t, root, me), Onion(t, router, p), t[x].middlewares);
    }
  }

  ghost function Found(t: Tree, root: Router, e: Option<Entry>, inherited: seq<Middleware>): Option<Resolved>
    requires Shape(t) && root in t && (e.Some? ==> Under(t, root, e.value.owner))
  {
    if e.None? then None
    else Some(Resolved(e.value.route.handler, inherited + Onion(t, root, e.value.owner), e.value.owner))
  }

  /** The first matching route in preorder, with the middleware from `root` down to its owner. */
  ghost function Resolution(t: Tree, root: Router, ctx: Context, inherited: seq<Middleware>): Option<Resolved>
    requires Shape(t) && root in t
  {
    Found(t, root, First(Preorder(t, root, ctx), ctx), inherited)
  }

  lemma TopOk(t: Tree, r: Router)
    requires Shape(t) && r in t
    ensures r in t[r].subtree && t[r].subtree <= t.Keys
  {
    assert NodeOk(t, r);
  }

  /** The routers from `x` up to the top of its tree, each followed by its parent. */
  ghost predicate WayToTop(t: Tree, x: Router, way: seq<Router>) {
    && way != [] && way[0] == x && (forall i :: 0 <= i < |way| ==> way[i] in t)
    && (forall i :: 0 <= i < |way| - 1 ==> t[way[i]].parent == way[i + 1])
    && t[way[|way| - 1]].parent == null
  }

  /** Their error handlers: those of the first router first, each router's in the order of registration. */
  ghost function HandlersAlong(t: Tree, way: seq<Router>): seq<ErrorHandler>
    requires forall i :: 0 <= i < |way| ==> way[i] in t
  {
    if way == [] then [] else t[way[0]].errorHandlers + HandlersAlong(t, way[1..])
  }

  ghost predicate Caught(handlers: seq<ErrorHandler>, error: string, ctx: Context) {
    exists i :: 0 <= i < |handlers| && handlers[i](error, ctx)
  }

  /** The way to the top passes exactly the routers that `x` is at or below, each once. */
  lemma {:induction false} WayIsAbove(t: Tree, x: Router, way: seq<Router>)
    requires Shape(t) && x in t && WayToTop(t, x, way)
    ensures forall y :: y in t ==> (y in way <==> x in t[y].subtree)
    ensures forall i, j :: 0 <= i < j < |way| ==> way[i] != way[j]
    decreases |way|
  {
    TopOk(t, x);
    var rest := way[1..];
    if rest == [] {
      forall y | y in t && x in t[y].subtree ensures y == x {
        assert Nested(t, y, x);
      }
    } else {
      var p := way[1];
      assert t[way[0]].parent == way[1];
      assert forall i :: 0 <= i < |rest| ==> rest[i] == way[i + 1];
      WayIsAbove(t, p, rest);
      InParent(t, x);
      TopOk(t, p);
      assert forall y :: y in way <==> y == x || y in rest;
      forall y | y in t ensures y in way <==> x in t[y].subtree {
        assert Nested(t, y, x) && Nested(t, y, p);
      }
      assert p !in t[x].subtree by { assert Nested(t, x, p); }
    }
  }

  lemma {:induction false} TheWay(t: Tree, x: Router) returns (way: seq<Router>)
    requires Shape(t) && x in t
    ensures WayToTop(t, x, way)
    ensures t[x].parent == null ==> way == [x]
    ensures t[x].parent != null ==> |way| > 1 && t[x].parent in t && WayToTop(t, t[x].parent, way[1..])
    decreases t.Keys - t[x].subtree
  {
    if t[x].parent == null {
      way := [x];
    } else {
      InParent(t, x);
      TopOk(t, t[x].parent);
      var rest := TheWay(t, t[x].parent);
      way := [x] + rest;
      assert way[1..] == rest;
    }
  }

  lemma NextUp(t: Tree, x: Router, way: seq<Router>)
    requires WayToTop(t, x, way)
    ensures |way| > 1 <==> t[x].parent != null
    ensures |way| > 1 ==> way[1] == t[x].parent
  {
    var last := |way| - 1;
    assert way[last] in t;
    assert 0 < last ==> t[way[0]].parent == way[1];
  }

  /** There is only one. */
  lemma {:induction false} SameWay(t: Tree, x: Router, a: seq<Router>, b: seq<Router>)
    requires WayToTop(t, x, a) && WayToTop(t, x, b)
    ensures a == b
    decreases |a|
  {
    NextUp(t, x, a);
    NextUp(t, x, b);
    if |a| > 1 {
      SameWay(t, a[1], a[1..], b[1..]);
      assert a == [x] + a[1..] && b == [x] + b[1..];
    }
  }

  lemma {:induction false} HandlerAlong(t: Tree, way: seq<Router>, error: string, ctx: Context)
    requires forall i :: 0 <= i < |way| ==> way[i] in t
    ensures Caught(HandlersAlong(t, way), error, ctx)
            <==> exists y :: y in way && y in t && Caught(t[y].errorHandlers, error, ctx)
    decreases |way|
  {
    if way != [] {
      var own, above := t[way[0]].errorHandlers, HandlersAlong(t, way[1..]);
      assert forall i :: 0 <= i < |way[1..]| ==> way[1..][i] == way[i + 1];
      HandlerAlong(t, way[1..], error, ctx);
      CaughtInEither(own, above, error, ctx);
      assert forall y :: y in way <==> y == way[0] || y in way[1..];
    }
  }

  lemma CaughtInEither(a: seq<ErrorHandler>, b: seq<ErrorHandler>, error: string, ctx: Context)
    ensures Caught(a + b, error, ctx) <==> Caught(a, error, ctx) || Caught(b, error, ctx)
  {
    var all := a + b;
    assert forall i :: 0 <= i < |a| ==> all[i] == a[i];
    assert forall i :: 0 <= i < |b| ==> all[|a| + i] == b[i];
  }

  /** An error at `x` is caught exactly when some router that `x` is at or below has a handler for it. */
  lemma CaughtExactly(t: Tree, x: Router, way: seq<Router>, error: string, ctx: Context)
    requires Shape(t) && x in t && WayToTop(t, x, way)
    ensures Caught(HandlersAlong(t, way), error, ctx)
            <==> exists y, i :: y in t && x in t[y].subtree && 0 <= i < |t[y].errorHandlers|
                                && t[y].errorHandlers[i](error, ctx)
  {
    WayIsAbove(t, x, way);
    HandlerAlong(t, way, error, ctx);
  }

  lemma {:induction false} FirstOfConcat(a: seq<Entry>, b: seq<Entry>, ctx: Context)
    ensures First(a + b, ctx) == if First(a, ctx).Some? then First(a, ctx) else First(b, ctx)
    decreases |a|
  {
    if a == [] {
      assert a + b == b;
    } else {
      assert (a + b)[1..] == a[1..] + b;
      FirstOfConcat(a[1..], b, ctx);
    }
  }

  lemma {:induction false} FirstAt(entries: seq<Entry>, k: nat, ctx: Context)
    requires k < |entries| && Matches(entries[k].route, ctx)
    requires forall i :: 0 <= i < k ==> !Matches(entries[i].route, ctx)
    ensures First(entries, ctx) == Some(entries[k])
    decreases k
  {
    if k > 0 {
      assert !Matches(entries[0].route, ctx);
      FirstAt(entries[1..], k - 1, ctx);
    }
  }

  /** Below a child, paths from the parent are the child's own paths with the parent put first. */
  lemma {:induction false} ThroughChild(t: Tree, r: Router, i: nat, x: Router, ctx: Context)
    requires Shape(t) && r in t && i < |t[r].children| && Under(t, t[r].children[i], x)
    ensures var c := t[r].children[i];
            && Under(t, r, x)
            && Onion(t, r, x) == t[r].middlewares + Onion(t, c, x)
            && (Reaches(t, r, x, ctx) <==> Enabled(t, c, ctx) && Reaches(t, c, x, ctx))
    decreases t.Keys - t[x].subtree
  {
    var c := t[r].children[i];
    ChildBelow(t, r, i);
    assert x != r;
    TopOk(t, r);
    if x != c {
      WayUp(t, c, x);
      var p: Router := t[x].parent;
      ThroughChild(t, r, i, p, ctx);
      AddFront(t[r].middlewares, Onion(t, c, p), t[x].middlewares);
    }
  }

  /** What the search of the children from the i-th on finds. */
  ghost function InChildren(t: Tree, r: Router, i: nat, ctx: Context, inherited: seq<Middleware>): Option<Resolved>
    requires Shape(t) && r in t && i <= |t[r].children|
  {
    Found(t, r, First(Below(t, r, i, ctx), ctx), inherited)
  }

  lemma NextChild(t: Tree, r: Router, i: nat, ctx: Context, inherited: seq<Middleware>)
    requires Shape(t) && r in t && i < |t[r].children| && t[r].children[i] in t
    ensures var c := t[r].children[i];
            var inner := Resolution(t, c, ctx, inherited + t[r].middlewares);
            InChildren(t, r, i, ctx, inherited)
            == if Enabled(t, c, ctx) && inner.Some? then inner else InChildren(t, r, i + 1, ctx, inherited)
  {
    var c := t[r].children[i];
    var rest := Below(t, r, i + 1, ctx);
    if Enabled(t, c, ctx) {
      var below := Preorder(t, c, ctx);
      assert Below(t, r, i, ctx) == below + rest;
      FirstOfConcat(below, rest, ctx);
      var e := First(below, ctx);
      if e.Some? {
        ThroughChild(t, r, i, e.value.owner, ctx);
        AddFront(inherited, t[r].middlewares, Onion(t, c, e.value.owner));
      }
    } else {
      assert Below(t, r, i, ctx) == rest;
    }
  }

  lemma AddFront(a: seq<Middleware>, b: seq<Middleware>, c: seq<Middleware>)
    ensures (a + b) + c == a + (b + c)
  {
  }

  lemma OwnFirst(t: Tree, r: Router, ctx: Context, inherited: seq<Middleware>)
    requires Shape(t) && r in t
    ensures var own := First(Own(r, t[r].routes), ctx);
            Resolution(t, r, ctx, inherited)
            == if own.Some? then Some(Resolved(own.value.route.handler, inherited + t[r].middlewares, r))
               else InChildren(t, r, 0, ctx, inherited)
  {
    TopOk(t, r);
    FirstOfConcat(Own(r, t[r].routes), Below(t, r, 0, ctx), ctx);
  }

  /** Every router strictly below `r` is below one of its children. */
  lemma {:induction false} InSomeChild(t: Tree, r: Router, x: Router) returns (i: nat)
    requires Shape(t) && Under(t, r, x) && x != r
    ensures i < |t[r].children| && Under(t, t[r].children[i], x)
    decreases t.Keys - t[x].subtree
  {
    WayUp(t, r, x);
    TopOk(t, x);
    var p: Router := t[x].parent;
    if p == r {
      assert NodeOk(t, x);
      i :| 0 <= i < |t[r].children| && t[r].children[i] == x;
    } else {
      i := InSomeChild(t, r, p);
      assert Nested(t, t[r].children[i], p);
    }
  }

  lemma {:induction false} BelowHasChild(t: Tree, r: Router, i: nat, k: nat, e: Entry, ctx: Context)
    requires Shape(t) && r in t && i <= k < |t[r].children| && t[r].children[k] in t
    requires Enabled(t, t[r].children[k], ctx) && e in Preorder(t, t[r].children[k], ctx)
    ensures e in Below(t, r, i, ctx)
    decreases k - i
  {
    ChildBelow(t, r, i);
    if i < k {
      BelowHasChild(t, r, i + 1, k, e, ctx);
    }
  }

  /** The search visits only routes of routers reached through passing include filters. */
  lemma {:induction false} VisitsOnlyReached(t: Tree, r: Router, e: Entry, ctx: Context)
    requires Shape(t) && r in t && e in Preorder(t, r, ctx)
    ensures Under(t, r, e.owner) && e.route in t[e.owner].routes && Reaches(t, r, e.owner, ctx)
    decreases t[r].subtree, |t[r].children| + 1
  {
    TopOk(t, r);
    if e !in Own(r, t[r].routes) {
      VisitsOnlyReachedBelow(t, r, 0, e, ctx);
    }
  }

  lemma {:induction false} VisitsOnlyReachedBelow(t: Tree, r: Router, i: nat, e: Entry, ctx: Context)
    requires Shape(t) && r in t && i <= |t[r].children| && e in Below(t, r, i, ctx)
    ensures Under(t, r, e.owner) && e.route in t[e.owner].routes && Reaches(t, r, e.owner, ctx)
    decreases t[r].subtree, |t[r].children| - i
  {
    ChildBelow(t, r, i);
    var c := t[r].children[i];
    if Enabled(t, c, ctx) && e in Preorder(t, c, ctx) {
      VisitsOnlyReached(t, c, e, ctx);
      ThroughChild(t, r, i, e.owner, ctx);
    } else {
      VisitsOnlyReachedBelow(t, r, i + 1, e, ctx);
    }
  }

  lemma {:induction false} VisitsAllReached(t: Tree, r: Router, x: Router, route: Route, ctx: Context)
    requires Shape(t) && Under(t, r, x) && Reaches(t, r, x, ctx) && route in t[x].routes
    ensures Entry(x, route) in Preorder(t, r, ctx)
    decreases t[r].subtree
  {
    if x == r {
      var k :| 0 <= k < |t[r].routes| && t[r].routes[k] == route;
      assert Own(r, t[r].routes)[k] == Entry(x, route);
    } else {
      var i := InSomeChild(t, r, x);
      ChildBelow(t, r, i);
      ThroughChild(t, r, i, x, ctx);
      VisitsAllReached(t, t[r].children[i], x, route, ctx);
      BelowHasChild(t, r, 0, i, Entry(x, route), ctx);
    }
  }

  /** An update is unhandled exactly when no router reached through passing filters has a matching route. */
  lemma UnhandledExactly(t: Tree, root: Router, ctx: Context, inherited: seq<Middleware>)
    requires Shape(t) && root in t
    ensures Resolution(t, root, ctx, inherited) == None
            <==> forall x, i :: Under(t, root, x) && Reaches(t, root, x, ctx) && 0 <= i < |t[x].routes| ==>
                   !Matches(t[x].routes[i], ctx)
  {
    var entries := Preorder(t, root, ctx);
    if First(entries, ctx) == None {
      forall x, i | Under(t, root, x) && Reaches(t, root, x, ctx) && 0 <= i < |t[x].routes|
        ensures !Matches(t[x].routes[i], ctx)
      {
        VisitsAllReached(t, root, x, t[x].routes[i], ctx);
      }
    } else {
      VisitsOnlyReached(t, root, First(entries, ctx).value, ctx);
    }
  }

  method Passes(filters: seq<Filter>, ctx: Context) returns (all: bool)
    ensures all <==> forall i :: 0 <= i < |filters| ==> filters[i](ctx)
  {
    for k := 0 to |filters|
      invariant forall i :: 0 <= i < k ==> filters[i](ctx)
    {
      if !filters[k](ctx) {
        return false;
      }
    }
    return true;
  }

  // ------------------------------------------------------------ the objects

  ghost function Snapshot(all: set<Router>): (t: Tree)
    reads all
    ensures t.Keys == all
  {
    map r | r in all :: r.Fields()
  }

  class Router {
    var routes: seq<Route>
    var children: seq<Router>
    var middlewares: seq<Middleware>
    var errorHandlers: seq<ErrorHandler>
    var parent: Router?
    var includeFilter: Option<Filter>
    ghost var subtree: set<Router>

    ghost function Fields(): Node
      reads this
    {
      Node(routes, children, middlewares, errorHandlers, parent, includeFilter, subtree)
    }

    constructor ()
      ensures Fields() == Node([], [], [], [], null, None, {this})
    {
      routes, children, middlewares, errorHandlers, parent, includeFilter := [], [], [], [], null, None;
      subtree := {this};
    }

    /** The walk up the parents: is this router below a given root? */
    method IsBelow(root: Router, ghost all: set<Router>) returns (below: bool)
      requires Shape(Snapshot(all)) && this in all && root in all && root.parent == null
      ensures below <==> this in root.subtree
    {
      ghost var t := Snapshot(all);
      var ancestor: Router? := this;
      TopOk(t, this);
      TopOk(t, root);
      while ancestor != null
        invariant ancestor != null ==> ancestor in all && this in t[ancestor].subtree
        invariant ancestor != null ==> (this in root.subtree ==> ancestor in root.subtree)
        invariant ancestor == null ==> this !in root.subtree
        decreases ancestor != null, if ancestor == null then all else all - t[ancestor].subtree
      {
        if ancestor == root {
          return true;
        }
        StepUp(t, root, ancestor);
        ancestor := ancestor.parent;
      }
      return false;
    }

    /** Attach a router below this one, refusing itself, an attached router and an ancestor. */
    method Include(router: Router, filter: Option<Filter>, ghost all: set<Router>) returns (outcome: Outcome)
      requires Shape(Snapshot(all)) && this in all && router in all
      modifies all
      ensures Shape(Snapshot(all))
      ensures outcome == Verdict(old(Snapshot(all)), this, router)
      ensures Snapshot(all) == if outcome == Included then Join(old(Snapshot(all)), this, router, filter)
                               else old(Snapshot(all))
    {
      if router == this {
        return SelfInclude;
      }
      if router.parent != null {
        return AlreadyAttached;
      }
      var cycle := IsBelow(router, all);
      if cycle {
        return WouldCycle;
      }
      IncludeKeepsForest(Snapshot(all), this, router, filter);
      Attach(router, filter, all);
      return Included;
    }

    /** The part of `Include` that changes the links. */
    method Attach(router: Router, filter: Option<Filter>, ghost all: set<Router>)
      requires this in all && router in all && router != this
      modifies all
      ensures Snapshot(all) == Join(old(Snapshot(all)), this, router, filter)
    {
      ghost var t := Snapshot(all);
      router.parent := this;
      if filter.Some? {
        router.includeFilter := filter;
      }
      children := children + [router];
      forall r | r in all && this in t[r].subtree {
        r.subtree := t[r].subtree + t[router].subtree;
      }
      ghost var u := Join(t, this, router, filter);
      forall r | r in all ensures r.Fields() == u[r] {
        assert r.routes == t[r].routes && r.middlewares == t[r].middlewares;
        assert r.subtree == u[r].subtree;
        assert r.children == u[r].children;
      }
    }

    /** The first of this router's own routes that matches. */
    method ResolveHere(ctx: Context) returns (found: Option<Handler>)
      ensures var own := First(Own(this, routes), ctx);
              found == if own.Some? then Some(own.value.route.handler) else None
    {
      ghost var own := Own(this, routes);
      for i := 0 to |routes|
        invariant forall j :: 0 <= j < i ==> !Matches(own[j].route, ctx)
      {
        var route := routes[i];
        if route.types.None? || ctx.updateType in route.types.value {
          var passes := Passes(route.filters, ctx);
          if passes {
            FirstAt(own, i, ctx);
            return Some(route.handler);
          }
        }
      }
      return None;
    }

    /** The first matching route below this router, with the middleware gathered on the way down. */
    method Resolve(ctx: Context, inherited: seq<Middleware>, ghost all: set<Router>)
      returns (found: Option<Resolved>)
      requires Shape(Snapshot(all)) && this in all
      ensures found == Resolution(Snapshot(all), this, ctx, inherited)
      decreases subtree, 1
    {
      var chain := if |middlewares| > 0 then inherited + middlewares else inherited;
      assert chain == inherited + middlewares;
      OwnFirst(Snapshot(all), this, ctx, inherited);
      var here := ResolveHere(ctx);
      if here.Some? {
        return Some(Resolved(here.value, chain, this));
      }
      found := ResolveBelow(ctx, inherited, chain, all);
    }

    /** The search of the children, in order. */
    method ResolveBelow(ctx: Context, ghost inherited: seq<Middleware>, chain: seq<Middleware>, ghost all: set<Router>)
      returns (found: Option<Resolved>)
      requires Shape(Snapshot(all)) && this in all && chain == inherited + middlewares
      ensures found == InChildren(Snapshot(all), this, 0, ctx, inherited)
      decreases subtree, 0
    {
      for i := 0 to |children|
        invariant InChildren(Snapshot(all), this, 0, ctx, inherited)
                  == InChildren(Snapshot(all), this, i, ctx, inherited)
      {
        var child := children[i];
        ChildBelow(Snapshot(all), this, i);
        NextChild(Snapshot(all), this, i, ctx, inherited);
        if child.includeFilter.None? || child.includeFilter.value(ctx) {
          found := child.Resolve(ctx, chain, all);
          if found.Some? {
            return found;
          }
        }
      }
      return None;
    }

    /** This router's error handlers, then those of the routers on the way to the top; `asked` records the
        handlers that ran. */
    method HandleError(error: string, ctx: Context, ghost all: set<Router>)
      returns (handled: bool, ghost asked: seq<ErrorHandler>, ghost way: seq<Router>)
      requires Shape(Snapshot(all)) && this in all
      ensures WayToTop(Snapshot(all), this, way)
      ensures var handlers := HandlersAlong(Snapshot(all), way);
              && (handled <==> Caught(handlers, error, ctx))
              && asked <= handlers
              && (forall i :: 0 <= i < |asked| - 1 ==> !asked[i](error, ctx))
              && if handled then asked != [] && asked[|asked| - 1](error, ctx) else asked == handlers
      decreases all - subtree
    {
      way := TheWay(Snapshot(all), this);
      ghost var up := HandlersAlong(Snapshot(all), way);
      for i := 0 to |errorHandlers|
        invariant forall j :: 0 <= j < i ==> !up[j](error, ctx)
      {
        if errorHandlers[i](error, ctx) {
          assert up[i](error, ctx);
          return true, up[..i + 1], way;
        }
      }
      if parent == null {
        assert way[1..] == [] && HandlersAlong(Snapshot(all), []) == [];
        assert up == errorHandlers + [] == errorHandlers;
        return false, up, way;
      }
      InParent(Snapshot(all), this);
      TopOk(Snapshot(all), parent);
      ghost var above;
      handled, asked, above := parent.HandleError(error, ctx, all);
      SameWay(Snapshot(all), parent, above, way[1..]);
      CaughtInEither(errorHandlers, HandlersAlong(Snapshot(all), above), error, ctx);
      asked := errorHandlers + asked;
    }
  }
}
