/** Dispatch over attachment graphs whose vectors may hold NULL entries. */
module Dispatch {
  import opened OscTypes
  import opened ObjectGraph
  import opened ObjectLists

  type Graph = map<nat, Slots>

  /** The graph with its NULL entries filtered out. */
  function Clean(g: Graph): Net {
    map x | x in g :: NonNull(g[x])
  }

  ghost predicate Dispatchable(g: Graph) {
    Closed(Clean(g)) && Acyclic(Clean(g))
  }

  // What a dispatch does to the vectors

  /** Every vector lost NULL entries at most, from its front. */
  ghost predicate Tidied(g: Graph, a: Graph) {
    a.Keys == g.Keys && forall x :: x in g ==> Swept(g[x], a[x])
  }

  /** The vectors of the objects whose own handler was called hold no NULL any more. */
  ghost predicate Full(a: Graph, calls: seq<Handler>) {
    forall x :: Object(x) in calls && x in a ==> NoNull(a[x])
  }

  lemma TidiedClean(g: Graph, a: Graph)
    requires Tidied(g, a)
    ensures Clean(a) == Clean(g)
  {
    forall x | x in g ensures NonNull(a[x]) == NonNull(g[x]) {
      SweptFacts(g[x], a[x]);
    }
  }

  lemma TidiedTrans(g: Graph, b: Graph, a: Graph)
    requires Tidied(g, b) && Tidied(b, a)
    ensures Tidied(g, a)
  {
    forall x | x in g ensures Swept(g[x], a[x]) {
      SweptTrans(g[x], b[x], a[x]);
    }
  }

  /** A graph without NULL entries is left as it was. */
  lemma TidiedNoNull(g: Graph, a: Graph)
    requires Tidied(g, a) && NoNulls(g)
    ensures a == g
  {
    forall x | x in g ensures a[x] == g[x] {
      SweptFacts(g[x], a[x]);
    }
  }

  ghost predicate NoNulls(g: Graph) {
    forall x :: x in g ==> NoNull(g[x])
  }

  // The order of offers, object by object

  /** The first `k` attached objects reject the message, and the next one, if any, takes it. */
  ghost predicate Stops(n: Net, kids: seq<nat>, h: seq<Handler>, decide: Decide, k: nat)
    requires Closed(n) && Acyclic(n) && forall c :: c in kids ==> c in n
  {
    && k <= |kids|
    && !Handled(Forest(n, kids[..k]), h, decide)
    && (k < |kids| ==> Handled(PostOrder(n, kids[k]), h + Forest(n, kids[..k]), decide))
  }

  lemma {:induction false} ForestPrefix(n: Net, kids: seq<nat>, i: nat) returns (rest: seq<Handler>)
    requires Closed(n) && Acyclic(n) && (forall c :: c in kids ==> c in n) && i <= |kids|
    ensures Forest(n, kids) == Forest(n, kids[..i]) + rest
    decreases |kids|
  {
    if i == |kids| {
      assert kids[..i] == kids;
      rest := [];
    } else {
      var k := |kids| - 1;
      var most := ForestPrefix(n, kids[..k], i);
      assert kids[..k][..i] == kids[..i];
      rest := most + PostOrder(n, kids[k]);
      Associative(Forest(n, kids[..i]), most, PostOrder(n, kids[k]));
    }
  }

  lemma ForestNext(n: Net, kids: seq<nat>, i: nat)
    requires Closed(n) && Acyclic(n) && (forall c :: c in kids ==> c in n) && i < |kids|
    ensures Forest(n, kids[..i + 1]) == Forest(n, kids[..i]) + PostOrder(n, kids[i])
  {
    assert kids[..i + 1][..i] == kids[..i];
  }

  /** The `i`-th attached object takes the message: the offers end there. */
  lemma KidAccepts(n: Net, kids: seq<nat>, i: nat, h: seq<Handler>, decide: Decide)
    requires Closed(n) && Acyclic(n) && (forall c :: c in kids ==> c in n) && i < |kids|
    requires Stops(n, kids, h, decide, i)
    ensures Handled(Forest(n, kids), h, decide)
    ensures Calls(Forest(n, kids), h, decide) ==
            Forest(n, kids[..i]) + Calls(PostOrder(n, kids[i]), h + Forest(n, kids[..i]), decide)
  {
    var f, p := Forest(n, kids[..i]), PostOrder(n, kids[i]);
    ForestNext(n, kids, i);
    var rest := ForestPrefix(n, kids, i + 1);
    OfferConcat(f, p, h, decide);
    OfferConcat(f + p, rest, h, decide);
  }

  /** The `i`-th attached object rejects the message: the next one is asked. */
  lemma KidRejects(n: Net, kids: seq<nat>, i: nat, h: seq<Handler>, decide: Decide)
    requires Closed(n) && Acyclic(n) && (forall c :: c in kids ==> c in n) && i < |kids|
    requires !Handled(Forest(n, kids[..i]), h, decide)
    requires !Handled(PostOrder(n, kids[i]), h + Forest(n, kids[..i]), decide)
    ensures Forest(n, kids[..i + 1]) == Forest(n, kids[..i]) + PostOrder(n, kids[i])
    ensures !Handled(Forest(n, kids[..i + 1]), h, decide)
    ensures Calls(PostOrder(n, kids[i]), h + Forest(n, kids[..i]), decide) == PostOrder(n, kids[i])
  {
    ForestNext(n, kids, i);
    OfferConcat(Forest(n, kids[..i]), PostOrder(n, kids[i]), h, decide);
    StopsAtFirst(PostOrder(n, kids[i]), h + Forest(n, kids[..i]), decide);
  }

  /** A handler that is asked after a list: the object's own, or the receiver's. */
  lemma OfferLast(order: seq<Handler>, last: Handler, h: seq<Handler>, decide: Decide)
    ensures Handled(order + [last], h, decide) <==> Handled(order, h, decide) || decide(h + order, last)
    ensures Calls(order + [last], h, decide) ==
            if Handled(order, h, decide) then Calls(order, h, decide) else order + [last]
  {
    OfferConcat(order, [last], h, decide);
    assert [last][1..] == [];
  }

  // Where a dispatch stops, and what it erases

  /** The first attached object, from the `i`-th on, that takes the message; their number if none does. */
  ghost function Taker(n: Net, kids: seq<nat>, h: seq<Handler>, decide: Decide, i: nat): (k: nat)
    requires Closed(n) && Acyclic(n) && (forall c :: c in kids ==> c in n) && i <= |kids|
    ensures i <= k <= |kids|
    decreases |kids| - i
  {
    if i == |kids| || Handled(PostOrder(n, kids[i]), h + Forest(n, kids[..i]), decide) then i
    else Taker(n, kids, h, decide, i + 1)
  }

  lemma {:induction false} TakerStops(n: Net, kids: seq<nat>, h: seq<Handler>, decide: Decide, i: nat)
    requires Closed(n) && Acyclic(n) && (forall c :: c in kids ==> c in n) && i <= |kids|
    requires !Handled(Forest(n, kids[..i]), h, decide)
    ensures Stops(n, kids, h, decide, Taker(n, kids, h, decide, i))
    decreases |kids| - i
  {
    if i < |kids| && !Handled(PostOrder(n, kids[i]), h + Forest(n, kids[..i]), decide) {
      KidRejects(n, kids, i, h, decide);
      TakerStops(n, kids, h, decide, i + 1);
    }
  }

  /** There is one place to stop. */
  lemma {:induction false} StopsTaker(n: Net, kids: seq<nat>, h: seq<Handler>, decide: Decide, i: nat, k: nat)
    requires Closed(n) && Acyclic(n) && (forall c :: c in kids ==> c in n) && i <= k
    requires Stops(n, kids, h, decide, k)
    ensures Taker(n, kids, h, decide, i) == k
    decreases k - i
  {
    if i < k {
      var f, p := Forest(n, kids[..i]), PostOrder(n, kids[i]);
      var rest := ForestPrefix(n, kids[..k], i + 1);
      assert kids[..k][..i + 1] == kids[..i + 1];
      ForestNext(n, kids, i);
      OfferConcat(f + p, rest, h, decide);
      OfferConcat(f, p, h, decide);
      StopsTaker(n, kids, h, decide, i + 1, k);
    }
  }

  /** The objects in whose vectors a dispatch to `o` stops short, and where: the way down to the one that accepts. */
  ghost function Trail(n: Net, o: nat, h: seq<Handler>, decide: Decide): map<nat, nat>
    requires Closed(n) && Acyclic(n) && o in n
    decreases Height(n, o)
  {
    PostOrderUnfolds(n, o);
    var k := Taker(n, n[o], h, decide, 0);
    if k == |n[o]| then map[]
    else
      assert Edge(n, o, n[o][k]);
      HeightDecreases(n, o, n[o][k]);
      Trail(n, n[o][k], h + Forest(n, n[o][..k]), decide)[o := k]
  }

  /** The same for a list of objects. */
  ghost function ForestTrail(n: Net, kids: seq<nat>, h: seq<Handler>, decide: Decide): map<nat, nat>
    requires Closed(n) && Acyclic(n) && forall c :: c in kids ==> c in n
  {
    var k := Taker(n, kids, h, decide, 0);
    if k == |kids| then map[] else Trail(n, kids[k], h + Forest(n, kids[..k]), decide)
  }

  /**
   The vector of `x` afterwards: without its NULLs if `x` was asked itself, for then its loop ran to the end; without
   the NULLs before the stop if its loop stopped short; otherwise untouched.
   */
  ghost function ErasedAt(g: Graph, x: nat, calls: seq<Handler>, trail: map<nat, nat>): Slots
    requires x in g
  {
    if Object(x) in calls then Sweep(g[x], |NonNull(g[x])|)
    else if x in trail then Sweep(g[x], trail[x])
    else g[x]
  }

  ghost function Erased(g: Graph, calls: seq<Handler>, trail: map<nat, nat>): Graph {
    map x | x in g :: ErasedAt(g, x, calls, trail)
  }

  /** The graph after a dispatch to `o`. */
  ghost function After(g: Graph, o: nat, h: seq<Handler>, decide: Decide): Graph
    requires Dispatchable(g) && o in g
  {
    Erased(g, Calls(PostOrder(Clean(g), o), h, decide), Trail(Clean(g), o, h, decide))
  }

  lemma {:induction false} TrailReachable(n: Net, o: nat, h: seq<Handler>, decide: Decide, x: nat)
    requires Closed(n) && Acyclic(n) && o in n && x in Trail(n, o, h, decide)
    ensures Reaches(n, o, x)
    decreases Height(n, o)
  {
    PostOrderUnfolds(n, o);
    var k := Taker(n, n[o], h, decide, 0);
    ReachesSelf(n, o);
    if x != o {
      var c := n[o][k];
      assert Edge(n, o, c);
      HeightDecreases(n, o, c);
      TrailReachable(n, c, h + Forest(n, n[o][..k]), decide, x);
      ReachesVia(n, o, c, x);
    }
  }

  /** A dispatch that no one takes stops short nowhere. */
  lemma NoTrail(n: Net, kids: seq<nat>, h: seq<Handler>, decide: Decide)
    requires Closed(n) && Acyclic(n) && (forall c :: c in kids ==> c in n)
    ensures Taker(n, kids, h, decide, 0) == |kids| <==> !Handled(Forest(n, kids), h, decide)
  {
    assert kids[..0] == [];
    TakerStops(n, kids, h, decide, 0);
    var k := Taker(n, kids, h, decide, 0);
    if k < |kids| {
      KidAccepts(n, kids, k, h, decide);
    } else {
      assert kids[..k] == kids;
    }
  }

  lemma ErasedTidied(g: Graph, calls: seq<Handler>, trail: map<nat, nat>)
    ensures Tidied(g, Erased(g, calls, trail)) && Full(Erased(g, calls, trail), calls)
  {
    forall x | x in g && Object(x) in calls ensures NoNull(Sweep(g[x], |NonNull(g[x])|)) {
      SweepAll(g[x], |NonNull(g[x])|);
    }
  }

  /** Only vectors of objects reachable from `o` change. */
  ghost predicate Untouched(g: Graph, a: Graph, o: nat) {
    a.Keys == g.Keys && forall x :: x in g && !Reaches(Clean(g), o, x) ==> a[x] == g[x]
  }

  /** What a dispatch can do at most: erase NULLs, in vectors of reachable objects, all of them where it came to the end. */
  lemma AfterFacts(g: Graph, o: nat, h: seq<Handler>, decide: Decide)
    requires Dispatchable(g) && o in g
    ensures var a := After(g, o, h, decide);
            && Tidied(g, a) && Clean(a) == Clean(g) && Untouched(g, a, o)
            && Full(a, Calls(PostOrder(Clean(g), o), h, decide))
  {
    var n, calls := Clean(g), Calls(PostOrder(Clean(g), o), h, decide);
    ErasedTidied(g, calls, Trail(n, o, h, decide));
    TidiedClean(g, After(g, o, h, decide));
    StopsAtFirst(PostOrder(n, o), h, decide);
    forall x | x in g && !Reaches(n, o, x) ensures Object(x) !in calls && x !in Trail(n, o, h, decide) {
      PostOrderMembers(n, o, x);
      if x in Trail(n, o, h, decide) {
        TrailReachable(n, o, h, decide, x);
      }
    }
  }

  // Handlers that do not depend on what was offered before

  lemma {:induction false} StatelessHandled(order: seq<Handler>, h: seq<Handler>, accepts: Handler -> bool)
    ensures Handled(order, h, (_, x) => accepts(x)) <==> exists x :: x in order && accepts(x)
    decreases |order|
  {
    if order != [] {
      StatelessHandled(order[1..], h + [order[0]], accepts);
      assert forall x :: x in order <==> x == order[0] || x in order[1..];
      if accepts(order[0]) {
        assert order[0] in order;
      }
    }
  }

  /** A message handed to `o` is handled exactly when some object reachable from `o` accepts it. */
  lemma HandledIffReachable(n: Net, o: nat, h: seq<Handler>, accepts: Handler -> bool)
    requires Closed(n) && Acyclic(n) && o in n
    ensures Handled(PostOrder(n, o), h, (_, x) => accepts(x)) <==>
            exists x: nat :: Reaches(n, o, x) && accepts(Object(x))
  {
    StatelessHandled(PostOrder(n, o), h, accepts);
    forall x ensures Object(x) in PostOrder(n, o) <==> Reaches(n, o, x) {
      PostOrderMembers(n, o, x);
    }
    OnlyObjects(n, o);
    if x: nat :| Reaches(n, o, x) && accepts(Object(x)) {
      assert Object(x) in PostOrder(n, o);
    }
    if y :| y in PostOrder(n, o) && accepts(y) {
      assert y == Object(y.id);
    }
  }

  lemma {:induction false} OnlyObjects(n: Net, o: nat)
    requires Closed(n) && Acyclic(n) && o in n
    ensures forall y :: y in PostOrder(n, o) ==> y.Object?
    decreases Height(n, o)
  {
    PostOrderUnfolds(n, o);
    forall c | c in n[o] ensures forall y :: y in PostOrder(n, c) ==> y.Object? {
      assert Edge(n, o, c);
      HeightDecreases(n, o, c);
      OnlyObjects(n, c);
    }
    OnlyObjectsAll(n, n[o]);
  }

  lemma {:induction false} OnlyObjectsAll(n: Net, kids: seq<nat>)
    requires Closed(n) && Acyclic(n) && forall c :: c in kids ==> c in n
    requires forall c, y :: c in kids && y in PostOrder(n, c) ==> y.Object?
    ensures forall y :: y in Forest(n, kids) ==> y.Object?
    decreases |kids|
  {
    if kids != [] {
      OnlyObjectsAll(n, kids[..|kids| - 1]);
    }
  }

  // Building the graph

  datatype Op = AttachOp(parent: nat, child: Option<nat>) | DetachOp(parent: nat, child: Option<nat>) | DetachAllOp(parent: nat)

  function Apply(g: Graph, op: Op): Graph {
    if op.parent !in g then g else
    match op
    case AttachOp(p, c) => g[p := Added(g[p], c)]
    case DetachOp(p, c) => g[p := Removed(g[p], c)]
    case DetachAllOp(p) => g[p := []]
  }

  function ApplyAll(g: Graph, ops: seq<Op>): Graph
    decreases |ops|
  {
    if ops == [] then g else ApplyAll(Apply(g, ops[0]), ops[1..])
  }

  lemma {:induction false} RemovedNoNull(xs: Slots, c: Option<nat>)
    requires NoNull(xs)
    ensures NoNull(Removed(xs, c))
  {
    if c.Some? && xs != [] && xs[0] != c {
      RemovedNoNull(xs[1..], c);
    }
  }

  /** Adding and removing, in any order, with NULL arguments or not, never puts a NULL into a vector. */
  lemma {:induction false} BuiltWithoutNull(g: Graph, ops: seq<Op>)
    requires NoNulls(g)
    ensures NoNulls(ApplyAll(g, ops))
    decreases |ops|
  {
    if ops != [] {
      if ops[0].DetachOp? && ops[0].parent in g {
        RemovedNoNull(g[ops[0].parent], ops[0].child);
      }
      BuiltWithoutNull(Apply(g, ops[0]), ops[1..]);
    }
  }

  /** So dispatch leaves a graph built by adding and removing unchanged. */
  lemma BuiltUnchanged(g: Graph, ops: seq<Op>, a: Graph)
    requires NoNulls(g) && Tidied(ApplyAll(g, ops), a)
    ensures a == ApplyAll(g, ops)
  {
    BuiltWithoutNull(g, ops);
    TidiedNoNull(ApplyAll(g, ops), a);
  }

  /**
   After `addOscObject` the graph is acyclic, that is, dispatch that everyone rejects ends wherever it starts, exactly
   when it was before and the parent is not reachable from the object added.
   */
  lemma AttachDispatchable(g: Graph, p: nat, c: nat)
    requires Closed(Clean(g)) && p in g && c in g
    ensures var a := Apply(g, AttachOp(p, Some(c)));
            && (Dispatchable(a) <==> Dispatchable(g) && !Reaches(Clean(g), c, p))
            && ((forall o :: o in a ==> Ends(Clean(a), o)) <==> Dispatchable(a))
  {
    var a := Apply(g, AttachOp(p, Some(c)));
    NonNullConcat(g[p], [Some(c)]);
    assert NonNull([Some(c)]) == [c] + NonNull([Some(c)][1..]);
    forall x | x in g ensures Clean(a)[x] == Attach(Clean(g), p, c)[x] {
      assert Clean(a)[x] == NonNull(a[x]);
    }
    assert Clean(a) == Attach(Clean(g), p, c);
    assert Closed(Clean(a)) by {
      forall x: nat, y: nat | Edge(Clean(a), x, y) ensures y in Clean(a) {
        assert Edge(Clean(g), x, y) || y == c;
      }
    }
    AttachAcyclic(Clean(g), p, c);
    AllEndIff(Clean(a));
  }

  lemma {:induction false} RemovedMember(xs: Slots, c: Option<nat>, y: Option<nat>)
    requires y in Removed(xs, c)
    ensures y in xs
  {
    if c.Some? && xs != [] && xs[0] != c && y != xs[0] {
      assert y in Removed(xs[1..], c);
      RemovedMember(xs[1..], c, y);
    }
  }

  /** Taking attachments away never makes a graph cyclic. */
  lemma FewerLinks(n: Net, m: Net)
    requires Closed(n) && Acyclic(n) && m.Keys == n.Keys && forall x, y :: Edge(m, x, y) ==> Edge(n, x, y)
    ensures Closed(m) && Acyclic(m)
  {
    forall a, b | Edge(m, a, b) ensures !Reaches(m, b, a) {
      if p :| Path(m, p, b, a) { PathMonotone(m, n, p, b, a); }
    }
  }

  lemma DetachDispatchable(g: Graph, op: Op)
    requires Dispatchable(g) && !op.AttachOp?
    ensures Dispatchable(Apply(g, op))
  {
    var a := Apply(g, op);
    forall x: nat, y: nat | Edge(Clean(a), x, y) ensures Edge(Clean(g), x, y) {
      NonNullMember(a[x], y);
      NonNullMember(g[x], y);
      if op.DetachOp? && x == op.parent {
        RemovedMember(g[x], op.child, Some(y));
      }
    }
    FewerLinks(Clean(g), Clean(a));
  }

  /** Each add is of a known object from which the parent cannot be reached at that moment. */
  ghost predicate Careful(g: Graph, ops: seq<Op>)
    decreases |ops|
  {
    ops == [] ||
    (Sensible(g, ops[0]) && Careful(Apply(g, ops[0]), ops[1..]))
  }

  ghost predicate Sensible(g: Graph, op: Op) {
    op.AttachOp? && op.parent in g && op.child.Some? ==>
      op.child.value in g && !Reaches(Clean(g), op.child.value, op.parent)
  }

  /** Objects put together that way can be dispatched to, whatever is removed in between. */
  lemma {:induction false} BuiltDispatchable(g: Graph, ops: seq<Op>)
    requires Dispatchable(g) && Careful(g, ops)
    ensures Dispatchable(ApplyAll(g, ops))
    decreases |ops|
  {
    if ops != [] {
      var op := ops[0];
      if !op.AttachOp? {
        DetachDispatchable(g, op);
      } else if op.parent in g && op.child.Some? {
        AttachDispatchable(g, op.parent, op.child.value);
      } else if op.parent in g {
        assert Apply(g, op) == g;
      }
      BuiltDispatchable(Apply(g, op), ops[1..]);
    }
  }

  function AttachThenDetach(g: Graph, p: nat, c: nat): Graph {
    Apply(Apply(g, AttachOp(p, Some(c))), DetachOp(p, Some(c)))
  }

  /** In particular, what a dispatch leaves of such a graph is the graph. */
  lemma BuiltAfter(g: Graph, ops: seq<Op>, o: nat, h: seq<Handler>, decide: Decide)
    requires NoNulls(g) && Dispatchable(ApplyAll(g, ops)) && o in ApplyAll(g, ops)
    ensures After(ApplyAll(g, ops), o, h, decide) == ApplyAll(g, ops)
  {
    AfterFacts(ApplyAll(g, ops), o, h, decide);
    BuiltUnchanged(g, ops, After(ApplyAll(g, ops), o, h, decide));
  }

  /** Attaching an object that was not attached and detaching it again restores the graph, hence every dispatch. */
  lemma AttachDetach(g: Graph, p: nat, c: nat)
    requires p in g && Some(c) !in g[p]
    ensures AttachThenDetach(g, p, c) == g
  {
    AddRemove(g[p], c);
  }

  /** The same objects attached everywhere, in whatever order and number. */
  ghost predicate SameLinks(n: Net, m: Net) {
    n.Keys == m.Keys && forall x, y :: Edge(n, x, y) <==> Edge(m, x, y)
  }

  lemma SameLinksReach(n: Net, m: Net)
    requires SameLinks(n, m)
    ensures forall a, b :: Reaches(n, a, b) <==> Reaches(m, a, b)
  {
    forall a, b ensures Reaches(n, a, b) <==> Reaches(m, a, b) {
      if p :| Path(n, p, a, b) { PathMonotone(n, m, p, a, b); }
      if p :| Path(m, p, a, b) { PathMonotone(m, n, p, a, b); }
    }
  }

  /**
   If it was attached already, the vector comes back with the same entries in another order; the graph stays
   dispatchable, and stateless handlers give every message handed to any object the same result.
   */
  lemma AttachDetachAgain(g: Graph, p: nat, c: nat, o: nat, h: seq<Handler>, accepts: Handler -> bool)
    requires p in g && o in g && Dispatchable(g)
    ensures var a := AttachThenDetach(g, p, c);
            && a.Keys == g.Keys && multiset(a[p]) == multiset(g[p])
            && Dispatchable(a)
            && (Handled(PostOrder(Clean(a), o), h, (_, x) => accepts(x)) <==>
                Handled(PostOrder(Clean(g), o), h, (_, x) => accepts(x)))
  {
    var a := AttachThenDetach(g, p, c);
    AddRemoveEntries(g[p], c);
    forall x: nat, y: nat ensures Edge(Clean(g), x, y) <==> Edge(Clean(a), x, y) {
      if x in g {
        NonNullMember(g[x], y);
        NonNullMember(a[x], y);
        assert Some(y) in a[x] <==> Some(y) in multiset(a[x]);
        assert Some(y) in g[x] <==> Some(y) in multiset(g[x]);
      }
    }
    SameLinksReach(Clean(g), Clean(a));
    HandledIffReachable(Clean(g), o, h, accepts);
    HandledIffReachable(Clean(a), o, h, accepts);
  }
}
