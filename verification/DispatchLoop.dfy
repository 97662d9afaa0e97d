/** The dispatch loops of objects and receivers, step by step, against the order in which handlers are to be called. */
module DispatchLoop {
  import opened OscTypes
  import opened ObjectGraph
  import opened ObjectLists
  import opened Dispatch

  // One pass of the dispatch loop over a vector, on values

  /** After the first `i` objects of the vector `was` rejected the message, the vector being `xs` by now. */
  ghost predicate Passing(n: Net, was: Slots, xs: Slots, h: seq<Handler>, h': seq<Handler>, decide: Decide, i: nat) {
    var kids := NonNull(was);
    && Closed(n) && Acyclic(n) && (forall c :: c in kids ==> c in n)
    && NonNull(xs) == kids
    && i <= |xs| && i <= |kids| && NoNull(xs[..i])
    && (forall k :: i <= k ==> Sweep(xs, k) == Sweep(was, k))
    && h' == h + Forest(n, kids[..i]) && !Handled(Forest(n, kids[..i]), h, decide)
  }

  lemma PassingStart(n: Net, was: Slots, h: seq<Handler>, decide: Decide)
    requires Closed(n) && Acyclic(n) && forall c :: c in NonNull(was) ==> c in n
    ensures Passing(n, was, was, h, h, decide, 0)
  {
    assert NonNull(was)[..0] == [];
    assert h + [] == h;
  }

  /** The object under the iterator is the next one in order. */
  lemma PassingKid(n: Net, was: Slots, xs: Slots, h: seq<Handler>, h': seq<Handler>, decide: Decide, i: nat)
    requires Passing(n, was, xs, h, h', decide, i) && i < |xs| && xs[i].Some?
    ensures i < |NonNull(was)| && NonNull(was)[i] == xs[i].value
  {
    assert xs == xs[..i] + xs[i..];
    NonNullConcat(xs[..i], xs[i..]);
    NonNullFull(xs[..i]);
  }

  lemma PassingStops(n: Net, was: Slots, xs: Slots, h: seq<Handler>, h': seq<Handler>, decide: Decide, i: nat)
    requires Passing(n, was, xs, h, h', decide, i) && i < |xs| && xs[i].Some?
    requires xs[i].value in n && Handled(PostOrder(n, xs[i].value), h', decide)
    ensures var kids := NonNull(was);
            && Stops(n, kids, h, decide, i) && xs == Sweep(was, i)
            && Handled(Forest(n, kids), h, decide)
            && h + Calls(Forest(n, kids), h, decide) == h' + Calls(PostOrder(n, xs[i].value), h', decide)
            && Calls(Forest(n, kids), h, decide) ==
               Forest(n, kids[..i]) + Calls(PostOrder(n, xs[i].value), h', decide)
  {
    PassingKid(n, was, xs, h, h', decide, i);
    SweepIdle(xs, i);
    KidAccepts(n, NonNull(was), i, h, decide);
    Associative(h, Forest(n, NonNull(was)[..i]), Calls(PostOrder(n, xs[i].value), h', decide));
  }

  lemma PassingNext(n: Net, was: Slots, xs: Slots, h: seq<Handler>, h': seq<Handler>, decide: Decide, i: nat)
    requires Passing(n, was, xs, h, h', decide, i) && i < |xs| && xs[i].Some?
    requires xs[i].value in n && !Handled(PostOrder(n, xs[i].value), h', decide)
    ensures Passing(n, was, xs, h, h' + Calls(PostOrder(n, xs[i].value), h', decide), decide, i + 1)
    ensures Forest(n, NonNull(was)[..i + 1]) ==
            Forest(n, NonNull(was)[..i]) + Calls(PostOrder(n, xs[i].value), h', decide)
  {
    var kids := NonNull(was);
    PassingKid(n, was, xs, h, h', decide, i);
    KidRejects(n, kids, i, h, decide);
    Associative(h, Forest(n, kids[..i]), PostOrder(n, kids[i]));
    assert xs[..i + 1] == xs[..i] + [xs[i]];
  }

  lemma PassingErase(n: Net, was: Slots, xs: Slots, h: seq<Handler>, h': seq<Handler>, decide: Decide, i: nat)
    requires Passing(n, was, xs, h, h', decide, i) && i < |xs| && xs[i].None?
    ensures Passing(n, was, xs[..i] + xs[i + 1..], h, h', decide, i)
  {
    var ys := xs[..i] + xs[i + 1..];
    forall k: nat | i <= k ensures Sweep(ys, k) == Sweep(was, k) {
      SweepErase(xs, i, k);
    }
    assert xs == xs[..i] + xs[i..];
    NonNullConcat(xs[..i], xs[i..]);
    NonNullConcat(xs[..i], xs[i + 1..]);
    assert xs[i..][1..] == xs[i + 1..];
    assert ys[..i] == xs[..i];
  }

  lemma PassingEnds(n: Net, was: Slots, xs: Slots, h: seq<Handler>, h': seq<Handler>, decide: Decide, i: nat)
    requires Passing(n, was, xs, h, h', decide, i) && i == |xs|
    ensures var kids := NonNull(was);
            && i == |kids| && Stops(n, kids, h, decide, i) && xs == Sweep(was, i) && NoNull(xs)
            && h' == h + Forest(n, kids) && !Handled(Forest(n, kids), h, decide)
  {
    assert xs[..i] == xs;
    NonNullFull(xs);
    SweepIdle(xs, i);
    assert NonNull(was)[..i] == NonNull(was);
  }

  // What happens to the vectors of other objects meanwhile

  /** Everyone but `o`, whose vector is being iterated, is as the calls so far leave it. */
  ghost predicate Meanwhile(g: Graph, b: Graph, o: nat, calls: seq<Handler>) {
    && o in g && b.Keys == g.Keys && Clean(b) == Clean(g)
    && forall x :: x in g && x != o ==> b[x] == ErasedAt(g, x, calls, map[])
  }

  lemma ErasedEnded(g: Graph, a: Graph, o: nat, calls: seq<Handler>)
    requires o in g && a.Keys == g.Keys && a[o] == Sweep(g[o], |NonNull(g[o])|)
    requires forall x :: x in g && x != o ==> a[x] == ErasedAt(g, x, calls, map[])
    ensures a == Erased(g, calls + [Object(o)], map[])
  {
    forall x | x in g ensures a[x] == ErasedAt(g, x, calls + [Object(o)], map[]) {
      assert Object(x) in calls + [Object(o)] <==> Object(x) in calls || x == o;
    }
  }

  lemma ErasedStopped(g: Graph, a: Graph, o: nat, calls: seq<Handler>, trail: map<nat, nat>, k: nat)
    requires o in g && a.Keys == g.Keys && a[o] == Sweep(g[o], k) && Object(o) !in calls
    requires forall x :: x in g && x != o ==> a[x] == ErasedAt(g, x, calls, trail)
    ensures a == Erased(g, calls, trail[o := k])
  {
    forall x | x in g ensures a[x] == ErasedAt(g, x, calls, trail[o := k]) {
    }
  }

  lemma ErasedReceiver(g: Graph, calls: seq<Handler>, trail: map<nat, nat>)
    ensures Erased(g, calls + [Receiver], trail) == Erased(g, calls, trail)
  {
    forall x | x in g ensures ErasedAt(g, x, calls + [Receiver], trail) == ErasedAt(g, x, calls, trail) {
      assert Object(x) in calls + [Receiver] <==> Object(x) in calls;
    }
  }

  /** Erasing on top of what was erased before. */
  lemma ErasedMore(g: Graph, b: Graph, x: nat, calls: seq<Handler>, more: seq<Handler>, trail: map<nat, nat>)
    requires x in g && x in b && b[x] == ErasedAt(g, x, calls, map[])
    ensures ErasedAt(b, x, more, trail) == ErasedAt(g, x, calls + more, trail)
  {
    if Object(x) in calls {
      SweepAll(g[x], |NonNull(g[x])|);
      SweepFull(b[x], |NonNull(b[x])|);
      if x in trail {
        SweepFull(b[x], trail[x]);
      }
    }
  }

  lemma MeanwhileKid(g: Graph, b: Graph, o: nat, c: nat, calls: seq<Handler>, h: seq<Handler>, decide: Decide)
    requires Dispatchable(g) && Meanwhile(g, b, o, calls) && Edge(Clean(g), o, c) && c in g
    ensures var a, more, trail := After(b, c, h, decide), Calls(PostOrder(Clean(g), c), h, decide), Trail(Clean(g), c, h, decide);
            && a.Keys == g.Keys && Clean(a) == Clean(g) && a[o] == b[o] && o !in trail
            && forall x :: x in g && x != o ==> a[x] == ErasedAt(g, x, calls + more, trail)
  {
    var more, trail := Calls(PostOrder(Clean(g), c), h, decide), Trail(Clean(g), c, h, decide);
    AfterFacts(b, c, h, decide);
    forall x | x in g && x != o ensures After(b, c, h, decide)[x] == ErasedAt(g, x, calls + more, trail) {
      ErasedMore(g, b, x, calls, more, trail);
    }
    if o in trail {
      TrailReachable(Clean(g), c, h, decide, o);
    }
  }

  lemma CleanSame(b: Graph, o: nat, xs: Slots)
    requires o in b && NonNull(xs) == NonNull(b[o])
    ensures Clean(b[o := xs]) == Clean(b)
  {
  }

  lemma MeanwhileErase(g: Graph, b: Graph, o: nat, xs: Slots, calls: seq<Handler>)
    requires Meanwhile(g, b, o, calls) && NonNull(xs) == NonNull(b[o])
    ensures Meanwhile(g, b[o := xs], o, calls)
  {
    CleanSame(b, o, xs);
    var a := b[o := xs];
    assert a.Keys == g.Keys;
    assert forall x :: x in g && x != o ==> a[x] == b[x];
  }

  /** An object is not called on the way to itself. */
  lemma OwnNotCalled(n: Net, o: nat, h: seq<Handler>, decide: Decide)
    requires Closed(n) && Acyclic(n) && o in n && forall c :: c in n[o] ==> c in n
    ensures Object(o) !in Calls(Forest(n, n[o]), h, decide)
  {
    ForestMembers(n, n[o], o);
    forall c | c in n[o] ensures Object(o) !in PostOrder(n, c) {
      assert Edge(n, o, c);
      PostOrderMembers(n, c, o);
    }
    StopsAtFirst(Forest(n, n[o]), h, decide);
  }

  // The loop of one object

  /** Dispatch of a message to `o`, from the graph `g` to the graph `a`. */
  ghost predicate Dispatched(g: Graph, a: Graph, o: nat, h: seq<Handler>, h': seq<Handler>, handled: bool, decide: Decide)
    requires Dispatchable(g) && o in g
  {
    var order := PostOrder(Clean(g), o);
    // handlers are called in post-order, up to and including the first that accepts
    && handled == Handled(order, h, decide)
    && h' == h + Calls(order, h, decide)
    // the NULLs passed on the way are erased, and nothing else changes
    && a == After(g, o, h, decide)
  }

  /** In the loop of `o`, at its `i`-th object. */
  ghost predicate Looping(g: Graph, b: Graph, o: nat, h: seq<Handler>, h': seq<Handler>, decide: Decide, i: nat) {
    && Dispatchable(g) && o in g && o in b
    && Passing(Clean(g), g[o], b[o], h, h', decide, i)
    && Meanwhile(g, b, o, Forest(Clean(g), Clean(g)[o][..i]))
  }

  lemma LoopStarts(g: Graph, o: nat, h: seq<Handler>, decide: Decide)
    requires Dispatchable(g) && o in g
    ensures Looping(g, g, o, h, h, decide, 0)
  {
    PostOrderUnfolds(Clean(g), o);
    PassingStart(Clean(g), g[o], h, decide);
    assert Clean(g)[o][..0] == [];
  }

  lemma LoopKid(g: Graph, b: Graph, o: nat, h: seq<Handler>, h': seq<Handler>, decide: Decide, i: nat)
    requires Looping(g, b, o, h, h', decide, i) && i < |b[o]| && b[o][i].Some?
    ensures Dispatchable(b) && b[o][i].value in b && Edge(Clean(g), o, b[o][i].value)
    ensures Height(Clean(b), b[o][i].value) < Height(Clean(g), o)
  {
    PassingKid(Clean(g), g[o], b[o], h, h', decide, i);
    HeightDecreases(Clean(g), o, b[o][i].value);
  }

  lemma LoopRefused(g: Graph, b: Graph, a: Graph, o: nat, h: seq<Handler>, h': seq<Handler>, h'': seq<Handler>, decide: Decide, i: nat)
    requires Looping(g, b, o, h, h', decide, i) && i < |b[o]| && b[o][i].Some?
    requires Dispatchable(b) && b[o][i].value in b && Dispatched(b, a, b[o][i].value, h', h'', false, decide)
    ensures Looping(g, a, o, h, h'', decide, i + 1) && a[o] == b[o]
  {
    var n, c := Clean(g), b[o][i].value;
    LoopKid(g, b, o, h, h', decide, i);
    MeanwhileKid(g, b, o, c, Forest(n, n[o][..i]), h', decide);
    RefusedNoTrail(n, c, h', decide);
    PassingNext(n, g[o], b[o], h, h', decide, i);
  }

  lemma RefusedNoTrail(n: Net, o: nat, h: seq<Handler>, decide: Decide)
    requires Closed(n) && Acyclic(n) && o in n && !Handled(PostOrder(n, o), h, decide)
    ensures Trail(n, o, h, decide) == map[]
  {
    PostOrderUnfolds(n, o);
    OfferLast(Forest(n, n[o]), Object(o), h, decide);
    NoTrail(n, n[o], h, decide);
  }

  lemma LoopErased(g: Graph, b: Graph, o: nat, h: seq<Handler>, h': seq<Handler>, decide: Decide, i: nat)
    requires Looping(g, b, o, h, h', decide, i) && i < |b[o]| && b[o][i].None?
    ensures Looping(g, b[o := b[o][..i] + b[o][i + 1..]], o, h, h', decide, i)
  {
    PassingErase(Clean(g), g[o], b[o], h, h', decide, i);
    MeanwhileErase(g, b, o, b[o][..i] + b[o][i + 1..], Forest(Clean(g), Clean(g)[o][..i]));
  }

  lemma LoopTaken(g: Graph, b: Graph, a: Graph, o: nat, h: seq<Handler>, h': seq<Handler>, h'': seq<Handler>, decide: Decide, i: nat)
    requires Looping(g, b, o, h, h', decide, i) && i < |b[o]| && b[o][i].Some?
    requires Dispatchable(b) && b[o][i].value in b && Dispatched(b, a, b[o][i].value, h', h'', true, decide)
    ensures Dispatched(g, a, o, h, h'', true, decide) && a[o] == b[o]
  {
    var n, c := Clean(g), b[o][i].value;
    TakenOffers(g, b, o, h, h', decide, i);
    LoopKid(g, b, o, h, h', decide, i);
    assert a == After(g, o, h, decide) && a[o] == b[o] by {
      TakenErases(g, b, o, h, h', decide, i);
    }
  }

  /** The calls of `o` are those before the `i`-th object and those of the `i`-th object itself. */
  lemma TakenOffers(g: Graph, b: Graph, o: nat, h: seq<Handler>, h': seq<Handler>, decide: Decide, i: nat)
    requires Looping(g, b, o, h, h', decide, i) && i < |b[o]| && b[o][i].Some? && b[o][i].value in g
    requires Handled(PostOrder(Clean(g), b[o][i].value), h', decide)
    ensures var n := Clean(g);
            var f, more := Forest(n, n[o][..i]), Calls(PostOrder(n, b[o][i].value), h', decide);
            && Stops(n, n[o], h, decide, i) && b[o] == Sweep(g[o], i)
            && Handled(PostOrder(n, o), h, decide)
            && Calls(PostOrder(n, o), h, decide) == f + more == Calls(Forest(n, n[o]), h, decide)
            && h + Calls(PostOrder(n, o), h, decide) == h' + more
  {
    var n := Clean(g);
    PostOrderUnfolds(n, o);
    OfferLast(Forest(n, n[o]), Object(o), h, decide);
    PassingStops(n, g[o], b[o], h, h', decide, i);
  }

  lemma TakenErases(g: Graph, b: Graph, o: nat, h: seq<Handler>, h': seq<Handler>, decide: Decide, i: nat)
    requires Looping(g, b, o, h, h', decide, i) && i < |b[o]| && b[o][i].Some? && b[o][i].value in g
    requires Dispatchable(b) && Handled(PostOrder(Clean(g), b[o][i].value), h', decide)
    ensures After(b, b[o][i].value, h', decide) == After(g, o, h, decide)
    ensures After(g, o, h, decide)[o] == b[o]
  {
    var n, c, a := Clean(g), b[o][i].value, After(b, b[o][i].value, h', decide);
    var calls := Calls(PostOrder(n, o), h, decide);
    LoopKid(g, b, o, h, h', decide, i);
    PassingKid(n, g[o], b[o], h, h', decide, i);
    TakenOffers(g, b, o, h, h', decide, i);
    MeanwhileKid(g, b, o, c, Forest(n, n[o][..i]), h', decide);
    OwnNotCalled(n, o, h, decide);
    ErasedStopped(g, a, o, calls, Trail(n, c, h', decide), i);
    TrailTaken(n, o, h, decide, i);
  }

  lemma TrailTaken(n: Net, o: nat, h: seq<Handler>, decide: Decide, i: nat)
    requires Closed(n) && Acyclic(n) && o in n && (forall c :: c in n[o] ==> c in n)
    requires i < |n[o]| && Stops(n, n[o], h, decide, i)
    ensures Trail(n, o, h, decide) == Trail(n, n[o][i], h + Forest(n, n[o][..i]), decide)[o := i]
  {
    StopsTaker(n, n[o], h, decide, 0, i);
  }

  lemma LoopEnded(g: Graph, a: Graph, o: nat, h: seq<Handler>, h': seq<Handler>, decide: Decide, i: nat)
    requires Looping(g, a, o, h, h', decide, i) && i == |a[o]|
    ensures Dispatched(g, a, o, h, h' + [Object(o)], decide(h', Object(o)), decide)
  {
    var n := Clean(g);
    PostOrderUnfolds(n, o);
    OfferLast(Forest(n, n[o]), Object(o), h, decide);
    PassingEnds(n, g[o], a[o], h, h', decide, i);
    assert n[o][..i] == n[o];
    NoTrail(n, n[o], h, decide);
    Associative(h, Forest(n, n[o]), [Object(o)]);
    ErasedEnded(g, a, o, Forest(n, n[o]));
    assert Trail(n, o, h, decide) == map[];
  }

  // The loop of the receiver, over its own vector

  /** Dispatch of a message by a receiver whose vector is `was`, afterwards `xs`. */
  ghost predicate Received(g: Graph, a: Graph, was: Slots, xs: Slots, calls: seq<Handler>, handled: bool, decide: Decide)
    requires Dispatchable(g) && forall c :: c in NonNull(was) ==> c in g
  {
    var n, kids := Clean(g), NonNull(was);
    var order := Forest(n, kids) + [Receiver];
    // handlers are called in post-order, the receiver's last, up to and including the first that accepts
    && handled == Handled(order, [], decide)
    && calls == Calls(order, [], decide)
    // the NULLs passed on the way are erased, and nothing else changes
    && a == Erased(g, calls, ForestTrail(n, kids, [], decide))
    && xs == Sweep(was, Taker(n, kids, [], decide, 0))
  }

  /** In the loop of the receiver, at its `i`-th object. */
  ghost predicate Receiving(g: Graph, b: Graph, was: Slots, xs: Slots, calls: seq<Handler>, decide: Decide, i: nat) {
    && Dispatchable(g)
    && Passing(Clean(g), was, xs, [], calls, decide, i)
    && b == Erased(g, calls, map[])
  }

  lemma ReceivingStarts(g: Graph, was: Slots, decide: Decide)
    requires Dispatchable(g) && forall c :: c in NonNull(was) ==> c in g
    ensures Receiving(g, g, was, was, [], decide, 0)
  {
    PassingStart(Clean(g), was, [], decide);
  }

  lemma ReceivingKid(g: Graph, b: Graph, was: Slots, xs: Slots, calls: seq<Handler>, decide: Decide, i: nat)
    requires Receiving(g, b, was, xs, calls, decide, i) && i < |xs| && xs[i].Some?
    ensures Dispatchable(b) && Clean(b) == Clean(g) && xs[i].value in b
  {
    ErasedTidied(g, calls, map[]);
    TidiedClean(g, b);
    PassingKid(Clean(g), was, xs, [], calls, decide, i);
    assert NonNull(was)[i] in Clean(g);
  }

  /** Dispatch to one more object, on top of what was erased before. */
  lemma ReceivingMore(g: Graph, b: Graph, calls: seq<Handler>, c: nat, decide: Decide)
    requires Dispatchable(g) && b == Erased(g, calls, map[]) && Dispatchable(b) && Clean(b) == Clean(g) && c in b
    ensures After(b, c, calls, decide) ==
            Erased(g, calls + Calls(PostOrder(Clean(g), c), calls, decide), Trail(Clean(g), c, calls, decide))
  {
    forall x | x in g
      ensures ErasedAt(b, x, Calls(PostOrder(Clean(g), c), calls, decide), Trail(Clean(g), c, calls, decide)) ==
              ErasedAt(g, x, calls + Calls(PostOrder(Clean(g), c), calls, decide), Trail(Clean(g), c, calls, decide))
    {
      ErasedMore(g, b, x, calls, Calls(PostOrder(Clean(g), c), calls, decide), Trail(Clean(g), c, calls, decide));
    }
  }

  lemma ReceivingRefused(g: Graph, b: Graph, a: Graph, was: Slots, xs: Slots, calls: seq<Handler>, calls': seq<Handler>, decide: Decide, i: nat)
    requires Receiving(g, b, was, xs, calls, decide, i) && i < |xs| && xs[i].Some?
    requires Dispatchable(b) && xs[i].value in b && Dispatched(b, a, xs[i].value, calls, calls', false, decide)
    ensures Receiving(g, a, was, xs, calls', decide, i + 1)
  {
    ReceivingKid(g, b, was, xs, calls, decide, i);
    PassingNext(Clean(g), was, xs, [], calls, decide, i);
    ReceivingMore(g, b, calls, xs[i].value, decide);
    RefusedNoTrail(Clean(g), xs[i].value, calls, decide);
  }

  lemma ReceivingTaken(g: Graph, b: Graph, a: Graph, was: Slots, xs: Slots, calls: seq<Handler>, calls': seq<Handler>, decide: Decide, i: nat)
    requires Receiving(g, b, was, xs, calls, decide, i) && i < |xs| && xs[i].Some?
    requires Dispatchable(b) && xs[i].value in b && Dispatched(b, a, xs[i].value, calls, calls', true, decide)
    ensures forall c :: c in NonNull(was) ==> c in g
    ensures Received(g, a, was, xs, calls', true, decide)
  {
    var n, kids := Clean(g), NonNull(was);
    ReceivingKid(g, b, was, xs, calls, decide, i);
    PassingKid(n, was, xs, [], calls, decide, i);
    PassingStops(n, was, xs, [], calls, decide, i);
    OfferLast(Forest(n, kids), Receiver, [], decide);
    StopsTaker(n, kids, [], decide, 0, i);
    ReceivingMore(g, b, calls, xs[i].value, decide);
    assert [] + Forest(n, kids[..i]) == calls;
  }

  lemma ReceivingErased(g: Graph, b: Graph, was: Slots, xs: Slots, calls: seq<Handler>, decide: Decide, i: nat)
    requires Receiving(g, b, was, xs, calls, decide, i) && i < |xs| && xs[i].None?
    ensures Receiving(g, b, was, xs[..i] + xs[i + 1..], calls, decide, i)
  {
    PassingErase(Clean(g), was, xs, [], calls, decide, i);
  }

  lemma ReceivingEnded(g: Graph, a: Graph, was: Slots, xs: Slots, calls: seq<Handler>, decide: Decide, i: nat)
    requires Receiving(g, a, was, xs, calls, decide, i) && i == |xs|
    ensures forall c :: c in NonNull(was) ==> c in g
    ensures Received(g, a, was, xs, calls + [Receiver], decide(calls, Receiver), decide)
  {
    var n, kids := Clean(g), NonNull(was);
    PassingEnds(n, was, xs, [], calls, decide, i);
    assert [] + Forest(n, kids) == Forest(n, kids) == calls;
    OfferLast(calls, Receiver, [], decide);
    assert [] + calls == calls;
    assert Handled(calls + [Receiver], [], decide) == decide(calls, Receiver);
    assert Calls(calls + [Receiver], [], decide) == calls + [Receiver];
    assert Taker(n, kids, [], decide, 0) == i by { NoTrail(n, kids, [], decide); }
    assert ForestTrail(n, kids, [], decide) == map[];
    ErasedReceiver(g, calls, map[]);
  }

  /** Some object reachable from the receiver's vector accepts. */
  ghost predicate SomeAccepts(g: Graph, was: Slots, accepts: Handler -> bool) {
    exists c: nat, x: nat :: Some(c) in was && Reaches(Clean(g), c, x) && accepts(Object(x))
  }

  lemma ForestAccepts(g: Graph, was: Slots, accepts: Handler -> bool)
    requires Dispatchable(g) && forall c :: c in NonNull(was) ==> c in g
    ensures var order := Forest(Clean(g), NonNull(was));
            && (Handled(order, [], (_, x) => accepts(x)) <==> SomeAccepts(g, was, accepts))
            && forall y :: y in order ==> y.Object?
  {
    var n, kids := Clean(g), NonNull(was);
    StatelessHandled(Forest(n, kids), [], accepts);
    forall c | c in kids ensures forall y :: y in PostOrder(n, c) ==> y.Object? { OnlyObjects(n, c); }
    OnlyObjectsAll(n, kids);
    forall x: nat ensures Object(x) in Forest(n, kids) <==> exists c: nat :: Some(c) in was && Reaches(n, c, x) {
      ForestMembers(n, kids, x);
      forall c: nat ensures c in kids <==> Some(c) in was { NonNullMember(was, c); }
      forall c | c in kids ensures Object(x) in PostOrder(n, c) <==> Reaches(n, c, x) { PostOrderMembers(n, c, x); }
    }
    if y :| y in Forest(n, kids) && accepts(y) {
      assert y == Object(y.id);
    }
  }

  lemma AskedLast(order: seq<Handler>, decide: Decide)
    requires forall y :: y in order ==> y.Object?
    ensures var calls := Calls(order + [Receiver], [], decide);
            && (Receiver in calls <==> !Handled(order, [], decide))
            && forall i :: 0 <= i < |calls| - 1 ==> calls[i].Object?
  {
    OfferLast(order, Receiver, [], decide);
    StopsAtFirst(order, [], decide);
    assert forall i :: 0 <= i < |order| ==> order[i] in order;
  }

  /** With stateless handlers: handled iff a reachable object or the receiver accepts, and the receiver is asked last. */
  lemma ReceiverLast(g: Graph, a: Graph, was: Slots, xs: Slots, calls: seq<Handler>, handled: bool, accepts: Handler -> bool)
    requires Dispatchable(g) && forall c :: c in NonNull(was) ==> c in g
    requires Received(g, a, was, xs, calls, handled, (_, x) => accepts(x))
    ensures handled <==> SomeAccepts(g, was, accepts) || accepts(Receiver)
    ensures Receiver in calls <==> !SomeAccepts(g, was, accepts)
    ensures forall i :: 0 <= i < |calls| - 1 ==> calls[i].Object?
  {
    var order := Forest(Clean(g), NonNull(was));
    ForestAccepts(g, was, accepts);
    AskedLast(order, (_, x) => accepts(x));
    OfferLast(order, Receiver, [], (_, x) => accepts(x));
  }

  /** Without NULLs, in the graph or in its own vector, a receiver leaves both as they are. */
  lemma ReceivedUnchanged(g: Graph, a: Graph, was: Slots, xs: Slots, calls: seq<Handler>, handled: bool, decide: Decide)
    requires Dispatchable(g) && forall c :: c in NonNull(was) ==> c in g
    requires Received(g, a, was, xs, calls, handled, decide) && NoNulls(g) && NoNull(was)
    ensures a == g && xs == was
  {
    var n, kids := Clean(g), NonNull(was);
    ErasedTidied(g, calls, ForestTrail(n, kids, [], decide));
    TidiedNoNull(g, a);
    SweepFull(was, Taker(n, kids, [], decide, 0));
  }

  /** The calls that change the receiver's vector. */
  datatype Change = Add(child: Option<nat>) | Remove(child: Option<nat>) | RemoveAll

  function Changed(xs: Slots, changes: seq<Change>): Slots
    decreases |changes|
  {
    if changes == [] then xs else
    Changed(match changes[0] case Add(c) => Added(xs, c) case Remove(c) => Removed(xs, c) case RemoveAll => [], changes[1..])
  }

  lemma {:induction false} ChangedNoNull(xs: Slots, changes: seq<Change>)
    requires NoNull(xs)
    ensures NoNull(Changed(xs, changes))
    decreases |changes|
  {
    if changes != [] {
      if changes[0].Remove? {
        RemovedNoNull(xs, changes[0].child);
      }
      var ys := match changes[0] case Add(c) => Added(xs, c) case Remove(c) => Removed(xs, c) case RemoveAll => [];
      ChangedNoNull(ys, changes[1..]);
    }
  }

  /** So a receiver built by adding and removing, over objects built that way, is left as it is by every message. */
  lemma BuiltReceived(g: Graph, ops: seq<Op>, changes: seq<Change>, a: Graph, xs: Slots, calls: seq<Handler>, handled: bool, decide: Decide)
    requires NoNulls(g) && Dispatchable(ApplyAll(g, ops))
    requires forall c :: c in NonNull(Changed([], changes)) ==> c in ApplyAll(g, ops)
    requires Received(ApplyAll(g, ops), a, Changed([], changes), xs, calls, handled, decide)
    ensures a == ApplyAll(g, ops) && xs == Changed([], changes)
  {
    BuiltWithoutNull(g, ops);
    ChangedNoNull([], changes);
    ReceivedUnchanged(ApplyAll(g, ops), a, Changed([], changes), xs, calls, handled, decide);
  }
}
