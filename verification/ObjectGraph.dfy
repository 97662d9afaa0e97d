/** Attachment graphs of OSC objects: acyclicity, and the order in which dispatch visits them. */
module ObjectGraph {
  import opened OscTypes

  /** The objects attached to each object, in order. */
  type Net = map<nat, seq<nat>>

  predicate Edge(n: Net, a: nat, b: nat) {
    a in n && b in n[a]
  }

  /** Attached objects belong to the graph. */
  ghost predicate Closed(n: Net) {
    forall a, b :: Edge(n, a, b) ==> b in n
  }

  ghost predicate Path(n: Net, p: seq<nat>, a: nat, b: nat) {
    && |p| > 0 && p[0] == a && p[|p| - 1] == b
    && forall i :: 0 <= i < |p| - 1 ==> Edge(n, p[i], p[i + 1])
  }

  ghost predicate Reaches(n: Net, a: nat, b: nat) {
    exists p :: Path(n, p, a, b)
  }

  /** No chain of attachments leads back to where it started. */
  ghost predicate Acyclic(n: Net) {
    forall a, b :: Edge(n, a, b) ==> !Reaches(n, b, a)
  }

  // Reachability

  lemma ReachesSelf(n: Net, a: nat)
    ensures Reaches(n, a, a)
  {
    assert Path(n, [a], a, a);
  }

  lemma ReachesVia(n: Net, a: nat, b: nat, c: nat)
    requires Edge(n, a, b) && Reaches(n, b, c)
    ensures Reaches(n, a, c)
  {
    var p :| Path(n, p, b, c);
    assert Path(n, [a] + p, a, c);
  }

  lemma {:induction false} ReachesTrans(n: Net, a: nat, b: nat, c: nat)
    requires Reaches(n, a, b) && Reaches(n, b, c)
    ensures Reaches(n, a, c)
  {
    var p :| Path(n, p, a, b);
    PathTrans(n, p, a, b, c);
  }

  lemma {:induction false} PathTrans(n: Net, p: seq<nat>, a: nat, b: nat, c: nat)
    requires Path(n, p, a, b) && Reaches(n, b, c)
    ensures Reaches(n, a, c)
    decreases |p|
  {
    if |p| > 1 {
      assert Edge(n, p[0], p[1]);
      assert Path(n, p[1..], p[1], b);
      PathTrans(n, p[1..], p[1], b, c);
      ReachesVia(n, a, p[1], c);
    }
  }

  lemma ReachesFirst(n: Net, a: nat, c: nat) returns (b: nat)
    requires Reaches(n, a, c) && a != c
    ensures Edge(n, a, b) && Reaches(n, b, c)
  {
    var p :| Path(n, p, a, c);
    b := p[1];
    assert Edge(n, p[0], p[1]);
    assert Path(n, p[1..], b, c);
  }

  // Ranks

  /** A number per object that strictly decreases along attachments. */
  ghost predicate Ranked(n: Net, rank: map<nat, nat>) {
    forall a, b :: Edge(n, a, b) ==> a in rank && b in rank && rank[b] < rank[a]
  }

  ghost function Below(n: Net, a: nat): set<nat> {
    set b | b in n && Reaches(n, a, b)
  }

  /** The canonical rank: how many objects a message handed to `a` can come to. */
  ghost function Height(n: Net, a: nat): nat {
    |Below(n, a)|
  }

  lemma {:induction false} SubsetSize(a: set<nat>, b: set<nat>)
    requires a <= b
    ensures |a| <= |b|
    decreases a
  {
    if a != {} {
      var x :| x in a;
      SubsetSize(a - {x}, b - {x});
    }
  }

  lemma HeightDecreases(n: Net, a: nat, b: nat)
    requires Edge(n, a, b) && a in n && !Reaches(n, b, a)
    ensures Height(n, b) < Height(n, a)
  {
    ReachesSelf(n, a);
    forall x | x in Below(n, b) ensures x in Below(n, a) - {a} {
      ReachesVia(n, a, b, x);
    }
    SubsetSize(Below(n, b), Below(n, a) - {a});
  }

  lemma {:induction false} RankDescends(n: Net, rank: map<nat, nat>, p: seq<nat>, a: nat, b: nat)
    requires Ranked(n, rank) && Path(n, p, a, b) && a in rank
    ensures b in rank && rank[b] <= rank[a]
    decreases |p|
  {
    if |p| > 1 {
      assert Edge(n, p[0], p[1]);
      assert Path(n, p[1..], p[1], b);
      RankDescends(n, rank, p[1..], p[1], b);
    }
  }

  lemma RankedAcyclic(n: Net, rank: map<nat, nat>)
    requires Ranked(n, rank)
    ensures Acyclic(n)
  {
    forall a, b | Edge(n, a, b) ensures !Reaches(n, b, a) {
      if Reaches(n, b, a) {
        var p :| Path(n, p, b, a);
        RankDescends(n, rank, p, b, a);
      }
    }
  }

  /** Dispatch has a termination measure exactly when the attachments are acyclic. */
  lemma AcyclicIffRanked(n: Net)
    requires Closed(n)
    ensures Acyclic(n) <==> exists rank :: Ranked(n, rank)
  {
    if Acyclic(n) {
      var rank := map a | a in n :: Height(n, a);
      forall a, b | Edge(n, a, b) ensures a in rank && b in rank && rank[b] < rank[a] {
        HeightDecreases(n, a, b);
      }
      assert Ranked(n, rank);
    }
    if rank :| Ranked(n, rank) {
      RankedAcyclic(n, rank);
    }
  }

  // Termination of dispatch

  /** Dispatch from `o` with every handler rejecting ends, its calls nested at most `d` deep. */
  ghost predicate EndsWithin(n: Net, o: nat, d: nat)
    decreases d
  {
    d > 0 && o in n && forall c :: c in n[o] ==> EndsWithin(n, c, d - 1)
  }

  ghost predicate Ends(n: Net, o: nat) {
    exists d :: EndsWithin(n, o, d)
  }

  /** No cycle can be reached from `o`. */
  ghost predicate AcyclicFrom(n: Net, o: nat) {
    forall a, b :: Reaches(n, o, a) && Edge(n, a, b) ==> !Reaches(n, b, a)
  }

  lemma {:induction false} EndsDeeper(n: Net, o: nat, d: nat)
    requires EndsWithin(n, o, d)
    ensures EndsWithin(n, o, d + 1)
    decreases d
  {
    forall c | c in n[o] ensures EndsWithin(n, c, d) {
      EndsDeeper(n, c, d - 1);
    }
  }

  lemma {:induction false} EndsOnPath(n: Net, p: seq<nat>, o: nat, x: nat, d: nat)
    requires EndsWithin(n, o, d) && Path(n, p, o, x)
    ensures EndsWithin(n, x, d)
    decreases |p|
  {
    if |p| > 1 {
      assert Edge(n, p[0], p[1]);
      assert Path(n, p[1..], p[1], x);
      EndsOnPath(n, p[1..], p[1], x, d - 1);
      EndsDeeper(n, x, d - 1);
    }
  }

  lemma {:induction false} CycleNeverEnds(n: Net, a: nat, b: nat, d: nat)
    requires Edge(n, a, b) && Reaches(n, b, a)
    ensures !EndsWithin(n, a, d)
    decreases d
  {
    if EndsWithin(n, a, d) {
      var p :| Path(n, p, b, a);
      EndsOnPath(n, p, b, a, d - 1);
      CycleNeverEnds(n, a, b, d - 1);
    }
  }

  lemma {:induction false} AcyclicEnds(n: Net, o: nat)
    requires Closed(n) && o in n && AcyclicFrom(n, o)
    ensures EndsWithin(n, o, Height(n, o))
    decreases Height(n, o)
  {
    ReachesSelf(n, o);
    assert o in Below(n, o);
    forall c | c in n[o] ensures EndsWithin(n, c, Height(n, o) - 1) {
      assert Edge(n, o, c);
      HeightDecreases(n, o, c);
      forall a, b | Reaches(n, c, a) && Edge(n, a, b) ensures !Reaches(n, b, a) {
        ReachesVia(n, o, c, a);
      }
      AcyclicEnds(n, c);
      EndsUpTo(n, c, Height(n, c), Height(n, o) - 1);
    }
  }

  lemma {:induction false} EndsUpTo(n: Net, o: nat, d: nat, e: nat)
    requires EndsWithin(n, o, d) && d <= e
    ensures EndsWithin(n, o, e)
    decreases e - d
  {
    if d < e {
      EndsDeeper(n, o, d);
      EndsUpTo(n, o, d + 1, e);
    }
  }

  /** With every handler rejecting, dispatch from `o` ends exactly when no cycle can be reached from `o`. */
  lemma EndsIff(n: Net, o: nat)
    requires Closed(n) && o in n
    ensures Ends(n, o) <==> AcyclicFrom(n, o)
  {
    if AcyclicFrom(n, o) {
      AcyclicEnds(n, o);
    }
    if d :| EndsWithin(n, o, d) {
      forall a, b | Reaches(n, o, a) && Edge(n, a, b) ensures !Reaches(n, b, a) {
        var p :| Path(n, p, o, a);
        EndsOnPath(n, p, o, a, d);
        if Reaches(n, b, a) {
          CycleNeverEnds(n, a, b, d);
        }
      }
    }
  }

  /** It ends from everywhere exactly when the attachments are acyclic. */
  lemma AllEndIff(n: Net)
    requires Closed(n)
    ensures (forall o :: o in n ==> Ends(n, o)) <==> Acyclic(n)
  {
    forall o | o in n ensures Ends(n, o) <==> AcyclicFrom(n, o) {
      EndsIff(n, o);
    }
    if forall o :: o in n ==> Ends(n, o) {
      forall a, b | Edge(n, a, b) ensures !Reaches(n, b, a) {
        ReachesSelf(n, a);
        assert AcyclicFrom(n, a);
      }
    }
  }

  // Attaching

  function Attach(n: Net, p: nat, c: nat): Net
    requires p in n
  {
    n[p := n[p] + [c]]
  }

  lemma {:induction false} PathMonotone(n: Net, m: Net, p: seq<nat>, a: nat, b: nat)
    requires Path(n, p, a, b)
    requires forall x, y :: Edge(n, x, y) ==> Edge(m, x, y)
    ensures Reaches(m, a, b)
  {
    assert Path(m, p, a, b);
  }

  /** `addOscObject` keeps the graph acyclic exactly when the parent is not reachable from the object added. */
  lemma AttachAcyclic(n: Net, p: nat, c: nat)
    requires Closed(n) && p in n && c in n
    ensures Acyclic(Attach(n, p, c)) <==> Acyclic(n) && !Reaches(n, c, p)
  {
    var m := Attach(n, p, c);
    assert forall x, y :: Edge(n, x, y) ==> Edge(m, x, y);
    if Acyclic(m) {
      forall a, b | Edge(n, a, b) ensures !Reaches(n, b, a) {
        if Reaches(n, b, a) {
          var q :| Path(n, q, b, a);
          PathMonotone(n, m, q, b, a);
        }
      }
      if Reaches(n, c, p) {
        var q :| Path(n, q, c, p);
        PathMonotone(n, m, q, c, p);
        assert Edge(m, p, c);
      }
    }
    if Acyclic(n) && !Reaches(n, c, p) {
      LiftedRank(n, p, c);
    }
  }

  /** Lifting everything that `c` does not reach above `c` ranks the new attachment too. */
  lemma LiftedRank(n: Net, p: nat, c: nat)
    requires Closed(n) && p in n && c in n && Acyclic(n) && !Reaches(n, c, p)
    ensures Acyclic(Attach(n, p, c))
  {
    var m := Attach(n, p, c);
    var rank := map a | a in n :: Height(n, a) + if Reaches(n, c, a) then 0 else Height(n, c) + 1;
    forall a, b | Edge(m, a, b) ensures a in rank && b in rank && rank[b] < rank[a] {
      ReachesSelf(n, c);
      if Edge(n, a, b) {
        HeightDecreases(n, a, b);
        if Reaches(n, c, a) {
          ReachesSelf(n, b);
          ReachesVia(n, a, b, b);
          ReachesTrans(n, c, a, b);
        }
      }
    }
    RankedAcyclic(m, rank);
  }

  // Visiting order

  datatype Handler = Object(id: nat) | Receiver

  /** The handlers of the first `i` objects attached to `o`, children before parents. */
  ghost function Visit(n: Net, o: nat, i: nat): seq<Handler>
    requires Closed(n) && Acyclic(n) && o in n && i <= |n[o]|
    decreases Height(n, o), i
  {
    if i == 0 then [] else
    var c := n[o][i - 1];
    assert Edge(n, o, c);
    HeightDecreases(n, o, c);
    Visit(n, o, i - 1) + PostOrder(n, c)
  }

  ghost function PostOrder(n: Net, o: nat): seq<Handler>
    requires Closed(n) && Acyclic(n) && o in n
    decreases Height(n, o), |n[o]| + 1
  {
    Visit(n, o, |n[o]|) + [Object(o)]
  }

  /** The post-order unfolding of a list of attached objects. */
  ghost function Forest(n: Net, kids: seq<nat>): seq<Handler>
    requires Closed(n) && Acyclic(n) && forall c :: c in kids ==> c in n
    decreases |kids|
  {
    if kids == [] then [] else
    var k := |kids| - 1;
    Forest(n, kids[..k]) + PostOrder(n, kids[k])
  }

  lemma {:induction false} VisitIsForest(n: Net, o: nat, i: nat)
    requires Closed(n) && Acyclic(n) && o in n && i <= |n[o]|
    requires forall c :: c in n[o] ==> c in n
    ensures Visit(n, o, i) == Forest(n, n[o][..i])
    decreases i
  {
    if i > 0 {
      VisitIsForest(n, o, i - 1);
      assert n[o][..i][..i - 1] == n[o][..i - 1];
    }
  }

  lemma PostOrderUnfolds(n: Net, o: nat)
    requires Closed(n) && Acyclic(n) && o in n
    ensures forall c :: c in n[o] ==> c in n
    ensures PostOrder(n, o) == Forest(n, n[o]) + [Object(o)]
  {
    forall c | c in n[o] ensures c in n {
      assert Edge(n, o, c);
    }
    VisitIsForest(n, o, |n[o]|);
    assert n[o][..|n[o]|] == n[o];
  }

  /** Dispatch can come to exactly the objects reachable by attachments. */
  lemma {:induction false} PostOrderMembers(n: Net, o: nat, x: nat)
    requires Closed(n) && Acyclic(n) && o in n
    ensures Object(x) in PostOrder(n, o) <==> Reaches(n, o, x)
    decreases Height(n, o)
  {
    PostOrderUnfolds(n, o);
    forall c | c in n[o] ensures Object(x) in PostOrder(n, c) <==> Reaches(n, c, x) {
      assert Edge(n, o, c);
      HeightDecreases(n, o, c);
      PostOrderMembers(n, c, x);
    }
    ForestMembers(n, n[o], x);
    if Reaches(n, o, x) && x != o {
      var b := ReachesFirst(n, o, x);
    }
    forall c | c in n[o] && Reaches(n, c, x) ensures Reaches(n, o, x) {
      ReachesVia(n, o, c, x);
    }
    ReachesSelf(n, o);
  }

  lemma {:induction false} ForestMembers(n: Net, kids: seq<nat>, x: nat)
    requires Closed(n) && Acyclic(n) && forall c :: c in kids ==> c in n
    ensures Object(x) in Forest(n, kids) <==> exists c :: c in kids && Object(x) in PostOrder(n, c)
    decreases |kids|
  {
    if kids != [] {
      var k := |kids| - 1;
      ForestMembers(n, kids[..k], x);
      assert forall c :: c in kids <==> c in kids[..k] || c == kids[k];
      if c :| c in kids && Object(x) in PostOrder(n, c) {
        assert c in kids[..k] || c == kids[k];
      }
      if Object(x) in PostOrder(n, kids[k]) {
        assert kids[k] in kids;
      }
    }
  }

  // Offering a message along an order, until someone accepts

  /** Does a handler accept, given the handlers this message was already offered to? */
  type Decide = (seq<Handler>, Handler) -> bool

  function Calls(order: seq<Handler>, h: seq<Handler>, decide: Decide): seq<Handler>
    decreases |order|
  {
    if order == [] then []
    else if decide(h, order[0]) then [order[0]]
    else [order[0]] + Calls(order[1..], h + [order[0]], decide)
  }

  predicate Handled(order: seq<Handler>, h: seq<Handler>, decide: Decide)
    decreases |order|
  {
    order != [] && (decide(h, order[0]) || Handled(order[1..], h + [order[0]], decide))
  }

  /** Everyone called before the last rejected the message. */
  ghost predicate AllReject(c: seq<Handler>, h: seq<Handler>, decide: Decide) {
    forall i :: 0 <= i < |c| - 1 ==> !decide(h + c[..i], c[i])
  }

  ghost predicate LastAccepts(c: seq<Handler>, h: seq<Handler>, decide: Decide) {
    c != [] && decide(h + c[..|c| - 1], c[|c| - 1])
  }

  /** The handlers called are the order up to and including the first that accepts. */
  lemma {:induction false} StopsAtFirst(order: seq<Handler>, h: seq<Handler>, decide: Decide)
    ensures Calls(order, h, decide) <= order
    ensures AllReject(Calls(order, h, decide), h, decide)
    ensures Handled(order, h, decide) <==> LastAccepts(Calls(order, h, decide), h, decide)
    ensures !Handled(order, h, decide) ==> Calls(order, h, decide) == order
    decreases |order|
  {
    if order != [] {
      var x, rest := order[0], Calls(order[1..], h + [order[0]], decide);
      assert h + [x][..0] == h;
      if !decide(h, x) {
        StopsAtFirst(order[1..], h + [x], decide);
        RejectedFirst(x, rest, h, decide);
      }
    }
  }

  lemma RejectedFirst(x: Handler, rest: seq<Handler>, h: seq<Handler>, decide: Decide)
    requires !decide(h, x) && AllReject(rest, h + [x], decide)
    ensures AllReject([x] + rest, h, decide)
    ensures LastAccepts([x] + rest, h, decide) <==> LastAccepts(rest, h + [x], decide)
  {
    var c := [x] + rest;
    assert h + c[..0] == h;
    forall i | 0 <= i < |rest| ensures h + c[..i + 1] == h + [x] + rest[..i] && c[i + 1] == rest[i] {
      assert c[..i + 1] == [x] + rest[..i];
    }
    forall i | 0 <= i < |c| - 1 ensures !decide(h + c[..i], c[i]) {
      if i > 0 {
        assert h + c[..i - 1 + 1] == h + [x] + rest[..i - 1];
      }
    }
  }

  lemma {:induction false} OfferConcat(a: seq<Handler>, b: seq<Handler>, h: seq<Handler>, decide: Decide)
    ensures Handled(a + b, h, decide) <==> Handled(a, h, decide) || Handled(b, h + a, decide)
    ensures Calls(a + b, h, decide) ==
            if Handled(a, h, decide) then Calls(a, h, decide) else a + Calls(b, h + a, decide)
    decreases |a|
  {
    if a == [] {
      assert a + b == b && h + a == h;
    } else {
      assert (a + b)[0] == a[0] && (a + b)[1..] == a[1..] + b;
      OfferConcat(a[1..], b, h + [a[0]], decide);
      assert h + [a[0]] + a[1..] == h + a;
      assert [a[0]] + (a[1..] + Calls(b, h + a, decide)) == a + Calls(b, h + a, decide);
    }
  }
}
