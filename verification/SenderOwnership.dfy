/** Who owns the messages and bundles the builder allocates, over every run. */
module SenderOwnership {
  import opened OscTypes
  import opened Packets
  import opened SenderSpec
  import opened SenderRuns

  /** How often `x` occurs in a list of allocations. */
  function Occurs(ids: seq<nat>, x: nat): nat {
    if ids == [] then 0 else (if ids[0] == x then 1 else 0) + Occurs(ids[1..], x)
  }

  lemma {:induction false} OccursConcat(a: seq<nat>, b: seq<nat>, x: nat)
    ensures Occurs(a + b, x) == Occurs(a, x) + Occurs(b, x)
  {
    if a == [] {
      assert a + b == b;
    } else {
      assert (a + b)[0] == a[0] && (a + b)[1..] == a[1..] + b;
      OccursConcat(a[1..], b, x);
    }
  }

  lemma {:induction false} OccursIn(ids: seq<nat>, x: nat)
    ensures Occurs(ids, x) > 0 <==> x in ids
  {
    if ids != [] {
      OccursIn(ids[1..], x);
      assert x in ids <==> x == ids[0] || x in ids[1..];
    }
  }

  function DraftIds(s: State): seq<nat> {
    if s.message.Some? then [s.message.value.id] else []
  }

  /** How often an allocation is accounted for: still reachable from the sender, or handed back. */
  function Accounted(s: State, x: nat): nat {
    Occurs(StackIds(s.stack), x) + Occurs(DraftIds(s), x) + Occurs(s.freed, x)
  }

  /** Allocations accounted for, in all. */
  function Holdings(s: State): nat {
    |StackIds(s.stack)| + |DraftIds(s)| + |s.freed|
  }

  /** No allocation is reachable twice, freed twice, or both. */
  ghost predicate SoleOwner(s: State) {
    forall x: nat :: Accounted(s, x) <= if x < s.allocs then 1 else 0
  }

  /** The commands that drop the last pointer to a message without freeing it. */
  predicate Loses(s: State, c: Cmd) {
    s.message.Some? && ((c.BeginMessage? && !s.messageOpen) || (Empties(c) && s.stack != []))
  }

  predicate Allocates(c: Cmd) {
    c.BeginMessage? || c.BeginBundle? || c.BeginBundleAt?
  }

  /** Where an accepted command moves allocations: into the tree, the message being built, or back to liblo. */
  ghost predicate Moves(s: State, c: Cmd, t: State) {
    if Empties(c) then
      && t.allocs == s.allocs
      && StackIds(t.stack) == [] && DraftIds(t) == []
      && t.freed == s.freed + if s.stack != [] then StackIds(s.stack) else DraftIds(s)
    else
      && t.allocs == s.allocs + (if Allocates(c) then 1 else 0)
      && StackIds(t.stack) == (if c.BeginBundle? || c.BeginBundleAt? then StackIds(s.stack) + [s.allocs]
                               else if c.EndMessage? && s.bundleOpen then StackIds(s.stack) + DraftIds(s)
                               else StackIds(s.stack))
      && DraftIds(t) == (if c.BeginMessage? then [s.allocs]
                         else if c.EndMessage? && s.bundleOpen then []
                         else DraftIds(s))
      && t.freed == s.freed
  }

  lemma StepMoves(s: State, c: Cmd)
    requires Step(s, c).Accepted?
    ensures Moves(s, c, Step(s, c).next)
    ensures c.BeginMessage? ==> !s.messageOpen
  {
    match c
    case Send => ClearedMoves(s);
    case Clear => ClearedMoves(s);
    case BeginBundle => PushedMoves(s, IMMEDIATE);
    case BeginBundleAt(tag) => PushedMoves(s, tag);
    case EndMessage => EndMessageMoves(s);
    case EndBundle => if |s.stack| > 1 { PopMeasures(s.stack); }
    case _ =>
  }

  lemma PushedMoves(s: State, tag: TimeTag)
    ensures Moves(s, BeginBundle, Pushed(s, tag)) && Moves(s, BeginBundleAt(tag), Pushed(s, tag))
  {
    PushMeasures(s.stack, Frame(s.allocs, tag, []));
  }

  lemma EndMessageMoves(s: State)
    requires Step(s, EndMessage).Accepted?
    ensures Moves(s, EndMessage, Step(s, EndMessage).next)
  {
    if s.bundleOpen {
      AddTopMeasures(s.stack, Placed(s));
    }
  }

  lemma ClearedMoves(s: State)
    ensures Moves(s, Clear, Cleared(s))
  {
    if s.stack != [] {
      RootMeasures(s.stack);
    }
  }

  /** A step accounts for what it allocates, and loses track of nothing but what it `Loses`. */
  lemma MovesAccounts(s: State, c: Cmd, t: State, x: nat)
    requires Moves(s, c, t) && (c.BeginMessage? ==> !s.messageOpen)
    ensures Accounted(t, x) + (if Loses(s, c) then Occurs(DraftIds(s), x) else 0)
         == Accounted(s, x) + (if Allocates(c) && x == s.allocs then 1 else 0)
  {
    if Empties(c) {
      OccursConcat(s.freed, if s.stack != [] then StackIds(s.stack) else DraftIds(s), x);
    } else {
      OccursConcat(StackIds(s.stack), [s.allocs], x);
      OccursConcat(StackIds(s.stack), DraftIds(s), x);
    }
  }

  lemma MovesHoldings(s: State, c: Cmd, t: State)
    requires Moves(s, c, t) && (c.BeginMessage? ==> !s.messageOpen)
    ensures t.allocs - Holdings(t) == s.allocs - Holdings(s) + if Loses(s, c) then 1 else 0
  {
  }

  lemma StepSoleOwner(s: State, c: Cmd)
    requires SoleOwner(s) && Step(s, c).Accepted?
    ensures SoleOwner(Step(s, c).next)
  {
    var t := Step(s, c).next;
    StepMoves(s, c);
    forall x: nat ensures Accounted(t, x) <= if x < t.allocs then 1 else 0 {
      MovesAccounts(s, c, t, x);
    }
  }

  function Losses(s: State, cmds: seq<Cmd>): nat
    decreases |cmds|
  {
    if cmds == [] then 0 else
    match Step(s, cmds[0])
    case Accepted(next) => (if Loses(s, cmds[0]) then 1 else 0) + Losses(next, cmds[1..])
    case Threw(_) => Losses(s, cmds[1..])
    case Undefined => 0
  }

  /** Every run keeps sole ownership, and what cannot be accounted for are exactly the lost messages. */
  lemma {:induction false} RunAccounts(s: State, cmds: seq<Cmd>)
    requires SoleOwner(s) && Run(s, cmds).Some?
    ensures SoleOwner(Run(s, cmds).value)
    ensures var t := Run(s, cmds).value;
            t.allocs - Holdings(t) == s.allocs - Holdings(s) + Losses(s, cmds)
    decreases |cmds|
  {
    if cmds != [] {
      match Step(s, cmds[0])
      case Accepted(next) =>
        StepMoves(s, cmds[0]);
        MovesHoldings(s, cmds[0], next);
        StepSoleOwner(s, cmds[0]);
        RunAccounts(next, cmds[1..]);
      case Threw(_) => RunAccounts(s, cmds[1..]);
    }
  }

  // What sole ownership says about the sequences themselves

  ghost predicate Distinct(ids: seq<nat>) {
    forall i, j :: 0 <= i < j < |ids| ==> ids[i] != ids[j]
  }

  lemma OccursDistinct(ids: seq<nat>)
    requires forall x: nat :: Occurs(ids, x) <= 1
    ensures Distinct(ids)
  {
    forall i, j | 0 <= i < j < |ids| ensures ids[i] != ids[j] {
      assert ids == ids[..j] + ids[j..];
      OccursConcat(ids[..j], ids[j..], ids[i]);
      OccursIn(ids[..j], ids[i]);
      OccursIn(ids[j..], ids[i]);
      assert ids[i] in ids[..j];
    }
  }

  lemma OwnedApart(t: State)
    requires SoleOwner(t)
    ensures Distinct(t.freed) && Distinct(StackIds(t.stack))
    ensures forall x :: x in StackIds(t.stack) ==> x !in t.freed
    ensures t.message.Some? ==> t.message.value.id !in t.freed && t.message.value.id !in StackIds(t.stack)
  {
    forall x: nat
      ensures Occurs(StackIds(t.stack), x) <= 1 && Occurs(t.freed, x) <= 1
      ensures x in StackIds(t.stack) ==> x !in t.freed
      ensures x in DraftIds(t) ==> x !in t.freed && x !in StackIds(t.stack)
    {
      assert Accounted(t, x) <= 1;
      OccursIn(StackIds(t.stack), x);
      OccursIn(DraftIds(t), x);
      OccursIn(t.freed, x);
    }
    OccursDistinct(t.freed);
    OccursDistinct(StackIds(t.stack));
    assert t.message.Some? ==> t.message.value.id in DraftIds(t);
  }

  /**
   Ownership safety, for every run: nothing is freed twice, no node of the tree is reachable twice, and
   nothing the sender can still reach has been freed.
   */
  lemma NoDoubleFree(cmds: seq<Cmd>)
    requires Run(INITIAL, cmds).Some?
    ensures var t := Run(INITIAL, cmds).value;
            && Distinct(t.freed)
            && (t.stack != [] ==> Distinct(Ids(Root(t.stack))) && forall x :: x in Ids(Root(t.stack)) ==> x !in t.freed)
            && (t.message.Some? ==> t.message.value.id !in t.freed && t.message.value.id !in StackIds(t.stack))
  {
    RunAccounts(INITIAL, cmds);
    var t := Run(INITIAL, cmds).value;
    OwnedApart(t);
    if t.stack != [] {
      RootMeasures(t.stack);
    }
  }

  // Nothing lost means everything accounted for

  /** Distinct numbers below `n` are at most `n` many, and exactly `n` many only when all are there. */
  lemma {:induction false} Pigeonhole(ids: seq<nat>, n: nat)
    requires forall x: nat :: Occurs(ids, x) <= if x < n then 1 else 0
    ensures |ids| <= n
    ensures |ids| == n <==> AllOnce(ids, n)
    decreases n
  {
    if n == 0 {
      assert ids != [] ==> Occurs(ids, ids[0]) > 0;
    } else {
      var k := n - 1;
      OccursIn(ids, k);
      if k in ids {
        var i :| 0 <= i < |ids| && ids[i] == k;
        var rest := ids[..i] + ids[i + 1..];
        forall x: nat ensures Occurs(ids, x) == Occurs(rest, x) + if x == k then 1 else 0 {
          OccursWithout(ids, i, x);
        }
        Pigeonhole(rest, k);
        assert AllOnce(ids, n) <==> AllOnce(rest, k);
      } else {
        Pigeonhole(ids, k);
        assert Occurs(ids, k) == 0;
      }
    }
  }

  ghost predicate AllOnce(ids: seq<nat>, n: nat) {
    forall x: nat :: x < n ==> Occurs(ids, x) == 1
  }

  lemma OccursWithout(ids: seq<nat>, i: nat, x: nat)
    requires i < |ids|
    ensures Occurs(ids, x) == Occurs(ids[..i] + ids[i + 1..], x) + if x == ids[i] then 1 else 0
  {
    assert ids == ids[..i] + ids[i..];
    OccursConcat(ids[..i], ids[i..], x);
    OccursConcat(ids[..i], ids[i + 1..], x);
    assert ids[i..][1..] == ids[i + 1..];
  }

  /**
   Ownership, exactly: every allocation is reachable or freed, once, if and only if the run never began a message
   over an unsent one and never sent or cleared a bundle with a message beside it.
   */
  lemma NothingLostExactly(cmds: seq<Cmd>)
    requires Run(INITIAL, cmds).Some?
    ensures var t := Run(INITIAL, cmds).value;
            (forall x: nat :: x < t.allocs ==> Accounted(t, x) == 1) <==> Losses(INITIAL, cmds) == 0
  {
    RunAccounts(INITIAL, cmds);
    var t := Run(INITIAL, cmds).value;
    var ledger := StackIds(t.stack) + DraftIds(t) + t.freed;
    forall x: nat ensures Occurs(ledger, x) == Accounted(t, x) {
      OccursConcat(StackIds(t.stack), DraftIds(t), x);
      OccursConcat(StackIds(t.stack) + DraftIds(t), t.freed, x);
    }
    Pigeonhole(ledger, t.allocs);
    assert AllOnce(ledger, t.allocs) <==> forall x: nat :: x < t.allocs ==> Accounted(t, x) == 1;
  }

  /** With nothing lost and nothing being built, everything ever allocated has been freed exactly once. */
  lemma IdleFreedAll(cmds: seq<Cmd>)
    requires Run(INITIAL, cmds).Some? && Losses(INITIAL, cmds) == 0
    requires Run(INITIAL, cmds).value.stack == [] && Run(INITIAL, cmds).value.message.None?
    ensures var t := Run(INITIAL, cmds).value;
            |t.freed| == t.allocs && Distinct(t.freed) && forall x: nat :: x < t.allocs ==> x in t.freed
  {
    NothingLostExactly(cmds);
    NoDoubleFree(cmds);
    RunAccounts(INITIAL, cmds);
    var t := Run(INITIAL, cmds).value;
    forall x: nat | x < t.allocs ensures x in t.freed {
      assert Accounted(t, x) == Occurs(t.freed, x);
      OccursIn(t.freed, x);
    }
  }

  /**
   `endBundle` does not mind a message in progress. Closing the outermost bundle first strands the message: the
   bundle is sent without it, and the message is neither reachable nor freed.
   */
  lemma StrandedMessage(a: Address, tag: TimeTag, path: string)
    ensures var t := Feed(INITIAL, [Setup(a)] + [BeginBundleAt(tag)] + [BeginMessage(path)] + [EndBundle] + [EndMessage] + [Send]);
            && t.Some? && t.value.sent == [Transmission(a, Bundle(tag, []))]
            && t.value.allocs == 2 && Accounted(t.value, 1) == 0
  {
    FeedOne(INITIAL, Setup(a));
    var s1 := INITIAL.(address := Some(a));
    FeedSnoc(INITIAL, [Setup(a)], BeginBundleAt(tag));
    var s2 := Pushed(s1, tag);
    FeedSnoc(INITIAL, [Setup(a)] + [BeginBundleAt(tag)], BeginMessage(path));
    var s3 := Step(s2, BeginMessage(path)).next;
    FeedSnoc(INITIAL, [Setup(a)] + [BeginBundleAt(tag)] + [BeginMessage(path)], EndBundle);
    var s4 := s3.(bundleOpen := false);
    FeedSnoc(INITIAL, [Setup(a)] + [BeginBundleAt(tag)] + [BeginMessage(path)] + [EndBundle], EndMessage);
    var s5 := s4.(messageOpen := false);
    FeedSnoc(INITIAL, [Setup(a)] + [BeginBundleAt(tag)] + [BeginMessage(path)] + [EndBundle] + [EndMessage], Send);
    assert s5.stack == [Frame(0, tag, [])];
    var t := Step(s5, Send).next;
    assert Strip(Root(s5.stack)) == Bundle(tag, []) && Ids(Root(s5.stack)) == [0];
    assert t.sent == [] + [Transmission(a, Bundle(tag, []))];
    assert t.freed == [0];
    assert Occurs([0], 1) == 0 by { assert [0][1..] == []; }
  }
}
