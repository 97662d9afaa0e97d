/** When exactly a sender transmits what its accepted commands spell, over every run. */
module SenderTranscript {
  import opened OscTypes
  import opened Packets
  import opened SenderSpec
  import opened SenderRuns
  import opened SenderRoundTrip
  import opened SenderDiscipline

  /** Reading a command sequence as one packet: so many bundles open, in a message or not; read; or not a packet. */
  datatype Scan = Reading(open: nat, inMessage: bool) | Done | Error

  const START := Reading(0, false)

  function ScanStep(x: Scan, c: Cmd): Scan {
    match (x, c)
    case (Reading(k, m), BeginMessage(_)) => if m then Error else Reading(k, true)
    case (Reading(k, m), Add(_)) => if m then x else Error
    case (Reading(k, m), EndMessage) => if !m then Error else if k == 0 then Done else Reading(k, false)
    case (Reading(k, m), BeginBundleAt(_)) => if m then Error else Reading(k + 1, false)
    case (Reading(k, m), EndBundle) => if m || k == 0 then Error else if k == 1 then Done else Reading(k - 1, false)
    case _ => Error
  }

  function ScanAll(x: Scan, cmds: seq<Cmd>): Scan
    decreases |cmds|
  {
    if cmds == [] then x else ScanAll(ScanStep(x, cmds[0]), cmds[1..])
  }

  /** Brackets match, messages lie inside no message, and there is one packet: a client can check it by counting. */
  predicate Spells(cmds: seq<Cmd>) {
    ScanAll(START, cmds) == Done
  }

  lemma {:induction false} ScanConcat(x: Scan, a: seq<Cmd>, b: seq<Cmd>)
    ensures ScanAll(x, a + b) == ScanAll(ScanAll(x, a), b)
    decreases |a|
  {
    if a == [] {
      assert a + b == b;
    } else {
      assert (a + b)[0] == a[0] && (a + b)[1..] == a[1..] + b;
      ScanConcat(ScanStep(x, a[0]), a[1..], b);
    }
  }

  lemma ScanSnoc(x: Scan, a: seq<Cmd>, c: Cmd)
    ensures ScanAll(x, a + [c]) == ScanStep(ScanAll(x, a), c)
  {
    ScanConcat(x, a, [c]);
    assert [c][1..] == [];
  }

  // Every linearisation reads as a packet

  lemma {:induction false} ScanAdds(k: nat, args: seq<Arg>)
    ensures ScanAll(Reading(k, true), Adds(args)) == Reading(k, true)
    decreases args
  {
    if args != [] {
      assert Adds(args)[1..] == Adds(args[1..]);
      ScanAdds(k, args[1..]);
    }
  }

  lemma {:induction false} ScanLinear(k: nat, p: Packet)
    ensures ScanAll(Reading(k, false), Linear(p)) == if k == 0 then Done else Reading(k, false)
    decreases p, 1
  {
    match p
    case Message(path, args) =>
      ScanSnoc(Reading(k, false), [], BeginMessage(path));
      assert [] + [BeginMessage(path)] == [BeginMessage(path)];
      ScanConcat(Reading(k, false), [BeginMessage(path)], Adds(args));
      ScanAdds(k, args);
      ScanSnoc(Reading(k, false), [BeginMessage(path)] + Adds(args), EndMessage);
    case Bundle(tag, elems) =>
      ScanSnoc(Reading(k, false), [], BeginBundleAt(tag));
      assert [] + [BeginBundleAt(tag)] == [BeginBundleAt(tag)];
      ScanConcat(Reading(k, false), [BeginBundleAt(tag)], LinearAll(elems));
      ScanLinearAll(k + 1, elems);
      ScanSnoc(Reading(k, false), [BeginBundleAt(tag)] + LinearAll(elems), EndBundle);
  }

  lemma {:induction false} ScanLinearAll(k: nat, ps: seq<Packet>)
    requires k > 0
    ensures ScanAll(Reading(k, false), LinearAll(ps)) == Reading(k, false)
    decreases ps, 0
  {
    if ps != [] {
      ScanLinear(k, ps[0]);
      ScanLinearAll(k, ps[1..]);
      ScanConcat(Reading(k, false), Linear(ps[0]), LinearAll(ps[1..]));
    }
  }

  // The sender reads along

  /** The state of a sender that has been given what was read so far. */
  predicate Matches(s: State, x: Scan) {
    match x
    case Reading(k, m) => |s.stack| == k && (k > 0 ==> s.bundleOpen) && s.messageOpen == m && s.message.Some? == m
    case Done =>
      && !s.messageOpen && !s.bundleOpen
      && ((|s.stack| == 1 && s.message.None?) || (s.stack == [] && s.message.Some?))
    case Error => true
  }

  /** After `clear` took the message away the sender still takes itself to be in one. */
  predicate Stuck(s: State, x: Scan) {
    s.messageOpen && s.message.None? && (x.Done? || (x.Reading? && !x.inMessage))
  }

  /** What the commands since the last `send` or `clear`, if they may still be a packet, say about the state. */
  ghost predicate ReadsAlong(s: State, transcript: seq<Cmd>) {
    var x := ScanAll(START, transcript);
    x.Error? || Stuck(s, x) || (Matches(s, x) && Written(s) == transcript)
  }

  lemma MatchesStep(s: State, x: Scan, c: Cmd)
    requires Step(s, c).Accepted? && Builds(c) && !x.Error?
    requires Stuck(s, x) || Matches(s, x)
    ensures var y := ScanStep(x, Effective(c));
            && (Stuck(s, x) ==> y.Error? || Stuck(Step(s, c).next, y))
            && (Matches(s, x) ==> Matches(Step(s, c).next, y))
  {
  }

  lemma WritesStep(s: State, x: Scan, c: Cmd)
    requires Step(s, c).Accepted? && Builds(c) && Matches(s, x) && !x.Error? && !ScanStep(x, Effective(c)).Error?
    ensures Written(Step(s, c).next) == Written(s) + [Effective(c)]
  {
    match c
    case BeginMessage(path) => WritesBeginMessage(s, path);
    case Add(a) => WritesAdd(s, a);
    case EndMessage => WritesEndMessage(s);
    case BeginBundle => WritesPushed(s, IMMEDIATE);
    case BeginBundleAt(tag) => WritesPushed(s, tag);
    case EndBundle => WritesEndBundle(s);
  }

  lemma ReadsAlongStep(s: State, t: seq<Cmd>, c: Cmd)
    requires ReadsAlong(s, t) && Step(s, c).Accepted? && Builds(c)
    ensures ReadsAlong(Step(s, c).next, t + [Effective(c)])
  {
    var x := ScanAll(START, t);
    ScanSnoc(START, t, Effective(c));
    if !x.Error? {
      MatchesStep(s, x, c);
      if !Stuck(s, x) && !ScanStep(x, Effective(c)).Error? {
        WritesStep(s, x, c);
      }
    }
  }

  lemma {:induction false} ReadsAlongRun(s: State, cmds: seq<Cmd>, t: seq<Cmd>)
    requires ReadsAlong(s, t) && Run(s, cmds).Some?
    ensures ReadsAlong(Run(s, cmds).value, Transcript(s, cmds, t))
    decreases |cmds|
  {
    if cmds != [] {
      var c := cmds[0];
      match Step(s, c)
      case Accepted(next) =>
        if Builds(c) {
          ReadsAlongStep(s, t, c);
          ReadsAlongRun(next, cmds[1..], t + [Effective(c)]);
        } else {
          StepWritesNothing(s, c);
          ReadsAlongRun(next, cmds[1..], if Empties(c) then [] else t);
        }
      case Threw(_) => ReadsAlongRun(s, cmds[1..], t);
    }
  }

  /** A sender that is given the commands of a packet rejects none of them. */
  lemma AcceptsStep(s: State, x: Scan, c: Cmd)
    requires Matches(s, x) && !x.Error? && (s.bundleOpen ==> s.stack != [])
    requires !ScanStep(x, c).Error?
    ensures Builds(c) && Step(s, c).Accepted?
    ensures var t := Step(s, c).next; (t.bundleOpen ==> t.stack != []) && t.address == s.address
  {
  }

  lemma {:induction false} ScanError(cmds: seq<Cmd>)
    ensures ScanAll(Error, cmds) == Error
    decreases |cmds|
  {
    if cmds != [] {
      ScanError(cmds[1..]);
    }
  }

  /** The sender has been given exactly `pre`, which may still become a packet. */
  ghost predicate Follows(s: State, x: Scan, pre: seq<Cmd>) {
    && ScanAll(START, pre) == x && !x.Error? && Matches(s, x) && Written(s) == pre
    && s.address.Some? && (s.bundleOpen ==> s.stack != [])
  }

  lemma FollowsStep(s: State, x: Scan, pre: seq<Cmd>, c: Cmd)
    requires Follows(s, x, pre) && !ScanStep(x, c).Error? && Effective(c) == c
    ensures Step(s, c).Accepted? && Follows(Step(s, c).next, ScanStep(x, c), pre + [c])
  {
    AcceptsStep(s, x, c);
    MatchesStep(s, x, c);
    WritesStep(s, x, c);
    ScanSnoc(START, pre, c);
  }

  lemma MoveHead(pre: seq<Cmd>, rest: seq<Cmd>)
    requires rest != []
    ensures pre + [rest[0]] + rest[1..] == pre + rest
  {
  }

  lemma {:induction false} AcceptsAll(s: State, x: Scan, pre: seq<Cmd>, rest: seq<Cmd>)
    requires Follows(s, x, pre) && ScanAll(x, rest) == Done
    requires forall c :: c in rest ==> Effective(c) == c
    ensures Run(s, rest).Some? && Follows(Run(s, rest).value, Done, pre + rest)
    decreases |rest|
  {
    if rest == [] {
      assert pre + [] == pre;
    } else {
      ScanError(rest[1..]);
      FollowsStep(s, x, pre, rest[0]);
      AcceptsAll(Step(s, rest[0]).next, ScanStep(x, rest[0]), pre + [rest[0]], rest[1..]);
      MoveHead(pre, rest);
    }
  }

  /** The count decides it: commands, as they take effect, spell a packet exactly when some packet is written that way. */
  lemma SpellsExactly(cmds: seq<Cmd>)
    requires forall c :: c in cmds ==> Effective(c) == c
    ensures Spells(cmds) <==> exists p :: Linear(p) == cmds
  {
    if Spells(cmds) {
      var s := INITIAL.(address := Some(Address("", 0)));
      AcceptsAll(s, START, [], cmds);
      var t := Run(s, cmds).value;
      assert [] + cmds == cmds;
      assert Orderly(t);
      SendSpells(t);
      assert Linear(Step(t, Send).next.sent[|t.sent|].packet) == cmds;
    }
    if p :| Linear(p) == cmds {
      ScanLinear(0, p);
    }
  }

  /**
   For every run, disciplined or not: the packet a successful `send` transmits linearises to the commands accepted
   since the last `send` or `clear` if and only if these commands spell a packet at all.
   */
  lemma TransmitsExactly(cmds: seq<Cmd>)
    requires Run(INITIAL, cmds).Some? && Step(Run(INITIAL, cmds).value, Send).Accepted?
    ensures var s, t := Run(INITIAL, cmds).value, Transcript(INITIAL, cmds, []);
            var sent := Step(s, Send).next.sent;
            |sent| == |s.sent| + 1 && (Linear(sent[|s.sent|].packet) == t <==> Spells(t))
  {
    var s, t := Run(INITIAL, cmds).value, Transcript(INITIAL, cmds, []);
    assert Written(INITIAL) == [];
    ReadsAlongRun(INITIAL, cmds, []);
    var p := Step(s, Send).next.sent[|s.sent|].packet;
    ScanLinear(0, p);
    if Spells(t) {
      assert Orderly(s);
      SendSpells(s);
    }
  }
}
